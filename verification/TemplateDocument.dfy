/**
 * Editing a finished document in place: insert_str of src/data_template/data_template_client_json.c
 * and _set_template_json_type of src/data_template/data_template_client_manager.c.
 */
module TemplateDocument {
  import opened CStrings
  import opened AtStrings
  import opened JsonScan
  import opened JsonTree
  import opened JsonView
  import opened JsonToken
  import opened JsonShift

  datatype Method = GET | REPORT | RINFO | REPLY | CLEAR | UNKNOWN
  datatype Code = SUCCESS | INVAL

  function MethodName(m: Method): Option<string> {
    match m
    case GET => Some("get_status")
    case REPORT => Some("report")
    case RINFO => Some("report_info")
    case REPLY => Some("control_reply")
    case CLEAR => Some("clear_control")
    case UNKNOWN => None
  }

  /** The inserted member; with QUOTES_TRANSFER_NEED its quotes and its comma are escaped. */
  function MethodNode(name: string, escaped: bool): string {
    if escaped then "\\\"method\\\":\\\"" + name + "\\\"\\, " else "\"method\":\"" + name + "\", "
  }

  /** The member that each method puts into the document, letter by letter. */
  function MemberOf(m: Method, escaped: bool): string {
    match m
    case GET =>
      if escaped then "\\\"method\\\":\\\"get_status\\\"\\, " else "\"method\":\"get_status\", "
    case REPORT =>
      if escaped then "\\\"method\\\":\\\"report\\\"\\, " else "\"method\":\"report\", "
    case RINFO =>
      if escaped then "\\\"method\\\":\\\"report_info\\\"\\, " else "\"method\":\"report_info\", "
    case REPLY =>
      if escaped then "\\\"method\\\":\\\"control_reply\\\"\\, " else "\"method\":\"control_reply\", "
    case CLEAR =>
      if escaped then "\\\"method\\\":\\\"clear_control\\\"\\, " else "\"method\":\"clear_control\", "
    case UNKNOWN => ""
  }

  lemma MemberSpelled(m: Method, escaped: bool)
    ensures NodeOf(m, escaped) == MemberOf(m, escaped) && (MethodName(m).None? <==> m == UNKNOWN)
  {
    hide MethodNode, MemberOf;
    match m
    case GET => GetSpelled(escaped);
    case REPORT => ReportSpelled(escaped);
    case RINFO => RinfoSpelled(escaped);
    case REPLY => ReplySpelled(escaped);
    case CLEAR => ClearSpelled(escaped);
    case UNKNOWN => assert MemberOf(m, escaped) == "" by { UnknownSpelled(escaped); }
  }

  lemma UnknownSpelled(escaped: bool)
    ensures MemberOf(UNKNOWN, escaped) == ""
  {
  }

  lemma GetSpelled(escaped: bool)
    ensures MethodNode("get_status", escaped) == MemberOf(GET, escaped)
  {
  }

  lemma ReportSpelled(escaped: bool)
    ensures MethodNode("report", escaped) == MemberOf(REPORT, escaped)
  {
  }

  lemma RinfoSpelled(escaped: bool)
    ensures MethodNode("report_info", escaped) == MemberOf(RINFO, escaped)
  {
  }

  lemma ReplySpelled(escaped: bool)
    ensures MethodNode("control_reply", escaped) == MemberOf(REPLY, escaped)
  {
  }

  lemma ClearSpelled(escaped: bool)
    ensures MethodNode("clear_control", escaped) == MemberOf(CLEAR, escaped)
  {
  }

  function Inserted(doc: string, pos: nat, x: string): string
    requires pos <= |doc|
  {
    doc[..pos] + x + doc[pos..]
  }

  // ---- insert_str ----

  /** The loop that moves the tail, last character first. */
  method ShiftBack(dest: array<char>, pos: nat, len: nat, nlen: nat)
    requires pos <= len && len + nlen <= dest.Length
    modifies dest
    ensures forall k :: 0 <= k < pos || len + nlen <= k < dest.Length ==> dest[k] == old(dest[k])
    ensures forall k :: pos <= k < len ==> dest[k + nlen] == old(dest[k])
  {
    var i := len;
    while i > pos
      invariant pos <= i <= len
      invariant forall k :: 0 <= k < i || len + nlen <= k < dest.Length ==> dest[k] == old(dest[k])
      invariant forall k :: i <= k < len ==> dest[k + nlen] == old(dest[k])
    {
      i := i - 1;
      dest[i + nlen] := dest[i];
    }
  }

  lemma InsertedHolds(b: seq<char>, doc: string, pos: nat, x: string)
    requires pos <= |doc| && NUL !in doc && NUL !in x && |doc| + |x| < |b|
    requires forall k :: 0 <= k < pos ==> b[k] == doc[k]
    requires forall n :: 0 <= n < |x| ==> b[pos + n] == x[n]
    requires forall k :: pos <= k < |doc| ==> b[k + |x|] == doc[k]
    requires b[|doc| + |x|] == NUL
    ensures HoldsText(b, Inserted(doc, pos, x))
  {
    var t := Inserted(doc, pos, x);
    forall k | 0 <= k < |t| ensures b[k] == t[k] {
      if pos <= k < pos + |x| {
        assert b[pos + (k - pos)] == x[k - pos];
      } else if k >= pos + |x| {
        assert b[(k - |x|) + |x|] == doc[k - |x|];
      }
    }
    assert b[..|t|] == t;
  }

  /**
   * insert_str: together the backward shift, the copy and the NUL are a sequence insertion; past the end of
   * the text it changes only bytes behind the text.
   */
  method InsertStr(dest: array<char>, source: string, pos: nat, ghost doc: string)
    requires HoldsText(dest[..], doc) && NUL !in source
    requires |doc| + |source| < dest.Length && pos + |source| <= dest.Length
    modifies dest
    ensures HoldsText(dest[..], if pos <= |doc| then Inserted(doc, pos, source) else doc)
    ensures forall k :: |doc| + |source| < k < dest.Length && pos + |source| <= k ==> dest[k] == old(dest[k])
  {
    hide Inserted, StrChr;
    HeldText(dest[..], doc);
    var len := StrChr(dest[..], 0, NUL);
    assert forall k :: 0 <= k < len ==> dest[k] == dest[..len][k];
    hide HoldsText;
    if pos <= len {
      ShiftBack(dest, pos, len, |source|);
    }
    CopyIn(dest, pos, source);
    dest[len + |source|] := NUL;
    if pos <= len {
      InsertedHolds(dest[..], doc, pos, source);
    } else {
      SameText(dest[..], doc);
    }
  }

  lemma SameText(b: seq<char>, doc: string)
    requires |doc| < |b| && NUL !in doc && b[|doc|] == NUL && forall k :: 0 <= k < |doc| ==> b[k] == doc[k]
    ensures HoldsText(b, doc)
  {
    assert b[..|doc|] == doc;
  }

  function NodeOf(m: Method, escaped: bool): string {
    match MethodName(m)
    case Some(name) => MethodNode(name, escaped)
    case None => ""
  }

  /**
   * _set_template_json_type, for every size: the member goes in after the first character, if it fits with room
   * to spare. A size no greater than the document is no bound at all, the difference wraps; an empty
   * document stays empty although the call succeeds.
   */
  method SetTemplateJsonType(b: array<char>, size: nat, m: Method, escaped: bool, ghost doc: string) returns (rc: Code)
    requires HoldsText(b[..], doc) && size < SIZE_SPACE && |doc| + |MemberOf(m, escaped)| + 1 < SIZE_SPACE
    requires |doc| < size <= b.Length || |doc| + |MemberOf(m, escaped)| < b.Length
    modifies b
    ensures rc == SUCCESS <==>
            m != UNKNOWN && (size <= |doc| || |doc| + |MemberOf(m, escaped)| + 1 < size)
    ensures rc == SUCCESS ==>
              HoldsText(b[..], if doc == "" then "" else [doc[0]] + MemberOf(m, escaped) + doc[1..])
    ensures rc != SUCCESS ==> b[..] == old(b[..])
  {
    MemberSpelled(m, escaped);
    hide MemberOf;
    var name := MethodName(m);
    if name.None? {
      return INVAL;
    }
    HeldText(b[..], doc);
    var remain := Remain(size, StrChr(b[..], 0, NUL));
    var node := MethodNode(name.value, escaped);
    if |node| >= Remain(remain, 1) {
      return INVAL;
    }
    NameIsText(m);
    NodeIsText(name.value, escaped);
    InsertStr(b, node, 1, doc);
    assert doc != "" ==> doc[..1] == [doc[0]];
    rc := SUCCESS;
  }

  lemma NameIsText(m: Method)
    requires MethodName(m).Some?
    ensures IsName(MethodName(m).value)
  {
    hide IsName;
    match m
    case GET => LettersAreName("get_status");
    case REPORT => LettersAreName("report");
    case RINFO => LettersAreName("report_info");
    case REPLY => LettersAreName("control_reply");
    case CLEAR => LettersAreName("clear_control");
  }

  predicate IsLetter(c: char) {
    c == '_' || 'a' <= c <= 'z'
  }

  /** A method name: letters and underscores. */
  predicate IsName(name: string) {
    name != "" && forall k :: 0 <= k < |name| ==> IsLetter(name[k])
  }

  lemma LettersAreName(name: string)
    requires name != "" && forall k :: 0 <= k < |name| ==> IsLetter(name[k])
    ensures IsName(name)
  {
  }

  lemma NodeIsText(name: string, escaped: bool)
    requires IsName(name)
    ensures NUL !in MethodNode(name, escaped)
  {
  }

  // ---- meaning ----

  lemma NextSkip(s: string, p: nat, q: nat)
    requires NoQuote(s, p, q)
    ensures Next(s, p) == Next(s, q)
  {
    hide MemberAt, ValueStart, StrChr;
    StrChrSkip(s, p, q, '"');
  }

  /** Nothing quoted in between: the scanner may start later. */
  lemma EntriesSkip(s: string, p: nat, q: nat)
    requires NoQuote(s, p, q)
    ensures Entries(s, p) == Entries(s, q)
  {
    hide Next, Reported;
    NextSkip(s, p, q);
    NothingAtEnd(s);
  }

  lemma NothingAtEnd(s: string)
    ensures Next(s, |s|) == Miss
  {
  }

  function WithMethod(doc: string, name: string): string
    requires doc != ""
  {
    Inserted(doc, 1, MethodNode(name, false))
  }

  /** The inserted member as a field of the new document. */
  function MethodSpot(name: string): Spot {
    Spot(1, "", "", Field("method", Str(name)))
  }

  lemma NodeLayout(name: string)
    ensures MethodNode(name, false) == Label(JsObject, "method", "", "") + Core(Str(name)) + ", "
    ensures |Label(JsObject, "method", "", "")| == 9
  {
    assert Label(JsObject, "method", "", "") == "\"method\":";
  }

  /** The new document shows the new member and, two characters later, the old text. */
  lemma MethodShown(doc: string, name: string)
    requires doc != "" && doc[0] == '{' && IsName(name)
    ensures var t := WithMethod(doc, name);
            && Shown(t, MethodSpot(name)) && NoQuote(t, 0, 1)
            && EndPos(MethodSpot(name)) + 2 == 1 + |MethodNode(name, false)|
            && NoQuote(t, EndPos(MethodSpot(name)), EndPos(MethodSpot(name)) + 2)
            && Shifted(doc, t, 1, |MethodNode(name, false)|) && t[0] == '{'
  {
    var t := WithMethod(doc, name);
    var tag, core := Label(JsObject, "method", "", ""), Core(Str(name));
    NodeLayout(name);
    assert t == doc[..1] + tag + (core + ", " + doc[1..]);
    PieceAt(doc[..1], tag, core + ", " + doc[1..]);
    assert t == (doc[..1] + tag) + core + (", " + doc[1..]);
    PieceAt(doc[..1] + tag, core, ", " + doc[1..]);
    assert t == (doc[..1] + tag + core) + ", " + doc[1..];
    PieceAt(doc[..1] + tag + core, ", ", doc[1..]);
    QuoteFree(t, |doc[..1] + tag + core|, ", ");
    assert Whole(Str(name));
  }

  lemma SpotFacts(name: string)
    requires IsName(name)
    ensures var sp := MethodSpot(name);
            && sp.at == 1 && Seen(sp.field.val) == name && Counts(sp.field) && sp.field.key == "method"
            && EntryAt(sp).at == SeenPos(sp) && EntryAt(sp).len == |name|
  {
    hide SeenPos;
  }

  /** In the new document "method" is the method name. */
  lemma MethodInserted(doc: string, name: string)
    requires doc != "" && doc[0] == '{' && IsName(name)
    ensures ValueOf("method", 0, WithMethod(doc, name), 0) == Some(name)
  {
    hide Shifted, WithMethod, MethodNode, Shown, NoQuote, EndPos, Lookup;
    hide ValueOf, Seen, Counts, MethodSpot, EntryAt, SeenPos;
    var t := WithMethod(doc, name);
    var sp := MethodSpot(name);
    MethodShown(doc, name);
    ShiftedLength(doc, t, 1, |MethodNode(name, false)|);
    SpotFacts(name);
    LookupFirst(t, sp, "method");
    SeenAt(t, sp);
    ValueOfPlain("method", t);
  }

  lemma ValueOfPlain(key: string, s: string)
    requires '.' !in key
    ensures var found := Lookup(s, 0, key);
            ValueOf(key, 0, s, 0) ==
            if found.None? then None else Some(s[found.value.at..found.value.at + found.value.len])
  {
    hide Lookup, StrChr, ValueOf;
    NoDot(key);
    ValueOfStep(key, 0, s, 0);
  }

  lemma LookupAt(s: string, name: string)
    requires s != "" && s[0] == '{'
    ensures Lookup(s, 0, name) == FirstEntry(Entries(s, 0), name)
  {
  }

  lemma LookupFirst(t: string, sp: Spot, name: string)
    requires t != "" && t[0] == '{' && Shown(t, sp) && NoQuote(t, 0, sp.at) && Counts(sp.field) && EndPos(sp) <= |t|
    ensures Lookup(t, 0, name) ==
            if sp.field.key == name then Some(EntryAt(sp)) else FirstEntry(Entries(t, EndPos(sp)), name)
  {
    LookupAt(t, name);
    NextOnField(t, 0, sp);
    hide Next, Shown, EndPos, Seen, Lookup, FirstEntry, Entries, NoQuote, IsNamed, EntryOf, EntryAt, HitOf;
    NamedField(t, sp, name);
    FirstEntryStep(t, 0, name);
  }

  lemma NamedField(t: string, sp: Spot, name: string)
    requires KeyEnd(sp) <= |t| && t[sp.at + 1..KeyEnd(sp)] == sp.field.key && Counts(sp.field)
    ensures var hit := HitOf(sp);
            && hit.Member? && hit.next == EndPos(sp) && hit.keyAt + hit.keyLen <= |t|
            && EntryOf(t, hit) == EntryAt(sp) && (IsNamed(t, hit, name) <==> sp.field.key == name)
  {
  }

  /** The first part of a key finds the same value as before, further on. */
  lemma OtherPartKept(doc: string, name: string, part: string)
    requires doc != "" && doc[0] == '{' && IsName(name) && part != "method"
    ensures Lookup(WithMethod(doc, name), 0, part) == MovedEntry(Lookup(doc, 0, part), |MethodNode(name, false)|)
  {
    var t, d := WithMethod(doc, name), |MethodNode(name, false)|;
    MethodShown(doc, name);
    hide Shifted, Shown, WithMethod, MethodNode, EndPos, Lookup, Entries, FirstEntry, NoQuote;
    ShiftedLength(doc, t, 1, d);
    var sp := MethodSpot(name);
    LookupFirst(t, sp, part);
    EntriesSkip(t, EndPos(sp), 1 + d);
    FirstShift(doc, t, 1, d, 1, part);
    NotAQuote(doc);
    EntriesSkip(doc, 0, 1);
    LookupAt(doc, part);
  }

  lemma NotAQuote(doc: string)
    requires doc != "" && doc[0] == '{'
    ensures NoQuote(doc, 0, 1)
  {
  }

  /** Every other key looks up as before. */
  lemma OthersKept(doc: string, name: string, key: string)
    requires doc != "" && doc[0] == '{' && IsName(name) && Split(key, 0)[0] != "method"
    ensures ValueOf(key, 0, WithMethod(doc, name), 0) == ValueOf(key, 0, doc, 0)
  {
    var t, d := WithMethod(doc, name), |MethodNode(name, false)|;
    var delim := StrChr(key, 0, '.');
    MethodShown(doc, name);
    OtherPartKept(doc, name, key[0..delim]);
    ValueOfMoved(key, doc, t, d);
  }

  lemma ValueOfMoved(key: string, s: string, t: string, d: nat)
    requires Shifted(s, t, 1, d)
    requires var part := key[0..StrChr(key, 0, '.')]; Lookup(t, 0, part) == MovedEntry(Lookup(s, 0, part), d)
    ensures ValueOf(key, 0, t, 0) == ValueOf(key, 0, s, 0)
  {
    hide Shifted, Lookup, StrChr;
    ShiftedLength(s, t, 1, d);
    var delim := StrChr(key, 0, '.');
    var found := Lookup(s, 0, key[0..delim]);
    if found.Some? {
      SliceShift(s, t, 1, d, found.value.at, found.value.at + found.value.len);
      if delim < |key| {
        ValueOfShift(key, delim + 1, s, t, 1, d, found.value.at);
      }
    }
  }

  // ---- the escaped form ----

  /** Unescaping the edited document is editing the unescaped one. */
  lemma EscapedInsert(doc: string, name: string)
    requires doc != "" && doc[0] != '\\' && IsName(name)
    ensures Strip(doc, '\\') != ""
    ensures Strip(Inserted(doc, 1, MethodNode(name, true)), '\\') ==
            Inserted(Strip(doc, '\\'), 1, MethodNode(name, false))
  {
    assert doc == [doc[0]] + doc[1..];
    hide Strip, MethodNode, Inserted;
    InsertAfter(doc[0], doc[1..], name);
  }

  lemma InsertAfter(c: char, rest: string, name: string)
    requires c != '\\' && IsName(name)
    ensures Strip([c] + rest, '\\') != ""
    ensures Strip(Inserted([c] + rest, 1, MethodNode(name, true)), '\\') ==
            Inserted(Strip([c] + rest, '\\'), 1, MethodNode(name, false))
  {
    hide Strip, MethodNode, Dangles, Inserted;
    var node := MethodNode(name, true);
    NodeStrips(name);
    StripConcat(node, rest, '\\');
    StripFirst(c, rest, '\\');
    StripFirst(c, node + rest, '\\');
    InsertedFirst(c, rest, node);
    InsertedFirst(c, Strip(rest, '\\'), MethodNode(name, false));
  }

  lemma NodeStrips(name: string)
    requires IsName(name)
    ensures !Dangles(MethodNode(name, true), '\\') && Strip(MethodNode(name, true), '\\') == MethodNode(name, false)
  {
    hide Strip, MethodNode, Dangles;
    EscapedNode(name);
  }

  lemma StripFirst(c: char, rest: string, mark: char)
    requires c != mark
    ensures Strip([c] + rest, mark) == [c] + Strip(rest, mark)
  {
    assert ([c] + rest)[1..] == rest;
  }

  lemma InsertedFirst(c: char, rest: string, x: string)
    ensures Inserted([c] + rest, 1, x) == [c] + (x + rest)
  {
  }

  lemma EscapedNode(name: string)
    requires IsName(name)
    ensures Unescapes(MethodNode(name, true), MethodNode(name, false), '\\')
  {
    hide Unescapes, Strip, Dangles;
    UnescapesQuoted("method");
    UnescapesQuoted(name);
    UnescapesMarked(',', '\\');
    UnescapesPlain(":", '\\');
    UnescapesPlain(" ", '\\');
    assert ['\\', ','] == "\\," && [','] == ",";
    var e1, t1 := "\\\"" + "method" + "\\\"", "\"" + "method" + "\"";
    var e2, t2 := "\\\"" + name + "\\\"", "\"" + name + "\"";
    UnescapesConcat(e1, t1, ":", ":", '\\');
    UnescapesConcat(e1 + ":", t1 + ":", e2, t2, '\\');
    UnescapesConcat(e1 + ":" + e2, t1 + ":" + t2, "\\,", ",", '\\');
    UnescapesConcat(e1 + ":" + e2 + "\\,", t1 + ":" + t2 + ",", " ", " ", '\\');
    NodeSpelled(name);
  }

  lemma NodeSpelled(name: string)
    ensures MethodNode(name, true) == "\\\"" + "method" + "\\\"" + ":" + ("\\\"" + name + "\\\"") + "\\," + " "
    ensures MethodNode(name, false) == "\"" + "method" + "\"" + ":" + ("\"" + name + "\"") + "," + " "
  {
  }
}
