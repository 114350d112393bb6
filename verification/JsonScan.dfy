/** The JSON member scanner of src/utils/json_parser.c: one member at a time, by moving a cursor. */
module JsonScan {
  import opened CStrings
  import opened Decimal

  datatype Kind = JsString | JsObject | JsArray | JsNumber | JsBoolean | JsNull

  /** What one call reports: nothing left, or where a member's key and value are and the next cursor. */
  datatype Hit =
    | Miss
    | Member(keyAt: nat, keyLen: nat, valAt: nat, valLen: nat, kind: Kind, next: nat)

  predicate IsNumberChar(c: char) {
    IsDigit(c) || c == '.'
  }

  /** The kind of value a character opens, if any. */
  function KindOf(c: char): Option<Kind> {
    if c == '"' then Some(JsString)
    else if c == '{' then Some(JsObject)
    else if c == '[' then Some(JsArray)
    else if c == '-' || IsDigit(c) then Some(JsNumber)
    else if c == 't' || c == 'T' || c == 'f' || c == 'F' then Some(JsBoolean)
    else if c == 'n' || c == 'N' then Some(JsNull)
    else None
  }

  /** The pair of marks that opens and closes a string, an object or an array. */
  function Opening(kind: Kind): char {
    match kind case JsString => '"' case JsObject => '{' case _ => '['
  }

  function Closing(kind: Kind): char {
    match kind case JsString => '"' case JsObject => '}' case _ => ']'
  }

  /** The position of the first character that opens a value. */
  function ValueStart(s: string, p: nat): (r: nat)
    requires p <= |s|
    ensures p <= r <= |s|
    ensures r < |s| ==> KindOf(s[r]).Some?
    decreases |s| - p
  {
    if p == |s| || KindOf(s[p]).Some? then p else ValueStart(s, p + 1)
  }

  /** The position of the first character a number cannot contain. */
  function NumberEnd(s: string, p: nat): (r: nat)
    requires p <= |s|
    ensures p <= r <= |s|
    decreases |s| - p
  {
    if p == |s| || !IsNumberChar(s[p]) then p else NumberEnd(s, p + 1)
  }

  /** The position of the closing mark that no opening one matches, `depth` marks being open at `p`. */
  function CloseAt(s: string, p: nat, depth: nat, kind: Kind): (r: nat)
    requires p <= |s|
    ensures p <= r <= |s|
    decreases |s| - p
  {
    if p == |s| then p
    else if s[p] == Closing(kind) then
      if depth == 0 then p else CloseAt(s, p + 1, depth - 1, kind)
    else if s[p] == Opening(kind) then CloseAt(s, p + 1, depth + 1, kind)
    else CloseAt(s, p + 1, depth, kind)
  }

  function LiteralLen(s: string, p: nat, kind: Kind): (r: nat)
    requires p <= |s|
    ensures p + r <= |s|
  {
    if kind.JsBoolean? then
      if At(s, p, "true") || At(s, p, "TRUE") then 4
      else if At(s, p, "false") || At(s, p, "FALSE") then 5
      else 0
    else if At(s, p, "null") || At(s, p, "NULL") then 4
    else 0
  }

  /** How long the value at `p` is; a string starts after its quote. 0 when it does not end. */
  function ValueLen(s: string, p: nat, kind: Kind): (r: nat)
    requires p <= |s|
    requires !kind.JsString? ==> p < |s|
    ensures p + r <= |s|
    ensures kind.JsString? && p + r == |s| ==> r == 0
  {
    if kind.JsBoolean? || kind.JsNull? then LiteralLen(s, p, kind)
    else if kind.JsNumber? then
      var e := NumberEnd(s, p + 1);
      if e < |s| then e - p else 0
    else if kind.JsString? then
      var e := CloseAt(s, p, 0, kind);
      if e < |s| then e - p else 0
    else
      var e := CloseAt(s, p + 1, 0, kind);
      if e < |s| then e + 1 - p else 0
  }

  /** The member whose value opens at `v`, its key being at `key`. */
  function MemberAt(s: string, key: nat, keyLen: nat, v: nat): (hit: Hit)
    requires key + keyLen <= v < |s| && KindOf(s[v]).Some?
    ensures hit.Member? && hit.keyAt == key && hit.keyLen == keyLen && v <= hit.valAt <= |s|
    ensures hit.valAt + hit.valLen <= |s|
    ensures v < hit.next || (v == hit.valAt == hit.next && hit.valLen == 0)
    ensures hit.next <= |s| + 1 && (hit.next == |s| + 1 ==> s[|s| - 1] == '"')
  {
    var kind := KindOf(s[v]).value;
    if kind.JsString? then
      var len := ValueLen(s, v + 1, kind);
      Member(key, keyLen, v + 1, len, kind, v + 1 + len + 1)
    else
      var len := ValueLen(s, v, kind);
      Member(key, keyLen, v, len, kind, v + len)
  }

  /** The member whose key is the first quoted text from `p` on. */
  function Next(s: string, p: nat): (hit: Hit)
    requires p <= |s|
    ensures hit.Member? ==> p < hit.keyAt && hit.keyAt + hit.keyLen < hit.valAt <= hit.next
    ensures hit.Member? ==> hit.valAt + hit.valLen <= |s| && hit.next <= |s| + 1
    ensures hit.Member? && hit.next == |s| + 1 ==> s[|s| - 1] == '"'
  {
    var q := StrChr(s, p, '"');
    if q == |s| then Miss else
    var q' := StrChr(s, q + 1, '"');
    if q' == |s| then Miss else
    var v := ValueStart(s, StrChr(s, q', ':'));
    if v == |s| then Miss else
    MemberAt(s, q + 1, q' - (q + 1), v)
  }

  /** json_get_object(JSOBJECT, str): the cursor on `{` after spaces, or none. */
  method JsonGetObject(s: string, from: nat) returns (pos: Option<nat>)
    requires from <= |s|
    ensures pos == ObjectAt(s, from)
  {
    var str := from;
    while str < |s|
      invariant from <= str <= |s|
      invariant ObjectAt(s, from) == ObjectAt(s, str)
    {
      if s[str] == ' ' {
        str := str + 1;
        continue;
      }
      return if s[str] == '{' then Some(str) else None;
    }
    return None;
  }

  function ObjectAt(s: string, p: nat): (r: Option<nat>)
    requires p <= |s|
    ensures r.Some? ==> p <= r.value < |s| && s[r.value] == '{'
    decreases |s| - p
  {
    if p == |s| then None
    else if s[p] == ' ' then ObjectAt(s, p + 1)
    else if s[p] == '{' then Some(p)
    else None
  }

  /** The value-start loop (json_parser.c:81-108). */
  method FindValue(s: string, from: nat) returns (pos: nat)
    requires from <= |s|
    ensures pos == ValueStart(s, from)
  {
    pos := from;
    while pos < |s| && KindOf(s[pos]).None?
      invariant from <= pos <= |s|
      invariant ValueStart(s, from) == ValueStart(s, pos)
    {
      pos := pos + 1;
    }
  }

  /** The value-end loop (json_parser.c:109-155). */
  method MeasureValue(s: string, value: nat, kind: Kind) returns (valueLen: nat)
    requires value <= |s|
    requires !kind.JsString? ==> value < |s|
    ensures valueLen == ValueLen(s, value, kind)
  {
    if kind.JsBoolean? || kind.JsNull? {
      // the loop looks at the same literal at every step, so one look decides
      return LiteralLen(s, value, kind);
    }
    var first := if kind.JsString? then value else value + 1;
    var pos := first;
    var depth := 0;
    while pos < |s|
      invariant first <= pos <= |s|
      invariant !kind.JsNumber? ==> CloseAt(s, first, 0, kind) == CloseAt(s, pos, depth, kind)
      invariant kind.JsNumber? ==> NumberEnd(s, first) == NumberEnd(s, pos)
    {
      if kind.JsNumber? {
        if !IsNumberChar(s[pos]) {
          return pos - value;
        }
      } else if s[pos] == Closing(kind) {
        if depth == 0 {
          return pos - value + if kind.JsString? then 0 else 1;
        }
        depth := depth - 1;
      } else if s[pos] == Opening(kind) {
        depth := depth + 1;
      }
      pos := pos + 1;
    }
    valueLen := 0;
  }

  /** json_get_next_object(JSOBJECT, ...): a returned cursor is none or strictly further on. */
  method JsonGetNextObject(s: string, str: nat) returns (hit: Hit)
    requires str <= |s|
    ensures hit == Next(s, str)
    ensures hit.Member? ==> str < hit.next
  {
    var pos := StrChr(s, str, '"');
    if pos == |s| {
      return Miss;
    }
    var name := pos + 1;
    pos := StrChr(s, name, '"');
    if pos == |s| {
      return Miss;
    }
    var nameLen := pos - name;
    pos := StrChr(s, pos, ':');
    pos := FindValue(s, pos);
    if pos == |s| {
      return Miss;
    }
    var kind := KindOf(s[pos]).value;
    var value := if kind.JsString? then pos + 1 else pos;
    var valueLen := MeasureValue(s, value, kind);
    if kind.JsString? {
      return Member(name, nameLen, value, valueLen, kind, value + valueLen + 1);
    } else {
      return Member(name, nameLen, value, valueLen, kind, value + valueLen);
    }
  }

  /** A member as the loop hands it to the callback; `at` is where its value starts. */
  datatype Entry = Entry(key: string, at: nat, len: nat, kind: Kind)

  predicate Within(e: Entry, p: nat, s: string) {
    e.key != "" && 0 < e.len && p < e.at && e.at + e.len <= |s|
  }

  function EntryOf(s: string, hit: Hit): Entry
    requires hit.Member? && hit.keyAt + hit.keyLen <= |s|
  {
    Entry(s[hit.keyAt..hit.keyAt + hit.keyLen], hit.valAt, hit.valLen, hit.kind)
  }

  /** A member with an empty key or an empty value is not handed over. */
  function Reported(s: string, hit: Hit): (es: seq<Entry>)
    requires hit.Member? && hit.keyAt + hit.keyLen <= |s|
  {
    if hit.keyLen > 0 && hit.valLen > 0 then [EntryOf(s, hit)] else []
  }

  /** The callback json_get_value_by_name_cb finishes on this member. */
  predicate IsNamed(s: string, hit: Hit, name: string)
    requires hit.Member? && hit.keyAt + hit.keyLen <= |s|
  {
    hit.keyLen > 0 && hit.valLen > 0 && hit.keyLen == |name| && EntryOf(s, hit).key == name
  }

  /** The members handed over from cursor `p` on. */
  function Entries(s: string, p: nat): (es: seq<Entry>)
    requires p <= |s|
    decreases |s| - p
  {
    var hit := Next(s, p);
    if p == |s| || hit.Miss? then []
    else Reported(s, hit) + if hit.next <= |s| then Entries(s, hit.next) else []
  }

  /** What is handed over lies further on in the text, with a key and a value that are not empty. */
  lemma {:induction false} EntriesWithin(s: string, p: nat)
    requires p <= |s|
    ensures forall e :: e in Entries(s, p) ==> Within(e, p, s)
    decreases |s| - p
  {
    var hit := Next(s, p);
    if p < |s| && hit.Member? && hit.next <= |s| {
      EntriesWithin(s, hit.next);
      forall e | e in Entries(s, hit.next) ensures Within(e, p, s) {
        assert Within(e, hit.next, s);
      }
    }
  }

  function FirstEntry(es: seq<Entry>, name: string): (r: Option<Entry>)
    ensures r.Some? ==> r.value in es && r.value.key == name
  {
    if es == [] then None
    else if es[0].key == name then Some(es[0])
    else FirstEntry(es[1..], name)
  }

  lemma {:induction false} FirstEntryConcat(xs: seq<Entry>, ys: seq<Entry>, name: string)
    ensures FirstEntry(xs + ys, name) ==
            if FirstEntry(xs, name).Some? then FirstEntry(xs, name) else FirstEntry(ys, name)
  {
    if xs == [] {
      assert xs + ys == ys;
    } else {
      assert (xs + ys)[1..] == xs[1..] + ys;
      FirstEntryConcat(xs[1..], ys, name);
    }
  }

  /** One turn of the member loop. */
  lemma FirstEntryStep(s: string, p: nat, name: string)
    requires p < |s| && Next(s, p).Member? && Next(s, p).next <= |s|
    ensures var hit := Next(s, p);
            FirstEntry(Entries(s, p), name) ==
            if IsNamed(s, hit, name) then Some(EntryOf(s, hit)) else FirstEntry(Entries(s, hit.next), name)
  {
    var hit := Next(s, p);
    FirstEntryConcat(Reported(s, hit), Entries(s, hit.next), name);
  }

  /** The first member of that name: what json_get_value_by_name finds. */
  function Lookup(s: string, from: nat, name: string): (nv: Option<Entry>)
    requires from <= |s|
    ensures nv.Some? ==> Within(nv.value, from, s) && nv.value.key == name
  {
    match ObjectAt(s, from)
    case None => None
    case Some(p) =>
      EntriesWithin(s, p);
      FirstEntry(Entries(s, p), name)
  }

  // ---- where the cursor may leave the text ----

  /** The member loop from cursor `p` ends, or finds the name, with its cursor still inside the text. */
  predicate LoopStays(s: string, p: nat, name: string)
    requires p <= |s|
    decreases |s| - p
  {
    var hit := Next(s, p);
    || p == |s| || hit.Miss? || IsNamed(s, hit, name)
    || (hit.next <= |s| && LoopStays(s, hit.next, name))
  }

  predicate LookupStays(s: string, from: nat, name: string)
    requires from <= |s|
  {
    match ObjectAt(s, from) case None => true case Some(p) => LoopStays(s, p, name)
  }

  /**
   * One turn takes the cursor past the end exactly when the text's last character is the quote that opens the
   * value.
   */
  lemma LeavesAtQuote(s: string, p: nat)
    requires p <= |s| && Next(s, p).Member?
    ensures Next(s, p).next > |s| <==> Next(s, p).kind.JsString? && Next(s, p).valAt == |s|
    ensures Next(s, p).next > |s| ==> s != "" && s[|s| - 1] == '"' && forall name :: !IsNamed(s, Next(s, p), name)
  {
    hide ValueStart, LiteralLen, NumberEnd, CloseAt, KindOf;
  }

  lemma {:induction false} LoopStaysUnlessQuote(s: string, p: nat, name: string)
    requires p <= |s| && (s == "" || s[|s| - 1] != '"')
    ensures LoopStays(s, p, name)
    decreases |s| - p
  {
    var hit := Next(s, p);
    hide Next, IsNamed;
    if p < |s| && hit.Member? {
      LeavesAtQuote(s, p);
      LoopStaysUnlessQuote(s, hit.next, name);
    }
  }

  /** A lone quote at the end is harmless; one that opens a value is not, unless the name came before. */
  lemma QuoteAtEnd()
    ensures forall name: string :: LookupStays("\"", 0, name)
    ensures !LookupStays("{\"a\":\"", 0, "a") && LookupStays("{\"b\":1,\"a\":\"", 0, "b")
  {
    assert forall name: string :: LookupStays("\"", 0, name);
    hide LookupStays;
    QuoteOpensValue();
    NamedBeforeQuote();
  }

  lemma QuoteOpensValue()
    ensures !LookupStays("{\"a\":\"", 0, "a")
  {
    hide IsNamed;
    var s := "{\"a\":\"";
    assert ObjectAt(s, 0) == Some(0);
    assert StrChr(s, 0, '"') == 1 && StrChr(s, 2, '"') == 3 && StrChr(s, 3, ':') == 4;
    assert KindOf(s[4]).None? && KindOf(s[5]) == Some(JsString) && ValueStart(s, 4) == 5;
    assert Next(s, 0) == MemberAt(s, 2, 1, 5);
    assert Next(s, 0).next == |s| + 1 by {
      assert CloseAt(s, 6, 0, JsString) == 6;
    }
    LeavesAtQuote(s, 0);
  }

  lemma NamedBeforeQuote()
    ensures LookupStays("{\"b\":1,\"a\":\"", 0, "b")
  {
    var s := "{\"b\":1,\"a\":\"";
    assert ObjectAt(s, 0) == Some(0);
    assert StrChr(s, 0, '"') == 1 && StrChr(s, 2, '"') == 3 && StrChr(s, 3, ':') == 4;
    assert KindOf(s[4]).None? && KindOf(s[5]) == Some(JsNumber) && ValueStart(s, 4) == 5;
    assert NumberEnd(s, 6) == 6;
    assert Next(s, 0) == MemberAt(s, 2, 1, 5);
    assert s[2..3] == "b";
  }

  /** json_parse_name_value with json_get_value_by_name_cb, wherever its cursor stays inside the text. */
  method JsonGetValueByName(s: string, from: nat, name: string) returns (nv: Option<Entry>)
    requires from <= |s| && LookupStays(s, from, name)
    ensures nv == Lookup(s, from, name)
  {
    nv := None;
    var first := JsonGetObject(s, from);
    if first.None? {
      return;
    }
    var pos := first.value;
    while pos < |s|
      invariant pos <= |s| && LoopStays(s, pos, name)
      invariant Lookup(s, from, name) == FirstEntry(Entries(s, pos), name)
    {
      var hit := JsonGetNextObject(s, pos);
      if hit.Miss? {
        return;
      }
      LeavesAtQuote(s, pos);
      FirstEntryStep(s, pos, name);
      if IsNamed(s, hit, name) {
        return Some(EntryOf(s, hit));
      }
      pos := hit.next;
    }
  }
}
