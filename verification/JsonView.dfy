/** What the member scanner makes of the text of a tree. */
module JsonView {
  import opened CStrings
  import opened JsonScan
  import opened JsonTree

  datatype Field = Field(key: string, val: Value)

  /** A field in a text, its opening quote at `at`. */
  datatype Spot = Spot(at: nat, w2: string, w3: string, field: Field)

  function KeyEnd(sp: Spot): nat {
    sp.at + 1 + |sp.field.key|
  }

  function ValuePos(sp: Spot): nat {
    sp.at + |Label(JsObject, sp.field.key, sp.w2, sp.w3)|
  }

  function SeenPos(sp: Spot): nat {
    if sp.field.val.Str? then ValuePos(sp) + 1 else ValuePos(sp)
  }

  function EndPos(sp: Spot): nat {
    ValuePos(sp) + |Core(sp.field.val)|
  }

  /** The text shows the field, and a number in it does not run on. */
  predicate Shown(s: string, sp: Spot) {
    && '"' !in sp.field.key && IsBlank(sp.w2) && IsBlank(sp.w3) && Whole(sp.field.val)
    && sp.at <= ValuePos(sp) <= |s|
    && At(s, sp.at, Label(JsObject, sp.field.key, sp.w2, sp.w3))
    && At(s, ValuePos(sp), Core(sp.field.val))
    && (sp.field.val.Num? ==> EndPos(sp) < |s| && !IsNumberChar(s[EndPos(sp)]))
  }

  /** A text put together from a field and what stands around it shows the field. */
  lemma ShownBetween(pre: string, field: Field, rest: string)
    requires '"' !in field.key && Whole(field.val) && !field.val.Num?
    ensures var t := pre + Label(JsObject, field.key, "", "") + Core(field.val) + rest;
            Shown(t, Spot(|pre|, "", "", field)) && EndPos(Spot(|pre|, "", "", field)) <= |t|
  {
    var tag, core := Label(JsObject, field.key, "", ""), Core(field.val);
    assert IsBlank("");
    hide Label, Core, Whole, IsBlank;
    ConcatAssoc(pre + tag, core, rest);
    ConcatAssoc(pre, tag, core + rest);
    PieceAt(pre, tag, core + rest);
    PieceAt(pre + tag, core, rest);
  }

  lemma PieceAt(a: string, b: string, c: string)
    ensures At(a + b + c, |a|, b)
  {
  }

  predicate NoQuote(s: string, p: nat, q: nat) {
    p <= q <= |s| && forall k :: p <= k < q ==> s[k] != '"'
  }

  // ---- one field ----

  lemma LabelParts(s: string, sp: Spot)
    requires sp.at <= |s| && At(s, sp.at, Label(JsObject, sp.field.key, sp.w2, sp.w3))
    ensures ValuePos(sp) == KeyEnd(sp) + 1 + |sp.w2| + 1 + |sp.w3| <= |s|
    ensures s[sp.at] == '"' && At(s, sp.at + 1, sp.field.key) && s[KeyEnd(sp)] == '"'
    ensures At(s, KeyEnd(sp) + 1, sp.w2) && s[KeyEnd(sp) + 1 + |sp.w2|] == ':'
    ensures At(s, KeyEnd(sp) + 1 + |sp.w2| + 1, sp.w3)
  {
    hide At;
    AtSplit4(s, sp.at, "\"", sp.field.key, "\"", Gap(sp.w2, sp.w3));
    AtChar(s, sp.at, '"');
    AtChar(s, KeyEnd(sp), '"');
    AtSplit3(s, KeyEnd(sp) + 1, sp.w2, ":", sp.w3);
    AtChar(s, KeyEnd(sp) + 1 + |sp.w2|, ':');
  }

  lemma StrChrOver(s: string, p: nat, x: string, c: char)
    requires p <= |s| && At(s, p, x) && c !in x
    ensures StrChr(s, p, c) == StrChr(s, p + |x|, c)
  {
    forall k | p <= k < p + |x| ensures s[k] != c {
      assert s[p + (k - p)] == x[k - p];
    }
    StrChrSkip(s, p, p + |x|, c);
  }

  lemma {:induction false} ValueStartOver(s: string, p: nat, w: string)
    requires p <= |s| && At(s, p, w) && IsBlank(w)
    ensures ValueStart(s, p) == ValueStart(s, p + |w|)
    decreases |w|
  {
    if w != "" {
      assert s[p + 0] == w[0];
      assert At(s, p + 1, w[1..]) by {
        forall k | 0 <= k < |w| - 1 ensures s[p + 1 + k] == w[1..][k] {
          assert s[p + (1 + k)] == w[1 + k];
        }
      }
      ValueStartOver(s, p + 1, w[1..]);
    }
  }

  lemma CoreOpens(v: Value)
    requires Whole(v)
    ensures Core(v) != "" && KindOf(Core(v)[0]) == Some(KindOfValue(v))
  {
  }

  lemma {:induction false} NumberEndOver(s: string, p: nat, q: nat)
    requires p <= q < |s| && !IsNumberChar(s[q])
    requires forall k :: p <= k < q ==> IsNumberChar(s[k])
    ensures NumberEnd(s, p) == q
    decreases q - p
  {
    if p < q {
      NumberEndOver(s, p + 1, q);
    }
  }

  /** The scanner reports the seen part of every well-formed value. */
  lemma MeasureWhole(s: string, p: nat, v: Value)
    requires p <= |s| && At(s, p, Core(v)) && Whole(v)
    requires v.Num? ==> p + |Core(v)| < |s| && !IsNumberChar(s[p + |Core(v)|])
    ensures v.Str? ==> ValueLen(s, p + 1, JsString) == |Seen(v)| && s[p] == '"'
    ensures !v.Str? ==> p < |s| && ValueLen(s, p, KindOfValue(v)) == |Seen(v)|
  {
    match v
    case Str(text) => MeasureString(s, p, text);
    case Num(shown, exp) => MeasureNumber(s, p, shown, exp);
    case Lit(text) => MeasureLiteral(s, p, text);
    case Block(shape, ws, members) => MeasureBlock(s, p, v);
  }

  lemma MeasureString(s: string, p: nat, text: string)
    requires p <= |s| && At(s, p, "\"" + text + "\"") && '"' !in text
    ensures p < |s| && s[p] == '"' && ValueLen(s, p + 1, JsString) == |text|
  {
    AtSplit3(s, p, "\"", text, "\"");
    AtChar(s, p, '"');
    AtChar(s, p + 1 + |text|, '"');
    WalkPlain(text, 0, JsString);
    CloseAtWalk(s, p + 1, text, 0, JsString);
  }

  lemma MeasureNumber(s: string, p: nat, shown: string, exp: string)
    requires p <= |s| && At(s, p, shown) && IsNumberText(shown, exp)
    requires p + |shown| < |s| && !IsNumberChar(s[p + |shown|])
    ensures ValueLen(s, p, JsNumber) == |shown|
  {
    forall k | p + 1 <= k < p + |shown| ensures IsNumberChar(s[k]) {
      assert s[p + (k - p)] == shown[k - p];
    }
    NumberEndOver(s, p + 1, p + |shown|);
  }

  lemma MeasureLiteral(s: string, p: nat, text: string)
    requires p <= |s| && At(s, p, text) && IsLiteral(text)
    ensures p < |s| && ValueLen(s, p, KindOfValue(Lit(text))) == |text|
  {
    assert s[p + 0] == text[0];
    assert At(s, p, "true") ==> s[p + 0] == "true"[0];
    assert At(s, p, "TRUE") ==> s[p + 0] == "TRUE"[0];
  }

  lemma MeasureBlock(s: string, p: nat, v: Value)
    requires p <= |s| && v.Block? && At(s, p, Text(v)) && Whole(v)
    ensures p < |s| && ValueLen(s, p, v.shape) == |Text(v)|
  {
    hide At, IsBlank, Text, MembersText, Balanced, ValueLen;
    BlockMeasured(s, p, v);
  }

  /** The three searches of the scanner, on a field. */
  lemma FindField(s: string, p: nat, sp: Spot)
    requires Shown(s, sp) && p <= sp.at && NoQuote(s, p, sp.at)
    ensures KeyEnd(sp) < |s| && StrChr(s, p, '"') == sp.at && StrChr(s, sp.at + 1, '"') == KeyEnd(sp)
    ensures ValuePos(sp) < |s| && KindOf(s[ValuePos(sp)]) == Some(KindOfValue(sp.field.val))
    ensures ValueStart(s, StrChr(s, KeyEnd(sp), ':')) == ValuePos(sp)
  {
    LabelParts(s, sp);
    StrChrSkip(s, p, sp.at, '"');
    StrChrOver(s, sp.at + 1, sp.field.key, '"');
    CoreOpens(sp.field.val);
    assert s[ValuePos(sp) + 0] == Core(sp.field.val)[0];
    FindColon(s, sp);
  }

  lemma FindColon(s: string, sp: Spot)
    requires Shown(s, sp) && KeyEnd(sp) < |s|
    requires ValuePos(sp) < |s| && KindOf(s[ValuePos(sp)]).Some?
    ensures ValueStart(s, StrChr(s, KeyEnd(sp), ':')) == ValuePos(sp)
  {
    LabelParts(s, sp);
    hide At, Core, Label, StrChr, ValueStart;
    ColonAt(s, KeyEnd(sp), sp.w2, sp.w3);
  }

  lemma ColonAt(s: string, p: nat, w2: string, w3: string)
    requires p < |s| && s[p] == '"' && At(s, p + 1, w2) && IsBlank(w2)
    requires var colon := p + 1 + |w2|; colon < |s| && s[colon] == ':' && At(s, colon + 1, w3) && IsBlank(w3)
    requires var v := p + 2 + |w2| + |w3|; v < |s| && KindOf(s[v]).Some?
    ensures ValueStart(s, StrChr(s, p, ':')) == p + 2 + |w2| + |w3|
  {
    var colon := p + 1 + |w2|;
    assert StrChr(s, p, ':') == StrChr(s, p + 1, ':') && StrChr(s, colon, ':') == colon;
    hide At, StrChr;
    StrChrOver(s, p + 1, w2, ':');
    ColonSkipped(s, colon);
    ValueStartOver(s, colon + 1, w3);
    hide ValueStart;
    ValueHere(s, colon + 1 + |w3|);
  }

  lemma ColonSkipped(s: string, p: nat)
    requires p < |s| && s[p] == ':'
    ensures ValueStart(s, p) == ValueStart(s, p + 1)
  {
  }

  lemma ValueHere(s: string, p: nat)
    requires p < |s| && KindOf(s[p]).Some?
    ensures ValueStart(s, p) == p
  {
  }

  /** What the scanner reports about a field of the text. */
  function HitOf(sp: Spot): Hit {
    Member(sp.at + 1, |sp.field.key|, SeenPos(sp), |Seen(sp.field.val)|, KindOfValue(sp.field.val), EndPos(sp))
  }

  lemma NextIs(s: string, p: nat, q: nat, q': nat, v: nat)
    requires p <= |s| && StrChr(s, p, '"') == q < |s| && StrChr(s, q + 1, '"') == q' < |s|
    requires ValueStart(s, StrChr(s, q', ':')) == v < |s|
    ensures q < q' < v && Next(s, p) == MemberAt(s, q + 1, q' - (q + 1), v)
  {
    hide MemberAt;
    assert s[q'] == '"' && s[StrChr(s, q', ':')] == ':';
  }

  lemma MemberIs(s: string, sp: Spot)
    requires sp.at < KeyEnd(sp) <= ValuePos(sp) < |s| && KindOf(s[ValuePos(sp)]) == Some(KindOfValue(sp.field.val))
    requires KindOfValue(sp.field.val).JsString? <==> sp.field.val.Str?
    requires |Core(sp.field.val)| == if sp.field.val.Str? then |Seen(sp.field.val)| + 2 else |Seen(sp.field.val)|
    requires ValueLen(s, SeenPos(sp), KindOfValue(sp.field.val)) == |Seen(sp.field.val)|
    ensures MemberAt(s, sp.at + 1, |sp.field.key|, ValuePos(sp)) == HitOf(sp)
  {
    hide ValueLen, Core, Seen, KindOfValue, Label;
  }

  lemma NextOnField(s: string, p: nat, sp: Spot)
    requires Shown(s, sp) && p <= sp.at && NoQuote(s, p, sp.at)
    ensures Next(s, p) == HitOf(sp)
    ensures s[sp.at + 1..KeyEnd(sp)] == sp.field.key
  {
    hide At, KindOf, ValueStart, StrChr, IsBlank, Label, Whole, Core, Seen, Next, NoQuote, ValueLen, MemberAt;
    FindField(s, p, sp);
    NextIs(s, p, sp.at, KeyEnd(sp), ValuePos(sp));
    MeasureWhole(s, ValuePos(sp), sp.field.val);
    LabelParts(s, sp);
    AtIsSlice(s, sp.at + 1, sp.field.key);
    SeenLength(sp.field.val);
    MemberIs(s, sp);
  }

  lemma SeenLength(v: Value)
    requires Whole(v)
    ensures |Core(v)| == if v.Str? then |Seen(v)| + 2 else |Seen(v)|
    ensures KindOfValue(v).JsString? <==> v.Str?
  {
  }

  /** The reported part is what the field's value shows. */
  lemma SeenAt(s: string, sp: Spot)
    requires Shown(s, sp)
    ensures SeenPos(sp) + |Seen(sp.field.val)| <= |s|
    ensures s[SeenPos(sp)..SeenPos(sp) + |Seen(sp.field.val)|] == Seen(sp.field.val)
  {
    if sp.field.val.Str? {
      AtSplit3(s, ValuePos(sp), "\"", sp.field.val.text, "\"");
    }
    AtIsSlice(s, SeenPos(sp), Seen(sp.field.val));
  }

  // ---- many fields ----

  /** From `p` on the text shows exactly these fields, nothing quoted between them. */
  predicate Holds(s: string, p: nat, spots: seq<Spot>)
    decreases |spots|
  {
    p <= |s| &&
    if spots == [] then NoQuote(s, p, |s|)
    else
      && p <= spots[0].at && NoQuote(s, p, spots[0].at)
      && Shown(s, spots[0]) && EndPos(spots[0]) <= |s|
      && Holds(s, EndPos(spots[0]), spots[1..])
  }

  lemma HoldsEarlier(s: string, q: nat, p: nat, spots: seq<Spot>)
    requires q <= p && NoQuote(s, q, p) && Holds(s, p, spots)
    ensures Holds(s, q, spots)
  {
  }

  predicate Counts(f: Field) {
    f.key != "" && Seen(f.val) != ""
  }

  function EntryAt(sp: Spot): Entry {
    Entry(sp.field.key, SeenPos(sp), |Seen(sp.field.val)|, KindOfValue(sp.field.val))
  }

  /** The entry of the first field of that name, skipping empty keys and empty values. */
  function FirstSpot(spots: seq<Spot>, name: string): (r: Option<nat>)
    ensures r.Some? ==> r.value < |spots| && spots[r.value].field.key == name && Counts(spots[r.value].field)
  {
    if spots == [] then None
    else if Counts(spots[0].field) && spots[0].field.key == name then Some(0)
    else match FirstSpot(spots[1..], name) case None => None case Some(i) => Some(i + 1)
  }

  /** One turn of the member loop, on a field. */
  lemma EntriesTurn(s: string, p: nat, sp: Spot)
    requires p < |s| && Next(s, p) == HitOf(sp)
    requires KeyEnd(sp) <= |s| && s[sp.at + 1..KeyEnd(sp)] == sp.field.key && EndPos(sp) <= |s|
    ensures Entries(s, p) == (if Counts(sp.field) then [EntryAt(sp)] else []) + Entries(s, EndPos(sp))
  {
    hide Next, Seen, EndPos, SeenPos;
  }

  /** The member loop yields exactly the fields, in order. */
  lemma {:induction false} EntriesOfFields(s: string, p: nat, spots: seq<Spot>)
    requires Holds(s, p, spots)
    ensures Entries(s, p) == EntriesAt(spots)
    decreases |spots|
  {
    if spots == [] {
      StrChrSkip(s, p, |s|, '"');
    } else {
      NextOnField(s, p, spots[0]);
      var sp := spots[0];
      hide NoQuote, Shown, Next, HitOf, EndPos, Counts, EntryAt, Entries;
      FieldInside(s, sp);
      EntriesTurn(s, p, sp);
      EntriesOfFields(s, EndPos(sp), spots[1..]);
    }
  }

  lemma FieldInside(s: string, sp: Spot)
    requires Shown(s, sp)
    ensures sp.at < KeyEnd(sp) < |s|
  {
    LabelParts(s, sp);
  }

  function EntriesAt(spots: seq<Spot>): seq<Entry> {
    if spots == [] then []
    else (if Counts(spots[0].field) then [EntryAt(spots[0])] else []) + EntriesAt(spots[1..])
  }

  lemma EntryName(sp: Spot)
    ensures EntryAt(sp).key == sp.field.key
  {
  }

  lemma {:induction false} FirstOfEntries(spots: seq<Spot>, name: string)
    ensures var i := FirstSpot(spots, name);
            FirstEntry(EntriesAt(spots), name) == if i.None? then None else Some(EntryAt(spots[i.value]))
  {
    hide Counts, EntryAt;
    if spots != [] {
      EntryName(spots[0]);
      FirstOfEntries(spots[1..], name);
      FirstEntryConcat(if Counts(spots[0].field) then [EntryAt(spots[0])] else [], EntriesAt(spots[1..]), name);
    }
  }

  /** The fields of an object text at `p`. */
  function Spots(ms: Members, p: nat): seq<Spot>
    decreases ms
  {
    if ms.Nil? then []
    else [Spot(p + |ms.w1|, ms.w2, ms.w3, Field(ms.key, ms.val))] + Spots(ms.tail, p + TailOffset(JsObject, ms))
  }

  /** A text of members, closed by a brace, shows them and then whatever follows the brace. */
  lemma {:induction false} MembersHold(s: string, p: nat, ms: Members, rest: seq<Spot>)
    requires p <= |s| && At(s, p, MembersText(JsObject, ms))
    requires WholeMembers(ms)
    requires var e := p + |MembersText(JsObject, ms)|; e < |s| && s[e] == '}' && Holds(s, e, rest)
    ensures Holds(s, p, Spots(ms, p) + rest)
    decreases ms
  {
    hide At, NoQuote, Shown, Text, Label, Holds, Whole, TailOffset, IsBlank;
    if ms.Nil? {
      assert Spots(ms, p) + rest == rest;
    } else {
      MembersLayout(s, p, JsObject, ms);
      var q := p + TailOffset(JsObject, ms);
      MembersHold(s, q, ms.tail, rest);
      var sp := Spot(p + |ms.w1|, ms.w2, ms.w3, Field(ms.key, ms.val));
      FieldShown(s, p, ms, sp);
      HoldsCons(s, p, sp, q, Spots(ms.tail, q) + rest);
      assert Spots(ms, p) + rest == [sp] + (Spots(ms.tail, q) + rest);
    }
  }

  lemma HoldsCons(s: string, p: nat, sp: Spot, q: nat, spots: seq<Spot>)
    requires NoQuote(s, p, sp.at) && Shown(s, sp) && NoQuote(s, EndPos(sp), q) && Holds(s, q, spots)
    ensures Holds(s, p, [sp] + spots)
  {
    HoldsEarlier(s, EndPos(sp), q, spots);
    assert ([sp] + spots)[1..] == spots;
  }

  lemma FieldShown(s: string, p: nat, ms: Members, sp: Spot)
    requires p <= |s| && ms.Cons? && At(s, p, MembersText(JsObject, ms))
    requires WholeMembers(ms)
    requires var e := p + |MembersText(JsObject, ms)|; e < |s| && s[e] == '}'
    requires sp == Spot(p + |ms.w1|, ms.w2, ms.w3, Field(ms.key, ms.val))
    ensures NoQuote(s, p, sp.at) && Shown(s, sp)
    ensures NoQuote(s, EndPos(sp), p + TailOffset(JsObject, ms))
  {
    hide At, NoQuote, Shown, Text, Label, Whole, IsBlank, Comma;
    MembersLayout(s, p, JsObject, ms);
    assert ValuePos(sp) == p + ValueOffset(JsObject, ms);
    assert ms.tail.Nil? ==> MembersText(JsObject, ms.tail) == "";
    hide WholeMembers, MembersText, TailOffset, ValueOffset, AfterValue;
    FieldGaps(s, p, ms, sp);
  }

  function Exp(v: Value): string {
    match v case Num(_, exp) => exp case _ => ""
  }

  lemma FieldGaps(s: string, p: nat, ms: Members, sp: Spot)
    requires p <= |s| && ms.Cons? && At(s, p, ms.w1) && WholeMembers(ms)
    requires sp == Spot(p + |ms.w1|, ms.w2, ms.w3, Field(ms.key, ms.val))
    requires sp.at <= |s| && At(s, sp.at, Label(JsObject, ms.key, ms.w2, ms.w3))
    requires ValuePos(sp) <= |s| && At(s, ValuePos(sp), Text(ms.val))
    requires p + AfterValue(JsObject, ms) <= |s| && At(s, p + AfterValue(JsObject, ms), ms.w4 + Comma(ms.tail))
    requires p + TailOffset(JsObject, ms) < |s| && (ms.tail.Nil? ==> s[p + TailOffset(JsObject, ms)] == '}')
    ensures NoQuote(s, p, sp.at) && Shown(s, sp)
    ensures NoQuote(s, EndPos(sp), p + TailOffset(JsObject, ms))
  {
    hide IsBlank, Label, Text, Core, IsNumberChar, Whole, At;
    WholeParts(ms);
    QuoteFree(s, p, ms.w1);
    CoreExp(s, ValuePos(sp), ms.val);
    QuoteFree(s, EndPos(sp), Exp(ms.val));
    QuoteFree(s, EndPos(sp) + |Exp(ms.val)|, ms.w4 + Comma(ms.tail));
    NumberStops(s, EndPos(sp), ms);
  }

  /** There are no quotes between the parts of a member. */
  lemma WholeParts(ms: Members)
    requires ms.Cons? && WholeMembers(ms)
    ensures Whole(ms.val) && IsBlank(ms.w1) && IsBlank(ms.w2) && IsBlank(ms.w3) && IsBlank(ms.w4) && '"' !in ms.key
    ensures '"' !in ms.w1 && '"' !in Exp(ms.val) && '"' !in ms.w4 + Comma(ms.tail)
  {
    hide Balanced, GrammarMembers;
  }

  lemma CoreExp(s: string, p: nat, v: Value)
    requires p <= |s| && At(s, p, Text(v))
    ensures At(s, p, Core(v)) && p + |Core(v)| <= |s| && At(s, p + |Core(v)|, Exp(v))
    ensures |Text(v)| == |Core(v)| + |Exp(v)|
  {
    if v.Num? {
      AtSplit(s, p, v.shown, v.exp);
    }
  }

  lemma QuoteFree(s: string, p: nat, x: string)
    requires p <= |s| && At(s, p, x) && '"' !in x
    ensures NoQuote(s, p, p + |x|)
  {
    forall k | p <= k < p + |x| ensures s[k] != '"' {
      assert s[p + (k - p)] == x[k - p];
    }
  }

  /** What follows a number is an exponent, a blank, a comma or the closing brace. */
  lemma NumberStops(s: string, p: nat, ms: Members)
    requires ms.Cons? && Whole(ms.val) && IsBlank(ms.w4)
    requires p <= |s| && At(s, p, Exp(ms.val))
    requires var q := p + |Exp(ms.val)|; q <= |s| && At(s, q, ms.w4 + Comma(ms.tail))
    requires var r := p + |Exp(ms.val)| + |ms.w4 + Comma(ms.tail)|; r < |s| && (ms.tail.Nil? ==> s[r] == '}')
    ensures ms.val.Num? ==> !IsNumberChar(s[p])
  {
    hide WholeMembers, GrammarMembers, Balanced, IsBlank;
    var gap := ms.w4 + Comma(ms.tail);
    if ms.val.Num? {
      if ms.val.exp != "" {
        assert s[p + 0] == ms.val.exp[0];
      } else if gap != "" {
        assert s[p + 0] == gap[0];
        GapStops(ms.w4, ms.tail);
      }
    }
  }

  lemma GapStops(w: string, tail: Members)
    requires IsBlank(w) && w + Comma(tail) != ""
    ensures !IsNumberChar((w + Comma(tail))[0])
  {
    if w != "" {
      assert (w + Comma(tail))[0] == w[0];
    }
  }
}
