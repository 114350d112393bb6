/**
 * Reading a report back: update_value_if_key_match of src/data_template/data_template_client_json.c
 * with the readers of src/utils/json_token.c undoes the printing, property by property.
 */
module ReportRoundTrip {
  import opened CStrings
  import opened AtStrings
  import opened Decimal
  import opened NumberScan
  import JsonScan
  import T = JsonTree
  import V = JsonView
  import J = JsonToken
  import opened ReportBuilder

  // ---- the report as a tree ----

  function ValueOfData(d: Data): T.Value {
    match d
    case Null => T.Lit("null")
    case Bool(b) => T.Lit(if b then "true" else "false")
    case Int(n) => T.Num(IntText(n), "")
    case Text(s) => T.Str(s)
  }

  /** The nodes as members of an object, without white space. */
  function MembersOf(fs: seq<Field>): T.Members {
    if fs == [] then T.Nil
    else T.Cons("", fs[0].key, "", "", ValueOfData(fs[0].data), "", MembersOf(fs[1..]))
  }

  function Params(fs: seq<Field>): T.Value {
    T.Block(JsonScan.JsObject, "", MembersOf(fs))
  }

  function ReportTree(token: string, fs: seq<Field>): T.Value {
    T.Block(JsonScan.JsObject, "",
            T.Cons("", "clientToken", "", "", T.Str(token), "",
                   T.Cons(" ", "params", "", "", Params(fs), "", T.Nil)))
  }

  /** A text without quotes. */
  predicate IsPlain(s: string) {
    '"' !in s
  }

  predicate PlainField(f: Field) {
    IsPlain(f.key) && (f.data.Text? ==> IsPlain(f.data.s))
  }

  predicate PlainFields(fs: seq<Field>) {
    forall i :: 0 <= i < |fs| ==> PlainField(fs[i])
  }

  /** The braces in the printed properties match; with no braces at all they do. */
  predicate BracesMatch(fs: seq<Field>) {
    T.Balanced(T.InsideText(Params(fs)), JsonScan.JsObject)
  }

  predicate NoBraces(f: Field) {
    T.NoMark(f.key, JsonScan.JsObject) && (f.data.Text? ==> T.NoMark(f.data.s, JsonScan.JsObject))
  }

  lemma IntIsNumber(n: int)
    ensures T.IsNumberText(IntText(n), "")
  {
    var d := Digits(if n < 0 then -n else n);
    assert forall k :: 0 <= k < |d| ==> IsDigit(d[k]);
  }

  lemma DataWellFormed(d: Data)
    requires d.Text? ==> IsPlain(d.s)
    ensures T.WellFormed(ValueOfData(d)) && T.Grammar(ValueOfData(d))
    ensures T.Text(ValueOfData(d)) == DataText(d, false)
  {
    if d.Int? {
      IntIsNumber(d.n);
      assert IntText(d.n) + "" == IntText(d.n);
    }
  }

  lemma {:induction false} MembersWellFormed(fs: seq<Field>)
    requires PlainFields(fs)
    ensures T.WellFormedMembers(MembersOf(fs)) && T.GrammarMembers(MembersOf(fs))
  {
    if fs != [] {
      MembersWellFormed(fs[1..]);
      assert PlainField(fs[0]);
      DataWellFormed(fs[0].data);
    }
  }

  /** The properties by themselves are a document, whatever braces their strings hold. */
  lemma ParamsWellFormed(fs: seq<Field>)
    requires PlainFields(fs)
    ensures J.IsDocument("", Params(fs), "")
  {
    MembersWellFormed(fs);
  }

  lemma TreeWellFormed(token: string, fs: seq<Field>)
    requires IsPlain(token) && PlainFields(fs) && BracesMatch(fs)
    ensures J.IsDocument("", ReportTree(token, fs), "")
  {
    ParamsBlock(fs);
    hide T.WellFormed, T.WellFormedMembers, T.IsBlank, BracesMatch, PlainFields, Params;
    NoMembers();
    var params := T.Cons(" ", "params", "", "", Params(fs), "", T.Nil);
    MemberWellFormed(params);
    MemberWellFormed(T.Cons("", "clientToken", "", "", T.Str(token), "", params));
  }

  lemma ParamsBlock(fs: seq<Field>)
    requires PlainFields(fs) && BracesMatch(fs)
    ensures T.WellFormed(Params(fs))
  {
    MembersWellFormed(fs);
    hide MembersOf, T.MembersText, T.Walk;
  }

  lemma NoMembers()
    ensures T.WellFormedMembers(T.Nil) && T.IsBlank("") && T.IsBlank(" ")
    ensures forall s :: IsPlain(s) ==> T.WellFormed(T.Str(s))
  {
  }

  lemma MemberWellFormed(ms: T.Members)
    requires ms.Cons? && T.IsBlank(ms.w1) && T.IsBlank(ms.w2) && T.IsBlank(ms.w3) && T.IsBlank(ms.w4)
    requires '"' !in ms.key && T.WellFormed(ms.val) && T.WellFormedMembers(ms.tail)
    ensures T.WellFormedMembers(ms)
  {
  }

  lemma {:induction false} NoBracesClean(fs: seq<Field>)
    requires forall i :: 0 <= i < |fs| ==> NoBraces(fs[i])
    ensures T.CleanMembers(MembersOf(fs), JsonScan.JsObject)
  {
    if fs != [] {
      NoBracesClean(fs[1..]);
    }
  }

  lemma NoBracesMatch(fs: seq<Field>)
    requires PlainFields(fs) && forall i :: 0 <= i < |fs| ==> NoBraces(fs[i])
    ensures BracesMatch(fs)
  {
    MembersWellFormed(fs);
    NoBracesClean(fs);
    T.WalkInside(Params(fs), 0, JsonScan.JsObject);
  }

  /** The printed nodes, read from the front. */
  lemma {:induction false} NodesFront(fs: seq<Field>)
    requires fs != []
    ensures JoinedNodes(fs, false) ==
            NodeText(fs[0], false) + if |fs| == 1 then "" else "," + JoinedNodes(fs[1..], false)
    decreases |fs|
  {
    hide NodeText;
    if |fs| > 1 {
      NodesTextFront(fs[..|fs| - 1]);
      assert fs[..|fs| - 1][1..] == fs[1..][..|fs| - 2];
    }
  }

  lemma {:induction false} NodesTextFront(fs: seq<Field>)
    requires fs != []
    ensures NodesText(fs, false) == NodeText(fs[0], false) + "," + NodesText(fs[1..], false)
    decreases |fs|
  {
    hide NodeText;
    var n := |fs| - 1;
    if n > 0 {
      NodesTextFront(fs[..n]);
      assert fs[..n][1..] == fs[1..][..n - 1];
    }
  }

  lemma {:induction false} MembersPrinted(fs: seq<Field>)
    requires fs != [] && PlainFields(fs)
    ensures T.MembersText(JsonScan.JsObject, MembersOf(fs)) == JoinedNodes(fs, false)
    decreases |fs|
  {
    var tail := MembersOf(fs[1..]);
    assert MembersOf(fs) == T.Cons("", fs[0].key, "", "", ValueOfData(fs[0].data), "", tail);
    assert tail.Nil? <==> |fs| == 1;
    assert T.Comma(tail) == if |fs| == 1 then "" else ",";
    assert tail.Nil? ==> T.MembersText(JsonScan.JsObject, tail) == "";
    assert PlainField(fs[0]) && PlainFields(fs[1..]);
    hide T.MembersText, T.Text, MembersOf, ValueOfData, NodeText, JoinedNodes, T.Comma, DataText, PlainFields;
    NodesFront(fs);
    DataWellFormed(fs[0].data);
    if |fs| > 1 {
      MembersPrinted(fs[1..]);
      ConcatAssoc(NodeText(fs[0], false), ",", JoinedNodes(fs[1..], false));
    } else {
      ConcatAssoc(NodeText(fs[0], false), "", "");
      assert "" + "" == "";
    }
    MemberPrinted(fs[0], tail);
  }

  lemma LabelIsKey(key: string)
    ensures T.Label(JsonScan.JsObject, key, "", "") == KeyText(key, false)
  {
    assert T.Gap("", "") == ":";
  }

  lemma MemberPrinted(f: Field, tail: T.Members)
    requires T.Text(ValueOfData(f.data)) == DataText(f.data, false)
    ensures T.MembersText(JsonScan.JsObject, T.Cons("", f.key, "", "", ValueOfData(f.data), "", tail)) ==
            NodeText(f, false) + T.Comma(tail) + T.MembersText(JsonScan.JsObject, tail)
  {
    LabelIsKey(f.key);
    hide T.Label, T.Text, KeyText, DataText, T.Comma, ValueOfData;
    var l, x, c := T.Label(JsonScan.JsObject, f.key, "", ""), T.Text(ValueOfData(f.data)), T.Comma(tail);
    assert "" + l + x + ("" + c) == l + x + c;
  }

  /** The printed report is the text of the tree. */
  lemma ReportIsTree(token: string, fs: seq<Field>)
    requires fs != [] && PlainFields(fs)
    ensures T.Text(ReportTree(token, fs)) == ReportText(token, fs, false)
  {
    MembersPrinted(fs);
    ParamsPrinted(fs);
    OuterPrinted(token, fs);
    var j := JoinedNodes(fs, false);
    Spell(Quoted("clientToken", false), Quoted(token, false), Quoted("params", false), j);
  }

  lemma ParamsPrinted(fs: seq<Field>)
    requires fs != [] && T.MembersText(JsonScan.JsObject, MembersOf(fs)) == JoinedNodes(fs, false)
    ensures T.Text(Params(fs)) == "{" + JoinedNodes(fs, false) + "}"
  {
    hide T.MembersText, JoinedNodes, MembersOf;
    assert [JsonScan.Opening(JsonScan.JsObject)] == "{" && [JsonScan.Closing(JsonScan.JsObject)] == "}";
    assert "{" + "" == "{";
  }

  lemma OuterPrinted(token: string, fs: seq<Field>)
    ensures T.Text(ReportTree(token, fs)) ==
            "{" + (KeyText("clientToken", false) + Quoted(token, false) + "," +
                   (" " + KeyText("params", false) + T.Text(Params(fs)))) + "}"
  {
    LabelIsKey("clientToken");
    LabelIsKey("params");
    hide T.Label, KeyText, Params;
    var p := T.Cons(" ", "params", "", "", Params(fs), "", T.Nil);
    var inner := T.MembersText(JsonScan.JsObject, p);
    assert T.Comma(T.Nil) == "" && T.MembersText(JsonScan.JsObject, T.Nil) == "";
    assert inner == " " + KeyText("params", false) + T.Text(Params(fs));
    var all := T.Cons("", "clientToken", "", "", T.Str(token), "", p);
    assert T.Text(T.Str(token)) == Quoted(token, false);
    assert T.MembersText(JsonScan.JsObject, all) == KeyText("clientToken", false) + Quoted(token, false) + "," + inner;
    assert [JsonScan.Opening(JsonScan.JsObject)] == "{" && [JsonScan.Closing(JsonScan.JsObject)] == "}";
    assert "{" + "" == "{";
  }

  lemma Spell(qc: string, q: string, qp: string, j: string)
    ensures "{" + ((qc + ":") + q + "," + (" " + (qp + ":") + ("{" + j + "}"))) + "}" ==
            (("{" + qc + ":" + q) + "," + " " + qp + ":{") + j + "}}"
  {
    assert ":" + "{" == ":{" && "}" + "}" == "}}";
    assert (qp + ":") + ("{" + j + "}") == qp + ":{" + j + "}";
  }

  // ---- the readers ----

  function Power2(n: nat): nat {
    if n == 0 then 1 else 2 * Power2(n - 1)
  }

  /** Stored in so many bits. */
  function Wrap(n: int, bits: nat, signed: bool): int
    requires bits > 0
  {
    PowerPositive(bits);
    var m := n % Power2(bits);
    if signed && m >= Power2(bits - 1) then m - Power2(bits) else m
  }

  lemma {:induction false} PowerPositive(n: nat)
    ensures Power2(n) > 0
  {
    if n > 0 {
      PowerPositive(n - 1);
    }
  }

  predicate InRange(n: int, bits: nat, signed: bool)
    requires bits > 0
  {
    if signed then 0 - Power2(bits - 1) <= n < Power2(bits - 1) else 0 <= n < Power2(bits)
  }

  /** The ranges of the six integer types, and what becomes of a number out of them. */
  lemma RangesSpelled(n: int)
    ensures InRange(n, 8, true) <==> -128 <= n <= 127
    ensures InRange(n, 8, false) <==> 0 <= n <= 255
    ensures InRange(n, 16, true) <==> -32768 <= n <= 32767
    ensures InRange(n, 16, false) <==> 0 <= n <= 65535
    ensures InRange(n, 32, true) <==> -2147483648 <= n <= 2147483647
    ensures InRange(n, 32, false) <==> 0 <= n <= 4294967295
    ensures Power2(8) == 256 && Power2(16) == 65536 && Power2(32) == 4294967296
  {
    PowerSpelled();
  }

  lemma PowerSpelled()
    ensures Power2(7) == 128 && Power2(8) == 256 && Power2(15) == 32768 && Power2(16) == 65536
    ensures Power2(31) == 2147483648 && Power2(32) == 4294967296
  {
    assert Power2(4) == 16;
    PowerAdds(4, 4);
    PowerAdds(8, 8);
    PowerAdds(16, 16);
    assert Power2(8) == 2 * Power2(7) && Power2(16) == 2 * Power2(15) && Power2(32) == 2 * Power2(31);
  }

  lemma {:induction false} PowerAdds(m: nat, n: nat)
    ensures Power2(m + n) == Power2(m) * Power2(n)
  {
    if n > 0 {
      PowerAdds(m, n - 1);
    }
  }

  lemma WrapInRange(n: int, bits: nat, signed: bool)
    requires bits > 0 && InRange(n, bits, signed)
    ensures Wrap(n, bits, signed) == n
  {
    PowerPositive(bits);
    PowerPositive(bits - 1);
    assert Power2(bits) == 2 * Power2(bits - 1);
    if n < 0 {
      assert (n + Power2(bits)) % Power2(bits) == n % Power2(bits) by { ModPlus(n, Power2(bits)); }
      assert n + Power2(bits) < Power2(bits);
      SmallMod(n + Power2(bits), Power2(bits));
    } else {
      SmallMod(n, Power2(bits));
    }
  }

  lemma ModPlus(n: int, m: nat)
    requires m > 0
    ensures (n + m) % m == n % m
  {
    var q, r := n / m, n % m;
    assert n + m == (q + 1) * m + r;
    QuotientUnique(n + m, m, q + 1, r);
  }

  lemma QuotientUnique(x: int, m: nat, q: int, r: int)
    requires m > 0 && x == q * m + r && 0 <= r < m
    ensures x % m == r
  {
    var d := x / m - q;
    assert d * m == r - x % m;
    assert d > 0 ==> d * m >= m;
    assert d < 0 ==> d * m <= 0 - m;
  }

  lemma SmallMod(n: nat, m: nat)
    requires n < m
    ensures n % m == n
  {
  }

  /** Reading a printed number gives it back: no leading zero makes it octal. */
  lemma ScanPrinted(n: int, signed: bool)
    requires signed || n >= 0
    ensures ScanNumber(IntText(n), signed) == Some(n)
  {
    var m := if n < 0 then -n else n;
    if m == 0 {
      ScanZero(signed);
    } else {
      var d, sign := Digits(m), if n < 0 then "-" else "";
      NoLeadingZero(m);
      ValueOfDigits(m);
      assert IntText(n) == sign + d && IntText(n)[|sign|..] == d && d[0] == IntText(n)[|sign|];
      ReadsDecimal(IntText(n), n < 0, signed);
    }
  }

  /** strncmp(value, "null", 4) == 0 or strncmp(value, "NULL", 4) == 0 */
  predicate IsNullText(t: string) {
    "null" <= t || "NULL" <= t
  }

  /** What _direct_update_value stores for a text. */
  function Parsed(typ: Type, was: Data, text: string): Data {
    match typ
    case JBOOL => Bool(text != "false")
    case JINT(bits, signed) =>
      var n := ScanNumber(text, signed);
      if n.None? || bits == 0 then was else Int(Wrap(n.value, bits, signed))
    case JSTRING(maxLen) => Text(Take(text, maxLen))
  }

  /** The number of a numeral with its sign. */
  function NumberAt(s: string, w: nat, base: nat, q: nat, e: nat): int
    requires w < |s| && q <= e <= |s|
  {
    if s[w] == '-' then 0 - ValueIn(s[q..e], base) else ValueIn(s[q..e], base)
  }

  /** A number as so many bits hold it: itself if they can. */
  predicate HeldIn(n: int, m: int, bits: nat, signed: bool)
    requires bits > 0
  {
    PowerPositive(bits);
    InRange(m, bits, signed) && (m - n) % Power2(bits) == 0 && (InRange(n, bits, signed) ==> m == n)
  }

  /**
   * What a text leaves in a property, type by type: only "false" is false; of a long string the first `maxLen`
   * characters; the number its numeral denotes, or what was there before if the numeral has no digits.
   */
  ghost predicate Stored(typ: Type, was: Data, text: string, now: Data) {
    match typ
    case JBOOL => now == if text == "false" then Bool(false) else Bool(true)
    case JSTRING(maxLen) => now == Text(if |text| <= maxLen then text else text[..maxLen])
    case JINT(bits, signed) => bits > 0 ==>
      forall w: nat, p: nat, base: nat, q: nat, e: nat :: IsNumeral(text, w, p, base, q, e, signed) ==>
        if q == e then now == was
        else now.Int? && HeldIn(NumberAt(text, w, base, q, e), now.n, bits, signed)
  }

  lemma ParsedIsStored(typ: Type, was: Data, text: string)
    ensures Stored(typ, was, text, Parsed(typ, was, text))
  {
    if typ.JINT? && typ.bits > 0 {
      hide IsNumeral, ScanNumber, HeldIn, ValueIn, Wrap;
      forall w: nat, p: nat, base: nat, q: nat, e: nat | IsNumeral(text, w, p, base, q, e, typ.signed) && q < e
        ensures w < |text| && q <= e <= |text|
        ensures ScanNumber(text, typ.signed) == Some(NumberAt(text, w, base, q, e))
        ensures var n := NumberAt(text, w, base, q, e);
                HeldIn(n, Wrap(n, typ.bits, typ.signed), typ.bits, typ.signed)
      {
        NumeralInside(text, w, p, base, q, e, typ.signed);
        NumberRead(text, w, p, base, q, e, typ.signed);
        WrapHolds(NumberAt(text, w, base, q, e), typ.bits, typ.signed);
      }
      forall w: nat, p: nat, base: nat, q: nat, e: nat | IsNumeral(text, w, p, base, q, e, typ.signed) && q == e
        ensures ScanNumber(text, typ.signed) == None
      {
        NumberRead(text, w, p, base, q, e, typ.signed);
      }
    }
  }

  lemma NumeralInside(s: string, w: nat, p: nat, base: nat, q: nat, e: nat, signed: bool)
    requires IsNumeral(s, w, p, base, q, e, signed)
    ensures w <= p <= q <= e <= |s|
  {
  }

  lemma WrapHolds(n: int, bits: nat, signed: bool)
    requires bits > 0
    ensures HeldIn(n, Wrap(n, bits, signed), bits, signed)
  {
    PowerPositive(bits);
    PowerPositive(bits - 1);
    var size, m := Power2(bits), Wrap(n, bits, signed);
    assert size == 2 * Power2(bits - 1);
    if InRange(n, bits, signed) {
      WrapInRange(n, bits, signed);
    }
    var k := if m == n % size then 0 - n / size else 0 - n / size - 1;
    assert m - n == k * size + 0;
    QuotientUnique(m - n, size, k, 0);
  }

  lemma NullTexts(t: string)
    ensures IsNullText(t) <==> |t| >= 4 && t[..4] in {"null", "NULL"}
  {
    assert |t| >= 4 ==> ("null" <= t <==> t[..4] == "null") && ("NULL" <= t <==> t[..4] == "NULL");
  }

  class DeviceProperty {
    const key: string
    const typ: Type
    var data: Data

    constructor (key: string, typ: Type, data: Data)
      ensures this.key == key && this.typ == typ && this.data == data
    {
      this.key, this.typ, this.data := key, typ, data;
    }

    /** update_value_if_key_match */
    method UpdateValueIfKeyMatch(doc: string) returns (ret: bool)
      requires J.KeyStays(key, 0, doc, 0)
      modifies this
      ensures var found := J.ValueOf(key, 0, doc, 0);
              && (ret <==> found.Some? && !IsNullText(found.value))
              && data == if ret then Parsed(typ, old(data), found.value) else old(data)
      ensures var found := J.ValueOf(key, 0, doc, 0);
              && (ret <==> found.Some? && !(|found.value| >= 4 && found.value[..4] in {"null", "NULL"}))
              && (ret ==> Stored(typ, old(data), found.value, data))
    {
      hide Stored, Parsed;
      var found := J.LiteJsonValueOf(key, doc);
      if found.Some? {
        ParsedIsStored(typ, data, found.value);
        NullTexts(found.value);
      }
      if found.None? || IsNullText(found.value) {
        return false;
      }
      data := Parsed(typ, data, found.value);
      ret := true;
    }
  }

  // ---- the round trip ----

  /** The data is of the property's type, or missing. */
  predicate Fits(typ: Type, d: Data) {
    match d
    case Null => true
    case Bool(_) => typ.JBOOL?
    case Int(n) => typ.JINT? && typ.bits > 0 && InRange(n, typ.bits, typ.signed)
    case Text(_) => typ.JSTRING?
  }

  /** A text the reader takes for a missing value, or no text at all. */
  predicate IsLost(d: Data) {
    d.Null? || (d.Text? && (d.s == "" || IsNullText(d.s)))
  }

  predicate GoodKeys(fs: seq<Field>) {
    && (forall i :: 0 <= i < |fs| ==> fs[i].key != "" && '.' !in fs[i].key)
    && (forall i, j :: 0 <= i < j < |fs| ==> fs[i].key != fs[j].key)
  }

  lemma {:induction false} FieldsOfMembers(fs: seq<Field>)
    ensures var vs := J.Fields(MembersOf(fs));
            && |vs| == |fs| && forall i :: 0 <= i < |fs| ==> vs[i] == V.Field(fs[i].key, ValueOfData(fs[i].data))
  {
    if fs != [] {
      FieldsOfMembers(fs[1..]);
    }
  }

  lemma {:induction false} FirstIsThis(vs: seq<V.Field>, i: nat)
    requires i < |vs| && forall j, k :: 0 <= j < k < |vs| ==> vs[j].key != vs[k].key
    ensures J.FirstField(vs, vs[i].key) == if V.Counts(vs[i]) then Some(i) else None
    decreases i
  {
    if i > 0 {
      assert vs[0].key != vs[i].key;
      FirstIsThis(vs[1..], i - 1);
    } else {
      NotAmong(vs[1..], vs[0].key);
    }
  }

  lemma {:induction false} NotAmong(vs: seq<V.Field>, name: string)
    requires forall k :: 0 <= k < |vs| ==> vs[k].key != name
    ensures J.FirstField(vs, name) == None
  {
    if vs != [] {
      NotAmong(vs[1..], name);
    }
  }

  /** "params" of the report is the object of the properties. */
  lemma ParamsFound(token: string, fs: seq<Field>)
    requires fs != [] && IsPlain(token) && PlainFields(fs) && BracesMatch(fs)
    ensures J.ValueOf("params", 0, ReportText(token, fs, false), 0) == Some(T.Text(Params(fs)))
  {
    TreeWellFormed(token, fs);
    ReportIsTree(token, fs);
    hide T.Text, J.ValueOf, ReportText, J.IsDocument, MembersOf, J.Fields;
    hide J.FirstField, T.Seen, Params, PlainFields, BracesMatch;
    var root := ReportTree(token, fs);
    J.DocumentIsListing("", root, "");
    J.PlainKeyExact("params", "", root, "");
    assert "" + T.Text(root) + "" == T.Text(root);
    RootFields(token, fs);
  }

  lemma RootFields(token: string, fs: seq<Field>)
    ensures var root := ReportTree(token, fs);
            && root.Block? && J.FirstField(J.Fields(root.members), "params") == Some(1)
            && |J.Fields(root.members)| == 2 && J.Fields(root.members)[1].val == Params(fs)
  {
    hide MembersOf;
    var vs := [V.Field("clientToken", T.Str(token)), V.Field("params", Params(fs))];
    var p := T.Cons(" ", "params", "", "", Params(fs), "", T.Nil);
    assert J.Fields(p) == [vs[1]] + J.Fields(T.Nil) == [vs[1]];
    assert J.Fields(ReportTree(token, fs).members) == [vs[0]] + [vs[1]] == vs;
    ParamsSeen(fs);
    FirstIsThis(vs, 1);
  }

  lemma ParamsSeen(fs: seq<Field>)
    ensures T.Seen(Params(fs)) != ""
  {
  }

  /** Looking a property up in the object of the properties gives its printed value. */
  lemma PropertyFound(fs: seq<Field>, i: nat)
    requires i < |fs| && PlainFields(fs) && GoodKeys(fs)
    ensures J.ValueOf(fs[i].key, 0, T.Text(Params(fs)), 0) ==
            var seen := T.Seen(ValueOfData(fs[i].data)); if seen == "" then None else Some(seen)
  {
    ParamsWellFormed(fs);
    hide T.Text, J.ValueOf, T.WellFormed, T.WellFormedMembers, ValueOfData;
    hide J.IsListing, J.Fields, J.FirstField, MembersOf;
    hide T.Seen, PlainFields;
    PropertyField(fs, i);
    hide GoodKeys, Params;
    J.DocumentIsListing("", Params(fs), "");
    J.PlainKeyExact(fs[i].key, "", Params(fs), "");
    assert "" + T.Text(Params(fs)) + "" == T.Text(Params(fs));
  }

  lemma PropertyField(fs: seq<Field>, i: nat)
    requires i < |fs| && GoodKeys(fs)
    ensures Params(fs).Block? && '.' !in fs[i].key
    ensures var vs := J.Fields(Params(fs).members);
            var seen := T.Seen(ValueOfData(fs[i].data));
            && i < |vs| && vs[i].val == ValueOfData(fs[i].data)
            && J.FirstField(vs, fs[i].key) == if seen == "" then None else Some(i)
  {
    hide T.Seen, ValueOfData, J.Fields, J.FirstField, MembersOf;
    FieldsOfMembers(fs);
    FirstIsThis(J.Fields(MembersOf(fs)), i);
  }

  /** The reader undoes the printer on one value. */
  lemma ValueRestored(d: Data, typ: Type, was: Data)
    requires Fits(typ, d)
    ensures var seen := T.Seen(ValueOfData(d));
            && (IsLost(d) <==> seen == "" || IsNullText(seen))
            && (!IsLost(d) ==> (Parsed(typ, was, seen) == d <==> (d.Text? ==> |d.s| <= typ.maxLen)))
  {
    assert "null"[0] == 'n' && "NULL"[0] == 'N' && "true"[0] == 't' && "false"[0] == 'f';
    match d
    case Null =>
    case Bool(b) =>
    case Text(s) =>
    case Int(n) =>
      ScanPrinted(n, typ.signed);
      WrapInRange(n, typ.bits, typ.signed);
      var x := Digits(if n < 0 then -n else n);
      assert IsDigit(x[0]);
      assert IntText(n)[0] == '-' || IsDigit(IntText(n)[0]);
  }

  /**
   * Building a report, taking "params" out of it and updating a property from there restores the value,
   * exactly when it is not missing, not an empty or null-like string, and no longer than the reader's buffer.
   */
  lemma ReportRestores(token: string, fs: seq<Field>, i: nat, typ: Type, was: Data)
    requires i < |fs| && IsPlain(token) && PlainFields(fs) && BracesMatch(fs) && GoodKeys(fs) && Fits(typ, fs[i].data)
    ensures var params := J.ValueOf("params", 0, ReportText(token, fs, false), 0);
            && params.Some?
            && var found := J.ValueOf(fs[i].key, 0, params.value, 0);
               var d := fs[i].data;
               && (found.Some? && !IsNullText(found.value) <==> !IsLost(d))
               && (!IsLost(d) ==> (Parsed(typ, was, found.value) == d <==> (d.Text? ==> |d.s| <= typ.maxLen)))
  {
    hide T.Text, T.Seen, ValueOfData, ReportText, J.ValueOf, Parsed, IsNullText, IsLost, BracesMatch;
    ParamsFound(token, fs);
    PropertyFound(fs, i);
    ValueRestored(fs[i].data, typ, was);
  }

  // ---- the escaped report ----

  /** What the stripping leaves of a property. */
  function BaredField(f: Field): Field {
    Field(Bared(f.key), if f.data.Text? then Text(Bared(f.data.s)) else f.data)
  }

  function BaredFields(fs: seq<Field>): (gs: seq<Field>)
    ensures |gs| == |fs| && forall i :: 0 <= i < |fs| ==> gs[i] == BaredField(fs[i])
  {
    if fs == [] then [] else BaredFields(fs[..|fs| - 1]) + [BaredField(fs[|fs| - 1])]
  }

  lemma NodeUnescapes(f: Field)
    ensures Unescapes(NodeText(f, true), NodeText(BaredField(f), false), '\\')
  {
    DataUnescapes(f.data);
    BaredQuoted(f.key);
    UnescapesPlain(":", '\\');
    hide Unescapes, DataText, Bared;
    var g := BaredField(f);
    UnescapesConcat(Quoted(f.key, true), Quoted(g.key, false), ":", ":", '\\');
    UnescapesConcat(KeyText(f.key, true), KeyText(g.key, false), DataText(f.data, true), DataText(g.data, false), '\\');
  }

  lemma DataUnescapes(d: Data)
    ensures Unescapes(DataText(d, true), DataText(if d.Text? then Text(Bared(d.s)) else d, false), '\\')
  {
    hide Unescapes, Bared;
    match d
    case Null => UnescapesPlain("null", '\\');
    case Bool(b) => UnescapesPlain(if b then "true" else "false", '\\');
    case Int(n) =>
      var x := Digits(if n < 0 then -n else n);
      assert forall k :: 0 <= k < |x| ==> IsDigit(x[k]);
      UnescapesPlain(IntText(n), '\\');
    case Text(s) => BaredQuoted(s);
  }

  lemma CommaUnescapes()
    ensures Unescapes(Comma(true), Comma(false), '\\')
  {
    UnescapesMarked(',', '\\');
    assert ['\\', ','] == Comma(true) && [','] == Comma(false);
  }

  lemma {:induction false} NodesUnescape(fs: seq<Field>)
    ensures Unescapes(NodesText(fs, true), NodesText(BaredFields(fs), false), '\\')
  {
    if fs != [] {
      hide Unescapes, NodeText, Comma, BaredField;
      var n := |fs| - 1;
      var gs := BaredFields(fs);
      assert gs[..n] == BaredFields(fs[..n]);
      NodesUnescape(fs[..n]);
      NodeUnescapes(fs[n]);
      CommaUnescapes();
      var a, x := NodesText(fs[..n], true), NodesText(gs[..n], false);
      var b, y := NodeText(fs[n], true), NodeText(gs[n], false);
      UnescapesConcat(a, x, b, y, '\\');
      UnescapesConcat(a + b, x + y, Comma(true), Comma(false), '\\');
    }
  }

  /** chr_strip turns the escaped report into the plain one, of the properties less their own marks. */
  lemma EscapedReport(token: string, fs: seq<Field>)
    requires fs != []
    ensures Strip(ReportText(token, fs, true), '\\') == ReportText(Bared(token), BaredFields(fs), false)
  {
    hide Unescapes, NodeText, ReportHead, NodesText, Bared, BaredField;
    var n := |fs| - 1;
    var gs := BaredFields(fs);
    assert gs[..n] == BaredFields(fs[..n]);
    NodesUnescape(fs[..n]);
    NodeUnescapes(fs[n]);
    HeadUnescapes(token);
    UnescapesPlain("}}", '\\');
    var a, x := NodesText(fs[..n], true), NodesText(gs[..n], false);
    var b, y := NodeText(fs[n], true), NodeText(gs[n], false);
    var h1, h0 := ReportHead(token, true), ReportHead(Bared(token), false);
    UnescapesConcat(a, x, b, y, '\\');
    UnescapesConcat(h1, h0, a + b, x + y, '\\');
    UnescapesConcat(h1 + (a + b), h0 + (x + y), "}}", "}}", '\\');
    StripOf(ReportText(token, fs, true), ReportText(Bared(token), gs, false));
  }

  lemma StripOf(e: string, t: string)
    requires Unescapes(e, t, '\\')
    ensures Strip(e, '\\') == t
  {
  }

  lemma HeadUnescapes(token: string)
    ensures Unescapes(ReportHead(token, true), ReportHead(Bared(token), false), '\\')
  {
    hide Unescapes, Bared;
    UnescapesQuoted("clientToken");
    BaredQuoted(token);
    UnescapesQuoted("params");
    CommaUnescapes();
    UnescapesPlain("{", '\\');
    UnescapesPlain(":", '\\');
    UnescapesPlain(" ", '\\');
    UnescapesPlain(":{", '\\');
    hide Comma, Quoted;
    var c1, c0 := Quoted("clientToken", true), Quoted("clientToken", false);
    var t1, t0 := Quoted(token, true), Quoted(Bared(token), false);
    var p1, p0 := Quoted("params", true), Quoted("params", false);
    UnescapesConcat("{", "{", c1, c0, '\\');
    UnescapesConcat("{" + c1, "{" + c0, ":", ":", '\\');
    UnescapesConcat("{" + c1 + ":", "{" + c0 + ":", t1, t0, '\\');
    var o1, o0 := OpenDoc(token, true), OpenDoc(Bared(token), false);
    UnescapesConcat(o1, o0, Comma(true), Comma(false), '\\');
    UnescapesConcat(o1 + Comma(true), o0 + Comma(false), " ", " ", '\\');
    UnescapesConcat(o1 + Comma(true) + " ", o0 + Comma(false) + " ", p1, p0, '\\');
    UnescapesConcat(o1 + Comma(true) + " " + p1, o0 + Comma(false) + " " + p0, ":{", ":{", '\\');
  }
}
