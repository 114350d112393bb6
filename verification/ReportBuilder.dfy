/**
 * Printing a report into a buffer: put_json_node and build_empty_json of
 * src/data_template/data_template_client_json.c, IOT_Template_JSON_ConstructReportArray of
 * src/data_template/data_template_client.c. `escaped` is the build with QUOTES_TRANSFER_NEED and
 * COMMA_TRANSFER_NEED.
 */
module ReportBuilder {
  import opened CStrings
  import opened Decimal
  import opened Tokens

  datatype Code = SUCCESS | INVAL | BUFFER_TOO_SMALL | BUFFER_TRUNCATED

  datatype Type = JBOOL | JINT(bits: nat, signed: bool) | JSTRING(maxLen: nat)

  /** What a property's data pointer leads to. */
  datatype Data = Null | Bool(b: bool) | Int(n: int) | Text(s: string)

  /** A property as it is printed. */
  datatype Field = Field(key: string, data: Data)

  // ---- the texts ----

  function Quote(escaped: bool): string {
    if escaped then "\\\"" else "\""
  }

  function Comma(escaped: bool): string {
    if escaped then "\\," else ","
  }

  function Quoted(x: string, escaped: bool): string {
    Quote(escaped) + x + Quote(escaped)
  }

  function IntText(n: int): string {
    if n < 0 then "-" + Digits(-n) else Digits(n)
  }

  /** No minus before zero. */
  lemma IntSpelled(n: int)
    ensures n >= 0 ==> IntText(n) == Digits(n) && IntText(n)[0] != '-'
    ensures n < 0 ==> IntText(n) == "-" + Digits(0 - n)
  {
    assert n >= 0 ==> IsDigit(Digits(n)[0]);
  }

  function DataText(d: Data, escaped: bool): string {
    match d
    case Null => "null"
    case Bool(b) => if b then "true" else "false"
    case Int(n) => IntText(n)
    case Text(s) => Quoted(s, escaped)
  }

  function KeyText(key: string, escaped: bool): string {
    Quoted(key, escaped) + ":"
  }

  function NodeText(f: Field, escaped: bool): string {
    KeyText(f.key, escaped) + DataText(f.data, escaped)
  }

  /** The printed nodes, a comma after each. */
  function NodesText(fs: seq<Field>, escaped: bool): string {
    if fs == [] then "" else NodesText(fs[..|fs| - 1], escaped) + NodeText(fs[|fs| - 1], escaped) + Comma(escaped)
  }

  /** The nodes with commas between them. */
  function JoinedNodes(fs: seq<Field>, escaped: bool): string
    requires fs != []
  {
    NodesText(fs[..|fs| - 1], escaped) + NodeText(fs[|fs| - 1], escaped)
  }

  /** The document with the token only, without its closing brace. */
  function OpenDoc(token: string, escaped: bool): string {
    "{" + Quoted("clientToken", escaped) + ":" + Quoted(token, escaped)
  }

  function ReportHead(token: string, escaped: bool): string {
    OpenDoc(token, escaped) + Comma(escaped) + " " + Quoted("params", escaped) + ":{"
  }

  function ReportText(token: string, fs: seq<Field>, escaped: bool): string
    requires fs != []
  {
    ReportHead(token, escaped) + JoinedNodes(fs, escaped) + "}}"
  }

  // ---- printing ----

  function Take(x: string, n: nat): string {
    if n < |x| then x[..n] else x
  }

  /** snprintf(b + at, size, ...): the text is cut to fit the size, its whole length is returned. */
  method Snprintf(b: array<char>, at: nat, size: nat, x: string, ghost kept: string) returns (n: nat)
    requires |kept| == at && at < b.Length && b[..at] == kept && NUL !in kept && NUL !in x
    requires 0 < size && at + |Take(x, size - 1)| < b.Length
    modifies b
    ensures n == |x| && HoldsText(b[..], kept + Take(x, size - 1))
  {
    var m := if |x| < size then |x| else size - 1;
    assert Take(x, size - 1) == x[..m];
    for k := 0 to m
      invariant b[..at + k] == kept + x[..k]
    {
      b[at + k] := x[k];
    }
    b[at + m] := NUL;
    assert b[..at + m] == kept + x[..m];
    n := |x|;
  }

  /** check_snprintf_return */
  function CheckSnprintf(n: nat, size: nat): Code {
    if n >= size then BUFFER_TRUNCATED else SUCCESS
  }

  predicate Printable(f: Field) {
    NUL !in f.key && (f.data.Text? ==> NUL !in f.data.s)
  }

  lemma PrintsNoNul(f: Field, escaped: bool)
    requires Printable(f)
    ensures NUL !in KeyText(f.key, escaped) && NUL !in DataText(f.data, escaped) + Comma(escaped)
  {
    if f.data.Int? {
      var n := if f.data.n < 0 then -f.data.n else f.data.n;
      assert forall k :: 0 <= k < |Digits(n)| ==> IsDigit(Digits(n)[k]);
    }
  }

  lemma HoldsKept(b: seq<char>, doc: string, n: nat)
    requires HoldsText(b, doc) && n <= |doc|
    ensures n < |b| && b[..n] == doc[..n] && NUL !in doc[..n] && doc[..|doc|] == doc
  {
    assert b[..n] == b[..|doc|][..n];
  }

  /** A node and its comma as the two prints put them down. */
  lemma NodeSpelled(doc: string, f: Field, escaped: bool)
    ensures var key, value := KeyText(f.key, escaped), DataText(f.data, escaped) + Comma(escaped);
            && |key| >= 3 && |value| >= 2 && |NodeText(f, escaped)| + |Comma(escaped)| == |key| + |value|
            && doc + NodeText(f, escaped) + Comma(escaped) == doc + key + value
  {
    ConcatAssoc(KeyText(f.key, escaped), DataText(f.data, escaped), Comma(escaped));
  }

  /**
   * put_json_node; `doc` is the text before and `b` the memory from the buffer on. When the text is already
   * longer than the size, the difference wraps and nothing bounds the print.
   */
  method PutJsonNode(b: array<char>, size: nat, f: Field, escaped: bool, ghost doc: string) returns (rc: Code)
    requires HoldsText(b[..], doc) && size < SIZE_SPACE && Printable(f)
    requires |doc| + |NodeText(f, escaped)| + |Comma(escaped)| < SIZE_SPACE
    requires |doc| <= size <= b.Length || |doc| + |NodeText(f, escaped)| + |Comma(escaped)| < b.Length
    modifies b
    ensures rc == SUCCESS <==> size < |doc| || |doc| + |NodeText(f, escaped)| + |Comma(escaped)| < size
    ensures rc == SUCCESS ==> HoldsText(b[..], doc + NodeText(f, escaped) + Comma(escaped))
    ensures rc in {SUCCESS, BUFFER_TOO_SMALL, BUFFER_TRUNCATED}
  {
    ghost var key, value := KeyText(f.key, escaped), DataText(f.data, escaped) + Comma(escaped);
    hide DataText, KeyText, NodeText, Comma, HoldsText, StrChr;
    NodeSpelled(doc, f, escaped);
    PrintsNoNul(f, escaped);
    HeldText(b[..], doc);
    HoldsKept(b[..], doc, |doc|);
    var at := StrChr(b[..], 0, NUL);
    var remain := Remain(size, at);
    if remain <= 1 {
      return BUFFER_TOO_SMALL;
    }
    var n := Snprintf(b, at, remain, KeyText(f.key, escaped), doc);
    rc := CheckSnprintf(n, remain);
    if rc != SUCCESS {
      return;
    }
    HeldText(b[..], doc + key);
    HoldsKept(b[..], doc + key, |doc + key|);
    at := StrChr(b[..], 0, NUL);
    remain := Remain(size, at);
    if remain <= 1 {
      return BUFFER_TOO_SMALL;
    }
    n := Snprintf(b, at, remain, DataText(f.data, escaped) + Comma(escaped), doc + key);
    rc := CheckSnprintf(n, remain);
  }

  const MAX_SIZE_OF_JSON_WITH_CLIENT_TOKEN: nat := 110

  /** build_empty_json: the token document, whatever the size of the buffer, and the counter moves on. */
  method BuildEmptyJson(productId: string, tokenNumber: nat, b: array<char>, escaped: bool) returns (next: nat)
    requires |productId| <= MAX_SIZE_OF_PRODUCT_ID && NUL !in productId
    requires |OpenDoc(Token(productId, tokenNumber), escaped)| + 1 < b.Length
    modifies b
    ensures next == tokenNumber + 1
    ensures HoldsText(b[..], OpenDoc(Token(productId, tokenNumber), escaped) + "}")
  {
    TokenFits(productId, tokenNumber);
    TokenNoNul(productId, tokenNumber);
    var text := OpenDoc(Token(productId, tokenNumber), escaped) + "}";
    OpenDocLength(Token(productId, tokenNumber), escaped);
    hide OpenDoc, Token;
    var n := Snprintf(b, 0, MAX_SIZE_OF_JSON_WITH_CLIENT_TOKEN, text, "");
    assert "" + text == text;
    next := tokenNumber + 1;
  }

  lemma TokenNoNul(productId: string, n: nat)
    requires NUL !in productId
    ensures NUL !in Token(productId, n)
  {
    var d := Digits(n % TOKEN_SPACE);
    assert forall k :: 0 <= k < |d| ==> IsDigit(d[k]);
  }

  lemma OpenDocLength(token: string, escaped: bool)
    requires NUL !in token
    ensures |OpenDoc(token, escaped)| == |token| + (if escaped then 21 else 17)
    ensures NUL !in OpenDoc(token, escaped)
    ensures |ReportHead(token, escaped)| == |OpenDoc(token, escaped)| + (if escaped then 15 else 12)
    ensures NUL !in ReportHead(token, escaped)
  {
  }

  /** An array of property pointers; `None` is a null pointer. */
  type Nodes = seq<Option<Field>>

  predicate AllThere(props: Nodes) {
    forall i :: 0 <= i < |props| ==> props[i].Some?
  }

  /** The document with its nodes, as the loop leaves it. */
  function NodesDoc(token: string, fs: seq<Field>, escaped: bool): string {
    ReportHead(token, escaped) + NodesText(fs, escaped)
  }

  lemma {:induction false} NodesGrow(token: string, fs: seq<Field>, k: nat, escaped: bool)
    requires k <= |fs|
    ensures |NodesDoc(token, fs[..k], escaped)| <= |NodesDoc(token, fs, escaped)|
    decreases |fs|
  {
    if k < |fs| {
      NodesGrow(token, fs[..|fs| - 1], k, escaped);
      assert fs[..|fs| - 1][..k] == fs[..k];
    } else {
      assert fs[..k] == fs;
    }
  }

  lemma NodesSnoc(token: string, fs: seq<Field>, f: Field, escaped: bool)
    ensures NodesDoc(token, fs + [f], escaped) == NodesDoc(token, fs, escaped) + NodeText(f, escaped) + Comma(escaped)
  {
    hide NodeText, Comma, ReportHead;
    assert (fs + [f])[..|fs|] == fs;
    var h, a, b, c := ReportHead(token, escaped), NodesText(fs, escaped), NodeText(f, escaped), Comma(escaped);
    assert h + (a + b + c) == h + a + b + c;
  }

  /** The properties before the first null pointer. */
  function Before(props: Nodes): (fs: seq<Field>)
    ensures |fs| <= |props| && forall i :: 0 <= i < |fs| ==> props[i] == Some(fs[i])
    ensures |fs| < |props| ==> props[|fs|].None?
  {
    if props == [] || props[0].None? then [] else [props[0].value] + Before(props[1..])
  }

  /**
   * The node loop of the report builder; `size` is what it passes on as the buffer size. It bounds the loop
   * exactly when the head is not already longer.
   */
  method PutNodes(b: array<char>, size: nat, props: Nodes, escaped: bool, ghost token: string) returns (rc: Code)
    requires HoldsText(b[..], ReportHead(token, escaped)) && size < SIZE_SPACE
    requires |NodesDoc(token, Before(props), escaped)| < SIZE_SPACE
    requires |ReportHead(token, escaped)| <= size <= b.Length || |NodesDoc(token, Before(props), escaped)| < b.Length
    requires forall i :: 0 <= i < |props| && props[i].Some? ==> Printable(props[i].value)
    modifies b
    ensures rc == SUCCESS <==>
            AllThere(props) && (props == [] || size < |ReportHead(token, escaped)| ||
                |NodesDoc(token, Before(props), escaped)| < size)
    ensures rc == SUCCESS ==> HoldsText(b[..], NodesDoc(token, Before(props), escaped))
  {
    hide NodeText, Comma, ReportHead, NodesText, HoldsText, Printable;
    rc := SUCCESS;
    ghost var all := Before(props);
    ghost var head := |ReportHead(token, escaped)|;
    NoNodes(token, escaped);
    assert all[..0] == [];
    HeadFirst(token, all, escaped);
    for i := 0 to |props|
      invariant i <= |all| && rc == SUCCESS
      invariant HoldsText(b[..], NodesDoc(token, all[..i], escaped)) && head <= |NodesDoc(token, all[..i], escaped)|
      invariant head <= size ==>
                |NodesDoc(token, all[..i], escaped)| <= size && (i > 0 ==> |NodesDoc(token, all[..i], escaped)| < size)
    {
      if props[i].None? {
        return INVAL;
      }
      var f := props[i].value;
      assert f == all[i] && all[..i + 1] == all[..i] + [f];
      NodesSnoc(token, all[..i], f, escaped);
      NodesGrow(token, all, i + 1, escaped);
      rc := PutJsonNode(b, size, f, escaped, NodesDoc(token, all[..i], escaped));
      if rc != SUCCESS {
        return;
      }
    }
    assert all[..|props|] == all;
  }

  lemma HeadFirst(token: string, fs: seq<Field>, escaped: bool)
    ensures |ReportHead(token, escaped)| <= |NodesDoc(token, fs, escaped)|
  {
  }

  lemma NoNodes(token: string, escaped: bool)
    ensures NodesDoc(token, [], escaped) == ReportHead(token, escaped)
  {
  }

  // ---- what the sizes must be ----

  /** strlen of the token document with its brace. */
  function OpenLen(token: string, escaped: bool): nat {
    |OpenDoc(token, escaped)| + 1
  }

  /** The size bounds every print: the head is refused, or the room passed on is no less than the printed head. */
  predicate Bounded(size: nat, token: string, escaped: bool) {
    var d := OpenLen(token, escaped);
    d <= size && (size <= d + |HeadTail(escaped)| || d + |ReportHead(token, escaped)| <= size)
  }

  /** The builder reports success for these properties. */
  predicate Accepted(size: nat, token: string, fs: seq<Field>, escaped: bool) {
    var d, n := OpenLen(token, escaped), |NodesDoc(token, fs, escaped)|;
    if size < d then true
    else if d + |ReportHead(token, escaped)| <= size then fs == [] || n + d < size
    else d + |HeadTail(escaped)| < size && !(n <= size <= n + 2)
  }

  /** The finished report: the last comma overwritten, or the brace and colon of an empty head. */
  function Closed(token: string, fs: seq<Field>, escaped: bool): string {
    HeadLong(token, fs, escaped);
    var doc := NodesDoc(token, fs, escaped);
    doc[..|doc| - |Comma(escaped)|] + "}}"
  }

  lemma HeadLong(token: string, fs: seq<Field>, escaped: bool)
    ensures |NodesDoc(token, fs, escaped)| > |Comma(escaped)| && |Comma(escaped)| in {1, 2}
  {
  }

  lemma ClosedIsReport(token: string, fs: seq<Field>, escaped: bool)
    requires fs != []
    ensures Closed(token, fs, escaped) == ReportText(token, fs, escaped)
  {
  }

  /** An accepted report and its NUL do not fit the size exactly when the size bounds nothing and is below the nodes. */
  lemma AcceptedOverruns(size: nat, token: string, fs: seq<Field>, escaped: bool)
    requires Accepted(size, token, fs, escaped)
    ensures size <= |Closed(token, fs, escaped)| <==>
            !Bounded(size, token, escaped) && size < |NodesDoc(token, fs, escaped)|
  {
    HeadFirst(token, fs, escaped);
    HeadLong(token, fs, escaped);
    HeadSpelled(token, escaped);
    NoNodes(token, escaped);
    OpenLong(token, escaped);
    hide OpenDoc, NodesDoc, ReportHead, HeadTail, Comma, OpenLen;
  }

  lemma OpenLong(token: string, escaped: bool)
    ensures OpenLen(token, escaped) == |OpenDoc(token, escaped)| + 1 && OpenLen(token, escaped) > 2
  {
  }

  /**
   * A report that would fit is refused exactly when it leaves less room than the token document takes, or
   * next to none.
   */
  lemma RefusedThoughFits(size: nat, token: string, fs: seq<Field>, escaped: bool)
    requires fs != [] && |Closed(token, fs, escaped)| < size
    ensures !Accepted(size, token, fs, escaped) <==>
            var d, n := OpenLen(token, escaped), |NodesDoc(token, fs, escaped)|;
            (Bounded(size, token, escaped) && size <= n + d) || (!Bounded(size, token, escaped) && size <= n + 2)
  {
    HeadFirst(token, fs, escaped);
    HeadLong(token, fs, escaped);
    HeadSpelled(token, escaped);
    NodeAdds(token, fs, escaped);
    hide OpenDoc, NodesDoc, ReportHead, HeadTail, Comma;
  }

  lemma NodeAdds(token: string, fs: seq<Field>, escaped: bool)
    requires fs != []
    ensures |ReportHead(token, escaped)| + |Comma(escaped)| < |NodesDoc(token, fs, escaped)|
  {
  }

  /** A size of 60, a product id of ten characters, the escaped build: one property is enough to run past the size. */
  lemma OverrunWitness(fs: seq<Field>)
    requires fs != [] && 60 < |NodesDoc(Token("ABCDEFGHIJ", 0), fs, true)|
    ensures Accepted(60, Token("ABCDEFGHIJ", 0), fs, true) && 60 <= |Closed(Token("ABCDEFGHIJ", 0), fs, true)|
  {
    var token := Token("ABCDEFGHIJ", 0);
    assert Digits(0) == "0" && |token| == 12;
    OpenDocLength(token, true) by {
      assert NUL !in token;
    }
    HeadSpelled(token, true);
    hide OpenDoc, NodesDoc, ReportHead, HeadTail, Token;
    assert Accepted(60, token, fs, true);
    AcceptedOverruns(60, token, fs, true);
  }

  /** A report of 48 characters is refused in a buffer of 75. */
  lemma RefusalWitness()
    ensures var token, fs := Token("ABCDEFGHIJ", 0), [Field("a", Int(1))];
            |Closed(token, fs, false)| == 48 && !Accepted(75, token, fs, false)
  {
    var token, fs := Token("ABCDEFGHIJ", 0), [Field("a", Int(1))];
    assert Digits(0) == "0" && |token| == 12 && Digits(1) == "1";
    OpenDocLength(token, false) by {
      assert NUL !in token;
    }
    assert NodeText(fs[0], false) == "\"a\":1";
    NoNodes(token, false);
    NodesSnoc(token, [], fs[0], false);
    assert [] + [fs[0]] == fs;
    HeadSpelled(token, false);
    hide OpenDoc, ReportHead, HeadTail, Token, NodeText, NodesDoc;
  }

  // ---- the builder ----

  /**
   * IOT_Template_JSON_ConstructReportArray, for every size. It passes the room behind the token document as if
   * it were the size of the whole buffer: so it asks for room for both, and between two sizes for none.
   */
  method ConstructReportArray(b: array<char>, size: nat, productId: string, tokenNumber: nat, props: Nodes,
                              escaped: bool)
    returns (rc: Code, next: nat)
    requires |productId| <= MAX_SIZE_OF_PRODUCT_ID && NUL !in productId && |props| <= 127
    requires forall i :: 0 <= i < |props| && props[i].Some? ==> Printable(props[i].value)
    requires var token := Token(productId, tokenNumber);
             var n := |NodesDoc(token, Before(props), escaped)|;
             && size < SIZE_SPACE && n + OpenLen(token, escaped) < SIZE_SPACE && OpenLen(token, escaped) < b.Length
             && if Bounded(size, token, escaped) then size <= b.Length else n + 1 < b.Length
    modifies b
    ensures next == tokenNumber + 1
    ensures var token := Token(productId, tokenNumber);
            && (rc == SUCCESS ==> HoldsText(b[..], Closed(token, Before(props), escaped)))
            && (AllThere(props) ==> (rc == SUCCESS <==> Accepted(size, token, Before(props), escaped)))
            && (!AllThere(props) ==> rc != SUCCESS)
  {
    ghost var token := Token(productId, tokenNumber);
    ghost var fs := Before(props);
    HeadFirst(token, fs, escaped);
    HeadLong(token, fs, escaped);
    HeadSpelled(token, escaped);
    NoNodes(token, escaped);
    OpenLong(token, escaped);
    hide OpenDoc, ReportHead, Token, NodesDoc, HoldsText, Closed, HeadTail, Comma, OpenLen;
    var remain: nat;
    rc, remain, next := OpenReport(b, size, productId, tokenNumber, escaped);
    if rc != SUCCESS {
      return;
    }
    rc := PutNodes(b, remain, props, escaped, token);
    if rc != SUCCESS {
      return;
    }
    rc := CloseReport(b, size, escaped, token, fs);
  }

  /** The start of the report: the token document, its brace overwritten by the head of "params". */
  method OpenReport(b: array<char>, size: nat, productId: string, tokenNumber: nat, escaped: bool)
    returns (rc: Code, remain: nat, next: nat)
    requires |productId| <= MAX_SIZE_OF_PRODUCT_ID && NUL !in productId
    requires var token := Token(productId, tokenNumber);
             && size < SIZE_SPACE && OpenLen(token, escaped) < b.Length
             && if Bounded(size, token, escaped) then size <= b.Length else |ReportHead(token, escaped)| < b.Length
    modifies b
    ensures next == tokenNumber + 1
    ensures var token := Token(productId, tokenNumber);
            && OpenLen(token, escaped) < SIZE_SPACE && remain == Remain(size, OpenLen(token, escaped))
            && (rc == SUCCESS <==> |HeadTail(escaped)| < remain)
            && (rc == SUCCESS ==> HoldsText(b[..], ReportHead(token, escaped)))
  {
    ghost var token := Token(productId, tokenNumber);
    next := BuildEmptyJson(productId, tokenNumber, b, escaped);
    TokenFits(productId, tokenNumber);
    TokenNoNul(productId, tokenNumber);
    OpenDocLength(token, escaped);
    ghost var open := OpenDoc(token, escaped);
    HeadSpelled(token, escaped);
    hide OpenDoc, ReportHead, Token, HoldsText, HeadTail;
    HeldText(b[..], open + "}");
    HoldsKept(b[..], open + "}", |open|);
    assert (open + "}")[..|open|] == open;
    var at := StrChr(b[..], 0, NUL);
    remain := Remain(size, at);
    if remain <= 1 {
      return BUFFER_TOO_SMALL, remain, next;
    }
    var n := Snprintf(b, at - 1, remain, HeadTail(escaped), open);
    rc := CheckSnprintf(n, remain);
  }

  /** The end of the report: the last comma is overwritten. */
  method CloseReport(b: array<char>, size: nat, escaped: bool, ghost token: string, ghost fs: seq<Field>)
    returns (rc: Code)
    requires HoldsText(b[..], NodesDoc(token, fs, escaped)) && size < SIZE_SPACE
    requires |NodesDoc(token, fs, escaped)| + 1 < b.Length && |NodesDoc(token, fs, escaped)| + 2 < SIZE_SPACE
    modifies b
    ensures var n := |NodesDoc(token, fs, escaped)|; rc == SUCCESS <==> !(n <= size <= n + 2)
    ensures rc == SUCCESS ==> HoldsText(b[..], Closed(token, fs, escaped))
  {
    ghost var doc := NodesDoc(token, fs, escaped);
    HeadLong(token, fs, escaped);
    hide NodesDoc, HoldsText;
    HeldText(b[..], doc);
    var at := StrChr(b[..], 0, NUL);
    var remain := Remain(size, at);
    if remain <= 1 {
      return BUFFER_TOO_SMALL;
    }
    var cut := at - |Comma(escaped)|;
    HoldsKept(b[..], doc, cut);
    var n := Snprintf(b, cut, remain, "}}", doc[..cut]);
    rc := CheckSnprintf(n, remain);
  }

  /** What the second print adds behind the token document. */
  function HeadTail(escaped: bool): string {
    Comma(escaped) + " " + Quoted("params", escaped) + ":{"
  }

  /** A report of one number in both builds, letter by letter. */
  lemma ReportSpelled(token: string, key: string, n: int)
    ensures ReportText(token, [Field(key, Int(n))], false) ==
            "{\"clientToken\":\"" + token + "\", \"params\":{" + ("\"" + key + "\":" + IntText(n)) + "}}"
    ensures ReportText(token, [Field(key, Int(n))], true) ==
            "{\\\"clientToken\\\":\\\"" + token + "\\\"\\, \\\"params\\\":{" +
            ("\\\"" + key + "\\\":" + IntText(n)) + "}}"
  {
    var f := Field(key, Int(n));
    OneNode(f, false);
    OneNode(f, true);
    PlainHead(token);
    EscapedHead(token);
    NodeInLetters(key, n);
    hide JoinedNodes, ReportHead, NodeText, IntText;
  }

  lemma OneNode(f: Field, escaped: bool)
    ensures JoinedNodes([f], escaped) == NodeText(f, escaped)
  {
    assert [f][..0] == [] && NodesText([], escaped) == "";
    hide NodeText;
    assert "" + NodeText(f, escaped) == NodeText(f, escaped);
  }

  lemma NodeInLetters(key: string, n: int)
    ensures NodeText(Field(key, Int(n)), false) == "\"" + key + "\":" + IntText(n)
    ensures NodeText(Field(key, Int(n)), true) == "\\\"" + key + "\\\":" + IntText(n)
  {
    hide IntText;
    assert "\"" + ":" == "\":" && "\\\"" + ":" == "\\\":";
  }

  lemma PlainHead(token: string)
    ensures ReportHead(token, false) == "{\"clientToken\":\"" + token + "\", \"params\":{"
  {
    assert "{" + Quoted("clientToken", false) + ":" + "\"" == "{\"clientToken\":\"";
    assert "\"" + Comma(false) + " " + Quoted("params", false) + ":{" == "\", \"params\":{";
  }

  lemma EscapedHead(token: string)
    ensures ReportHead(token, true) == "{\\\"clientToken\\\":\\\"" + token + "\\\"\\, \\\"params\\\":{"
  {
    assert "{" + Quoted("clientToken", true) + ":" + "\\\"" == "{\\\"clientToken\\\":\\\"";
    assert "\\\"" + Comma(true) + " " + Quoted("params", true) + ":{" == "\\\"\\, \\\"params\\\":{";
  }

  lemma HeadSpelled(token: string, escaped: bool)
    ensures ReportHead(token, escaped) == OpenDoc(token, escaped) + HeadTail(escaped) && NUL !in HeadTail(escaped)
    ensures |HeadTail(escaped)| == (if escaped then 15 else 12)
  {
  }
}
