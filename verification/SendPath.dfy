/**
 * A report on its way out, in the escaped build: IOT_Template_JSON_ConstructReportArray prints it,
 * send_template_request of src/data_template/data_template_client_manager.c reads the token from a stripped copy
 * and inserts the method, and the far end reads the stripped document.
 */
module SendPath {
  import opened CStrings
  import opened AtStrings
  import JsonScan
  import T = JsonTree
  import V = JsonView
  import J = JsonToken
  import D = TemplateDocument
  import opened ReportBuilder
  import opened ReportRoundTrip

  /** What the far end reads when the report was sent with this method. */
  function Sent(token: string, fs: seq<Field>, name: string): string
    requires fs != [] && D.IsName(name)
  {
    ReportStarts(token, fs, true);
    Strip(D.Inserted(ReportText(token, fs, true), 1, D.MethodNode(name, true)), '\\')
  }

  lemma ReportStarts(token: string, fs: seq<Field>, escaped: bool)
    requires fs != []
    ensures ReportText(token, fs, escaped) != "" && ReportText(token, fs, escaped)[0] == '{'
  {
    hide JoinedNodes, Quoted;
  }

  predicate Sendable(token: string, fs: seq<Field>) {
    fs != [] && IsPlain(token) && token != "" && '\\' !in token
  }

  lemma TokenBared(token: string, fs: seq<Field>)
    requires Sendable(token, fs)
    ensures Bared(token) == token && BaredFields(fs) != []
  {
    BaredExactly(token);
    assert forall c :: c in token[..|token| - 1] ==> c in token;
  }

  /** The token the client reads from its own report is the one the report was built with. */
  lemma TokenRead(token: string, fs: seq<Field>)
    requires Sendable(token, fs)
    ensures J.ValueOf("clientToken", 0, Strip(ReportText(token, fs, true), '\\'), 0) == Some(token)
  {
    EscapedReport(token, fs);
    TokenBared(token, fs);
    PlainToken(token, BaredFields(fs));
  }

  /** The token stands before the properties: whatever these are, it is found. */
  lemma PlainToken(token: string, fs: seq<Field>)
    requires fs != [] && IsPlain(token) && token != ""
    ensures J.ValueOf("clientToken", 0, ReportText(token, fs, false), 0) == Some(token)
  {
    hide V.Shown, V.NoQuote, V.EndPos, JsonScan.Lookup, J.ValueOf, T.Seen;
    hide V.Counts, TokenSpot, V.EntryAt, V.SeenPos, ReportText;
    var t := ReportText(token, fs, false);
    var sp := TokenSpot(token);
    TokenShown(token, fs);
    TokenFacts(token);
    D.LookupFirst(t, sp, "clientToken");
    V.SeenAt(t, sp);
    D.ValueOfPlain("clientToken", t);
  }

  /** The token as a field of the report. */
  function TokenSpot(token: string): V.Spot {
    V.Spot(1, "", "", V.Field("clientToken", T.Str(token)))
  }

  lemma TokenFacts(token: string)
    requires token != ""
    ensures var sp := TokenSpot(token);
            && sp.at == 1 && T.Seen(sp.field.val) == token && V.Counts(sp.field) && sp.field.key == "clientToken"
            && V.EntryAt(sp).at == V.SeenPos(sp) && V.EntryAt(sp).len == |token|
  {
    hide V.SeenPos;
  }

  lemma TokenShown(token: string, fs: seq<Field>)
    requires fs != [] && IsPlain(token)
    ensures var t := ReportText(token, fs, false);
            && t != "" && t[0] == '{' && V.NoQuote(t, 0, 1)
            && V.Shown(t, TokenSpot(token)) && V.EndPos(TokenSpot(token)) <= |t|
  {
    RestSpelled(token, fs);
    hide ReportText, JoinedNodes;
    ShownBefore(token, TokenRest(fs));
  }

  lemma ShownBefore(token: string, rest: string)
    requires IsPlain(token)
    ensures var t := OpenDoc(token, false) + rest;
            && t != "" && t[0] == '{' && V.NoQuote(t, 0, 1)
            && V.Shown(t, TokenSpot(token)) && V.EndPos(TokenSpot(token)) <= |t|
  {
    var t := OpenDoc(token, false) + rest;
    OpenSpelled(token);
    V.ShownBetween("{", TokenSpot(token).field, rest);
    OpensWithBrace(token, rest);
    hide T.Label, T.Core, V.Shown, OpenDoc, V.EndPos, T.Whole;
    assert t == "{" + T.Label(JsonScan.JsObject, "clientToken", "", "") + T.Core(T.Str(token)) + rest;
  }

  lemma OpensWithBrace(token: string, rest: string)
    ensures var t := OpenDoc(token, false) + rest; t != "" && t[0] == '{' && V.NoQuote(t, 0, 1)
  {
  }

  lemma OpenSpelled(token: string)
    ensures OpenDoc(token, false) == "{" + T.Label(JsonScan.JsObject, "clientToken", "", "") + T.Core(T.Str(token))
  {
    assert T.Label(JsonScan.JsObject, "clientToken", "", "") == "\"clientToken\":";
  }

  /** What comes behind the token. */
  function TokenRest(fs: seq<Field>): string
    requires fs != []
  {
    HeadTail(false) + (JoinedNodes(fs, false) + "}}")
  }

  lemma RestSpelled(token: string, fs: seq<Field>)
    requires fs != []
    ensures ReportText(token, fs, false) == OpenDoc(token, false) + TokenRest(fs)
  {
    HeadSpelled(token, false);
    hide OpenDoc, HeadTail, JoinedNodes, ReportHead;
    ConcatAssoc(ReportHead(token, false), JoinedNodes(fs, false), "}}");
    ConcatAssoc(OpenDoc(token, false), HeadTail(false), JoinedNodes(fs, false) + "}}");
  }

  /**
   * The far end finds the method and the token: inserting the method into the escaped document disturbs nothing, and
   * stripping undoes the escaping. Where the braces in the properties match, it finds the properties too, less
   * their own backslashes.
   */
  lemma SentReportReads(token: string, fs: seq<Field>, name: string)
    requires Sendable(token, fs) && D.IsName(name)
    ensures var sent, gs := Sent(token, fs, name), BaredFields(fs);
            && J.ValueOf("method", 0, sent, 0) == Some(name)
            && J.ValueOf("clientToken", 0, sent, 0) == Some(token)
            && (PlainFields(fs) && BracesMatch(gs) ==> J.ValueOf("params", 0, sent, 0) == Some(T.Text(Params(gs))))
  {
    hide T.Text, J.ValueOf, ReportText, Params, D.MethodNode, D.Inserted;
    hide Strip, D.IsName, Sendable, BracesMatch, PlainFields;
    SendableParts(token, fs);
    SentIsPlain(token, fs, name);
    var gs := BaredFields(fs);
    var plain := ReportText(token, gs, false);
    ReportStarts(token, gs, false);
    D.MethodInserted(plain, name);
    PlainToken(token, gs);
    OneKey("clientToken");
    OneKey("params");
    D.OthersKept(plain, name, "clientToken");
    D.OthersKept(plain, name, "params");
    if PlainFields(fs) && BracesMatch(gs) {
      BaredPlain(fs);
      ParamsFound(token, gs);
    }
  }

  lemma SendableParts(token: string, fs: seq<Field>)
    requires Sendable(token, fs)
    ensures fs != [] && IsPlain(token) && token != ""
  {
  }

  lemma BaredPlain(fs: seq<Field>)
    requires PlainFields(fs)
    ensures PlainFields(BaredFields(fs))
  {
    hide Bared;
    forall i | 0 <= i < |fs| ensures PlainField(BaredFields(fs)[i]) {
      assert PlainField(fs[i]);
      BaredExactly(fs[i].key);
      if fs[i].data.Text? {
        BaredExactly(fs[i].data.s);
      }
    }
  }

  lemma OneKey(key: string)
    requires '.' !in key
    ensures J.Split(key, 0) == [key]
  {
    StrChrSkip(key, 0, |key|, '.');
    assert key[0..|key|] == key;
  }

  lemma SentIsPlain(token: string, fs: seq<Field>, name: string)
    requires Sendable(token, fs) && D.IsName(name)
    ensures BaredFields(fs) != [] && ReportText(token, BaredFields(fs), false) != ""
    ensures Sent(token, fs, name) == D.WithMethod(ReportText(token, BaredFields(fs), false), name)
  {
    hide ReportText, D.MethodNode, D.Inserted, Strip, D.IsName;
    TokenBared(token, fs);
    ReportStarts(token, fs, true);
    ReportStarts(token, BaredFields(fs), false);
    EscapedReport(token, fs);
    D.EscapedInsert(ReportText(token, fs, true), name);
  }

  /**
   * And from there each property is read back as it was sent, with the exact exceptions of the round trip and one
   * more: a string that holds a backslash before its last character comes back shorter.
   */
  lemma SentReportRestores(token: string, fs: seq<Field>, name: string, i: nat, typ: Type, was: Data)
    requires Sendable(token, fs) && PlainFields(fs) && D.IsName(name)
    requires BracesMatch(BaredFields(fs)) && GoodKeys(BaredFields(fs)) && i < |fs| && Fits(typ, fs[i].data)
    ensures var params := J.ValueOf("params", 0, Sent(token, fs, name), 0);
            && params.Some?
            && var found := J.ValueOf(Bared(fs[i].key), 0, params.value, 0);
               var d, e := fs[i].data, BaredField(fs[i]).data;
               && (found.Some? && !IsNullText(found.value) <==> !IsLost(e))
               && (!IsLost(e) ==> (Parsed(typ, was, found.value) == d <==>
                     (d.Text? ==> |d.s| <= typ.maxLen && (d.s == "" || '\\' !in d.s[..|d.s| - 1]))))
  {
    hide T.Text, T.Seen, ValueOfData, J.ValueOf, IsNullText, IsLost, Sent, Params, Sendable, GoodKeys, BracesMatch;
    hide PlainFields, Bared, Parsed;
    var gs := BaredFields(fs);
    SentReportReads(token, fs, name);
    BaredPlain(fs);
    PropertyFound(gs, i);
    ValueRestored(gs[i].data, typ, was);
    BaredRestored(fs[i].data, typ, was);
  }

  /** Nothing is lost of a value exactly when its text holds no backslash before the end. */
  lemma BaredRestored(d: Data, typ: Type, was: Data)
    requires Fits(typ, d)
    ensures var e := if d.Text? then Text(Bared(d.s)) else d;
            && Fits(typ, e)
            && (d.Text? ==> (e == d <==> d.s == "" || '\\' !in d.s[..|d.s| - 1]))
            && (e != d ==> Parsed(typ, was, T.Seen(ValueOfData(e))) != d)
  {
    hide Bared;
    if d.Text? {
      BaredExactly(d.s);
    }
  }
}
