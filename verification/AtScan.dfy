/** at_sscanf of src/module_at/at_utils.c for the conversions %s, %u and %S. */
module AtScan {
  import opened CStrings
  import opened Decimal
  import opened AtStrings

  datatype Arg = Text(text: string) | Number(value: nat)

  predicate IsSpace(c: char) {
    c == ' ' || '\t' as int <= c as int <= '\r' as int
  }

  /** What isspace takes: blank, tab, line feed, vertical tab, form feed and carriage return. */
  const WHITE: set<char> := {' ', '\t', '\n', '\U{0B}', '\U{0C}', '\r'}

  lemma SpaceIsWhite(c: char)
    ensures IsSpace(c) <==> c in WHITE
  {
  }

  /**
   * `kept` is `text` without the characters of WHITE, all others kept in order: `at` gives the place of each
   * character kept.
   */
  predicate SiftedAt(text: string, kept: string, at: seq<nat>) {
    && |at| == |kept|
    && (forall k :: 0 <= k < |at| ==> at[k] < |text| && text[at[k]] !in WHITE && kept[k] == text[at[k]])
    && (forall j, k :: 0 <= j < k < |at| ==> at[j] < at[k])
    && (forall i :: 0 <= i < |text| && text[i] !in WHITE ==> i in at)
  }

  ghost predicate Sifted(text: string, kept: string) {
    exists at :: SiftedAt(text, kept, at)
  }

  lemma {:induction false} CompactSifts(text: string) returns (at: seq<nat>)
    ensures SiftedAt(text, Compact(text), at)
  {
    if text == "" {
      at := [];
    } else {
      hide Compact, IsSpace, SiftedAt;
      var n := |text| - 1;
      assert text == text[..n] + [text[n]];
      var before := CompactSifts(text[..n]);
      CompactSnoc(text[..n], text[n]);
      SiftedMore(text[..n], Compact(text[..n]), before, text[n]);
      at := if text[n] in WHITE then before else before + [n];
    }
  }

  lemma CompactSnoc(t: string, c: char)
    ensures Compact(t + [c]) == if c in WHITE then Compact(t) else Compact(t) + [c]
  {
    CompactConcat(t, [c]);
    assert [c][1..] == "";
    SpaceIsWhite(c);
    assert Compact([c]) == if IsSpace(c) then [] else [c];
    hide Compact;
    assert Compact(t) + [] == Compact(t);
  }

  lemma SiftedMore(text: string, kept: string, at: seq<nat>, c: char)
    requires SiftedAt(text, kept, at)
    ensures c in WHITE ==> SiftedAt(text + [c], kept, at)
    ensures c !in WHITE ==> SiftedAt(text + [c], kept + [c], at + [|text|])
  {
    var more := text + [c];
    assert forall i :: 0 <= i < |text| ==> more[i] == text[i];
    if c !in WHITE {
      var longer := at + [|text|];
      forall i | 0 <= i < |more| && more[i] !in WHITE ensures i in longer {
        assert i < |text| ==> i in at;
        assert longer[|at|] == |text|;
      }
    }
  }

  /** Only one text is left. */
  lemma {:induction false} SiftedOnce(text: string, kept: string, at: seq<nat>)
    requires SiftedAt(text, kept, at)
    ensures kept == Compact(text)
  {
    if |at| > 0 {
      FirstKept(text, kept, at);
    }
    if text != "" {
      hide Compact, SiftedAt;
      var n := |text| - 1;
      assert text == text[..n] + [text[n]];
      CompactSnoc(text[..n], text[n]);
      SiftedLess(text, kept, at);
      if text[n] in WHITE {
        SiftedOnce(text[..n], kept, at);
      } else {
        SiftedOnce(text[..n], kept[..|kept| - 1], at[..|at| - 1]);
      }
    }
  }

  lemma FirstKept(text: string, kept: string, at: seq<nat>)
    requires SiftedAt(text, kept, at) && |at| > 0
    ensures text != ""
  {
    assert at[0] < |text|;
  }

  lemma SiftedLess(text: string, kept: string, at: seq<nat>)
    requires text != "" && SiftedAt(text, kept, at)
    ensures var n := |text| - 1;
            if text[n] in WHITE then SiftedAt(text[..n], kept, at)
            else
              && at != [] && kept != "" && kept[|kept| - 1] == text[n]
              && SiftedAt(text[..n], kept[..|kept| - 1], at[..|at| - 1])
  {
    var n := |text| - 1;
    if text[n] in WHITE {
      forall k | 0 <= k < |at| ensures at[k] < n {
        assert text[at[k]] !in WHITE;
      }
    } else {
      assert n in at;
      var k :| 0 <= k < |at| && at[k] == n;
      var last := at[|at| - 1];
      assert last < |text| && k == |at| - 1;
      var less := at[..|at| - 1];
      forall i | 0 <= i < n && text[i] !in WHITE ensures i in less {
        assert i in at;
        var j :| 0 <= j < |at| && at[j] == i;
        assert j < |at| - 1 && less[j] == i;
      }
    }
  }

  predicate IsConversion(c: char) {
    c == 's' || c == 'S' || c == 'u'
  }

  /** Formats made of literals, white space and the three conversions. */
  predicate Supported(fmt: string) {
    forall j :: 0 <= j < |fmt| && fmt[j] == '%' ==> j + 1 < |fmt| && IsConversion(fmt[j + 1])
  }

  function SkipSpace(s: string, p: nat): (r: nat)
    requires p <= |s|
    ensures p <= r <= |s|
    ensures r < |s| ==> !IsSpace(s[r])
    decreases |s| - p
  {
    if p < |s| && IsSpace(s[p]) then SkipSpace(s, p + 1) else p
  }

  /** A text without its white space. */
  function Compact(t: string): (r: string)
  {
    if t == "" then "" else (if IsSpace(t[0]) then [] else [t[0]]) + Compact(t[1..])
  }

  function DigitsEnd(s: string, p: nat): (r: nat)
    requires p <= |s|
    ensures p <= r <= |s|
    ensures AllDigits(s[p..r])
    decreases |s| - p
  {
    if p < |s| && IsDigit(s[p]) then
      var r := DigitsEnd(s, p + 1);
      assert s[p..r] == [s[p]] + s[p + 1..r];
      r
    else p
  }

  /** strtoul on a target whose unsigned long has 32 bits: it saturates. */
  function Clamp(n: nat): nat {
    if n < 0x1_0000_0000 then n else 0xFFFF_FFFF
  }

  /** The arguments read when the scan stands at `i` in the buffer and at `j` in the format. */
  function Scan(buf: string, i: nat, fmt: string, j: nat): (args: seq<Arg>)
    requires i <= |buf| && j <= |fmt| && Supported(fmt)
    decreases |fmt| - j
  {
    if j == |fmt| || i == |buf| then []
    else if IsSpace(fmt[j]) then ScanHere(buf, SkipSpace(buf, i), fmt, SkipSpace(fmt, j))
    else ScanHere(buf, i, fmt, j)
  }

  function ScanHere(buf: string, i: nat, fmt: string, j: nat): (args: seq<Arg>)
    requires i <= |buf| && j <= |fmt| && Supported(fmt)
    decreases |fmt| - j, 0
  {
    if j == |fmt| || i == |buf| then []
    else if fmt[j] != '%' then
      if fmt[j] == buf[i] then Scan(buf, i + 1, fmt, j + 1) else []
    else match Convert(buf, i, fmt[j + 1])
      case Stop => []
      case Got(arg, next) => [arg] + Scan(buf, next, fmt, j + 2)
  }

  datatype Conversion = Stop | Got(arg: Arg, next: nat)

  /** One conversion: %s up to a comma, %S to the end, %u a run of digits after white space. */
  function Convert(buf: string, i: nat, c: char): (r: Conversion)
    requires i <= |buf|
    ensures r.Got? ==> i <= r.next <= |buf|
  {
    if c == 's' || c == 'S' then
      var e := if c == 's' then StrChr(buf, i, ',') else |buf|;
      Got(Text(Compact(buf[i..e])), e)
    else
      var d := SkipSpace(buf, i);
      var e := DigitsEnd(buf, d);
      if d == e then Stop else Got(Number(Clamp(Value(buf[d..e]))), e)
  }

  method SkipWhite(s: string, from: nat) returns (p: nat)
    requires from <= |s|
    ensures p == SkipSpace(s, from)
  {
    p := from;
    while p < |s| && IsSpace(s[p])
      invariant from <= p <= |s| && SkipSpace(s, from) == SkipSpace(s, p)
    {
      p := p + 1;
    }
  }

  lemma CompactHead(c: char, t: string)
    ensures Compact([c] + t) == (if IsSpace(c) then "" else [c]) + Compact(t)
  {
    assert ([c] + t)[1..] == t;
  }

  lemma {:induction false} CompactConcat(a: string, b: string)
    ensures Compact(a + b) == Compact(a) + Compact(b)
  {
    if a == "" {
      assert a + b == b;
    } else {
      hide Compact;
      CompactConcat(a[1..], b);
      CompactHead(a[0], a[1..]);
      CompactHead(a[0], a[1..] + b);
      assert a == [a[0]] + a[1..];
      ConcatAssoc([a[0]], a[1..], b);
      ConcatAssoc(if IsSpace(a[0]) then "" else [a[0]], Compact(a[1..]), Compact(b));
    }
  }

  /** The copying loops of %s and %S: white space is dropped, %s stops at a comma. */
  method CopyText(buf: string, from: nat, comma: bool) returns (s: string, str: nat)
    requires from <= |buf|
    ensures str == if comma then StrChr(buf, from, ',') else |buf|
    ensures s == Compact(buf[from..str]) && Sifted(buf[from..str], s)
  {
    s, str := CopyLoop(buf, from, comma);
    IsSifted(buf[from..str]);
  }

  method CopyLoop(buf: string, from: nat, comma: bool) returns (s: string, str: nat)
    requires from <= |buf|
    ensures str == if comma then StrChr(buf, from, ',') else |buf|
    ensures s == Compact(buf[from..str])
  {
    str := from;
    s := "";
    while str < |buf| && !(comma && buf[str] == ',')
      invariant from <= str <= |buf| && s == Compact(buf[from..str])
      invariant comma ==> StrChr(buf, from, ',') == StrChr(buf, str, ',')
    {
      assert buf[from..str + 1] == buf[from..str] + [buf[str]];
      CompactConcat(buf[from..str], [buf[str]]);
      assert [buf[str]][1..] == "";
      if !IsSpace(buf[str]) {
        s := s + [buf[str]];
      }
      str := str + 1;
    }
  }

  /** strtoul(str, &next, 10) */
  method StrToUl(buf: string, from: nat) returns (value: nat, next: nat)
    requires from <= |buf|
    ensures next == DigitsEnd(buf, from) && value == Clamp(Value(buf[from..next]))
    ensures value == if Value(buf[from..next]) < 4294967296 then Value(buf[from..next]) else 4294967295
    ensures (forall k :: from <= k < next ==> '0' <= buf[k] <= '9') && (next < |buf| ==> !('0' <= buf[next] <= '9'))
  {
    var n := 0;
    next := from;
    while next < |buf| && IsDigit(buf[next])
      invariant from <= next <= |buf| && n == Value(buf[from..next])
      invariant DigitsEnd(buf, from) == DigitsEnd(buf, next)
    {
      assert buf[from..next + 1][..next - from] == buf[from..next];
      n := 10 * n + ValueOfDigit(buf[next]);
      next := next + 1;
    }
    value := Clamp(n);
  }

  method ConvertNext(buf: string, from: nat, c: char) returns (r: Conversion)
    requires from <= |buf|
    ensures r == Convert(buf, from, c)
  {
    if c == 's' || c == 'S' {
      var text, str := CopyText(buf, from, c == 's');
      return Got(Text(text), str);
    }
    var str := SkipWhite(buf, from);
    if str == |buf| || !IsDigit(buf[str]) {
      return Stop;
    }
    var n, next := StrToUl(buf, str);
    return Got(Number(n), next);
  }

  lemma ScanFromHere(buf: string, i: nat, fmt: string, j: nat)
    requires i < |buf| && j < |fmt| && Supported(fmt)
    ensures Scan(buf, i, fmt, j) ==
            if IsSpace(fmt[j]) then ScanHere(buf, SkipSpace(buf, i), fmt, SkipSpace(fmt, j))
            else ScanHere(buf, i, fmt, j)
  {
    hide IsSpace, ScanHere;
  }

  lemma HereStep(buf: string, i: nat, fmt: string, j: nat)
    requires i <= |buf| && j <= |fmt| && Supported(fmt)
    ensures i == |buf| || j == |fmt| ==> ScanHere(buf, i, fmt, j) == []
    ensures i < |buf| && j < |fmt| && fmt[j] != '%' ==>
              ScanHere(buf, i, fmt, j) == if fmt[j] == buf[i] then Scan(buf, i + 1, fmt, j + 1) else []
    ensures i < |buf| && j < |fmt| && fmt[j] == '%' ==>
              ScanHere(buf, i, fmt, j) == match Convert(buf, i, fmt[j + 1])
                                          case Stop => []
                                          case Got(arg, next) => [arg] + Scan(buf, next, fmt, j + 2)
  {
    hide Convert, Scan;
  }

  lemma ArgsAssoc(x: seq<Arg>, y: seq<Arg>, z: seq<Arg>)
    ensures x + (y + z) == (x + y) + z
  {
  }

  method AtSscanf(buf: string, fmt: string) returns (args: seq<Arg>)
    requires Supported(fmt)
    ensures args == Scan(buf, 0, fmt, 0)
  {
    var str: nat, f: nat := 0, 0;
    args := [];
    assert [] + Scan(buf, 0, fmt, 0) == Scan(buf, 0, fmt, 0);
    while f < |fmt| && str < |buf|
      invariant f <= |fmt| && str <= |buf|
      invariant Scan(buf, 0, fmt, 0) == args + Scan(buf, str, fmt, f)
      decreases |fmt| - f
    {
      hide Convert, IsConversion, IsSpace, Scan, ScanHere, SkipSpace;
      ScanFromHere(buf, str, fmt, f);
      if IsSpace(fmt[f]) {
        f := SkipWhite(fmt, f);
        str := SkipWhite(buf, str);
      }
      HereStep(buf, str, fmt, f);
      if f == |fmt| || str == |buf| {
        return;
      }
      if fmt[f] != '%' {
        if fmt[f] != buf[str] {
          return;
        }
        f, str := f + 1, str + 1;
        continue;
      }
      var r := ConvertNext(buf, str, fmt[f + 1]);
      if r.Stop? {
        return;
      }
      ArgsAssoc(args, [r.arg], Scan(buf, r.next, fmt, f + 2));
      args := args + [r.arg];
      f, str := f + 2, r.next;
    }
  }

  // ---- the publish line ----

  const PUBLISH_FORMAT: string := "+TCMQTTRCVPUB:%s,%u,%S"

  function Quoted(t: string): string {
    "\"" + t + "\""
  }

  lemma {:induction false} ScanLiteral(buf: string, i: nat, fmt: string, j: nat, x: string)
    requires i + |x| <= |buf| && j + |x| <= |fmt| && Supported(fmt)
    requires At(buf, i, x) && At(fmt, j, x) && forall k :: 0 <= k < |x| ==> x[k] != '%' && !IsSpace(x[k])
    ensures Scan(buf, i, fmt, j) == Scan(buf, i + |x|, fmt, j + |x|)
    decreases |x|
  {
    if x != "" {
      assert buf[i + 0] == x[0] && fmt[j + 0] == x[0];
      AtSplit(buf, i, [x[0]], x[1..]) by { assert [x[0]] + x[1..] == x; }
      AtSplit(fmt, j, [x[0]], x[1..]) by { assert [x[0]] + x[1..] == x; }
      ScanLiteral(buf, i + 1, fmt, j + 1, x[1..]);
    }
  }

  lemma {:induction false} CompactSame(t: string)
    requires forall k :: 0 <= k < |t| ==> !IsSpace(t[k])
    ensures Compact(t) == t
  {
    if t != "" {
      CompactSame(t[1..]);
    }
  }

  lemma ScanText(buf: string, i: nat, fmt: string, j: nat, x: string)
    requires Supported(fmt) && j + 1 < |fmt| && fmt[j] == '%' && fmt[j + 1] == 's'
    requires i + |x| < |buf| && At(buf, i, x) && buf[i + |x|] == ','
    requires forall k :: 0 <= k < |x| ==> x[k] != ',' && !IsSpace(x[k])
    ensures Scan(buf, i, fmt, j) == [Text(x)] + Scan(buf, i + |x|, fmt, j + 2)
  {
    forall k | i <= k < i + |x| ensures buf[k] != ',' {
      assert buf[i + (k - i)] == x[k - i];
    }
    StrChrSkip(buf, i, i + |x|, ',');
    AtIsSlice(buf, i, x);
    CompactSame(x);
  }

  lemma {:induction false} DigitsEndIs(s: string, p: nat, q: nat)
    requires p <= q < |s| && !IsDigit(s[q]) && forall k :: p <= k < q ==> IsDigit(s[k])
    ensures DigitsEnd(s, p) == q
    decreases q - p
  {
    if p < q {
      DigitsEndIs(s, p + 1, q);
    }
  }

  lemma ConvertNumber(buf: string, i: nat, n: nat)
    requires i + |Digits(n)| < |buf| && At(buf, i, Digits(n)) && buf[i + |Digits(n)|] == ','
    ensures Convert(buf, i, 'u') == Got(Number(Clamp(n)), i + |Digits(n)|)
  {
    hide Digits, Value, Clamp;
    var e := i + |Digits(n)|;
    forall k | i <= k < e ensures IsDigit(buf[k]) {
      assert buf[i + (k - i)] == Digits(n)[k - i];
    }
    DigitsEndIs(buf, i, e);
    AtIsSlice(buf, i, Digits(n));
    ValueOfDigits(n);
  }

  lemma ScanNumber(buf: string, i: nat, fmt: string, j: nat, n: nat)
    requires Supported(fmt) && j + 1 < |fmt| && fmt[j] == '%' && fmt[j + 1] == 'u'
    requires i + |Digits(n)| < |buf| && At(buf, i, Digits(n)) && buf[i + |Digits(n)|] == ','
    ensures Scan(buf, i, fmt, j) == [Number(Clamp(n))] + Scan(buf, i + |Digits(n)|, fmt, j + 2)
  {
    ConvertNumber(buf, i, n);
    hide Convert, Digits, Clamp;
  }

  lemma ScanRest(buf: string, i: nat, fmt: string, j: nat, x: string)
    requires Supported(fmt) && j + 2 == |fmt| && fmt[j] == '%' && fmt[j + 1] == 'S'
    requires i < |buf| && buf[i..] == x
    ensures Scan(buf, i, fmt, j) == [Text(Compact(x))]
  {
    assert buf[i..|buf|] == x;
    assert Scan(buf, |buf|, fmt, j + 2) == [];
    assert Convert(buf, i, 'S') == Got(Text(Compact(x)), |buf|);
  }

  /** What a publish line carries: a quoted topic, a length and a quoted payload. */
  function PublishLine(topic: string, len: nat, payload: string, tail: string): string {
    PUBLISH_HEAD + Quoted(topic) + "," + Digits(len) + "," + (Quoted(payload) + tail)
  }

  lemma PublishParts(topic: string, len: nat, payload: string, tail: string)
    ensures var buf := PublishLine(topic, len, payload, tail);
            var i := |PUBLISH_HEAD|;
            var j := i + |Quoted(topic)| + 1;
            var k := j + |Digits(len)| + 1;
            && k < |buf| && At(buf, 0, PUBLISH_HEAD) && At(buf, i, Quoted(topic)) && At(buf, j - 1, ",")
            && At(buf, j, Digits(len)) && At(buf, k - 1, ",") && buf[k..] == Quoted(payload) + tail
  {
    hide At, Quoted;
    var buf := PublishLine(topic, len, payload, tail);
    var rest := Quoted(payload) + tail;
    AtWhole(buf);
    AtSplit(buf, 0, PUBLISH_HEAD + Quoted(topic) + "," + Digits(len) + ",", rest);
    AtSplit(buf, 0, PUBLISH_HEAD + Quoted(topic) + "," + Digits(len), ",");
    AtSplit4(buf, 0, PUBLISH_HEAD, Quoted(topic), ",", Digits(len));
    assert |rest| > 0 by { QuotedLength(payload); }
  }

  lemma QuotedLength(t: string)
    ensures |Quoted(t)| == |t| + 2
  {
  }

  lemma AtWhole(s: string)
    ensures At(s, 0, s)
  {
  }

  const PUBLISH_HEAD: string := "+TCMQTTRCVPUB:"

  /** The format has the three conversions between its literals. */
  predicate IsPublishFormat(fmt: string) {
    && |fmt| == 22 && |PUBLISH_HEAD| == 14 && Supported(fmt) && At(fmt, 0, PUBLISH_HEAD)
    && fmt[14] == '%' && fmt[15] == 's' && fmt[16] == ',' && fmt[17] == '%' && fmt[18] == 'u'
    && fmt[19] == ',' && fmt[20] == '%' && fmt[21] == 'S'
  }

  lemma FormatFacts()
    ensures IsPublishFormat(PUBLISH_FORMAT)
    ensures forall k :: 0 <= k < |PUBLISH_HEAD| ==> PUBLISH_HEAD[k] != '%' && !IsSpace(PUBLISH_HEAD[k])
  {
    HeadFacts();
    FormatTail();
    hide IsSpace;
    assert Supported(PUBLISH_FORMAT);
  }

  lemma HeadFacts()
    ensures forall k :: 0 <= k < |PUBLISH_HEAD| ==> PUBLISH_HEAD[k] != '%' && !IsSpace(PUBLISH_HEAD[k])
  {
  }

  lemma FormatTail()
    ensures var fmt := PUBLISH_FORMAT;
            && |fmt| == 22 && |PUBLISH_HEAD| == 14 && At(fmt, 0, PUBLISH_HEAD)
            && fmt[14] == '%' && fmt[15] == 's' && fmt[16] == ',' && fmt[17] == '%' && fmt[18] == 'u'
            && fmt[19] == ',' && fmt[20] == '%' && fmt[21] == 'S'
            && forall k :: 0 <= k < 14 ==> fmt[k] == PUBLISH_HEAD[k]
  {
  }

  /** Parsing a publish line recovers the topic, the length and the payload without its white space. */
  lemma PublishLineParses(topic: string, len: nat, payload: string, tail: string)
    requires forall k :: 0 <= k < |topic| ==> topic[k] != ',' && topic[k] !in WHITE
    requires forall k :: 0 <= k < |tail| ==> tail[k] in WHITE
    ensures Supported(PUBLISH_FORMAT)
    ensures Scan(PublishLine(topic, len, payload, tail), 0, PUBLISH_FORMAT, 0) ==
            [Text(Quoted(topic)), Number(Clamp(len)), Text(Quoted(Compact(payload)))]
    ensures Sifted(payload, Compact(payload))
  {
    hide Scan, Compact, At, Digits, Quoted, Clamp, PublishLine, Sifted, IsSpace;
    IsSifted(payload);
    WhiteOnly(topic, tail);
    FormatFacts();
    PublishParts(topic, len, payload, tail);
    CompactQuoted(payload, tail);
    QuotedPlain(topic);
    ScanPublish(PublishLine(topic, len, payload, tail), PUBLISH_FORMAT, Quoted(topic), len, Quoted(payload) + tail);
  }

  lemma IsSifted(text: string)
    ensures Sifted(text, Compact(text))
  {
    var at := CompactSifts(text);
  }

  lemma WhiteOnly(topic: string, tail: string)
    requires forall k :: 0 <= k < |topic| ==> topic[k] !in WHITE
    requires forall k :: 0 <= k < |tail| ==> tail[k] in WHITE
    ensures forall k :: 0 <= k < |topic| ==> !IsSpace(topic[k])
    ensures forall k :: 0 <= k < |tail| ==> IsSpace(tail[k])
  {
    forall c: char ensures IsSpace(c) <==> c in WHITE {
      SpaceIsWhite(c);
    }
  }

  lemma ScanComma(buf: string, i: nat, fmt: string, j: nat)
    requires i < |buf| && j < |fmt| && buf[i] == ',' && fmt[j] == ',' && Supported(fmt)
    ensures Scan(buf, i, fmt, j) == Scan(buf, i + 1, fmt, j + 1)
  {
  }

  lemma ScanPublish(buf: string, fmt: string, topic: string, len: nat, rest: string)
    requires IsPublishFormat(fmt)
    requires forall k :: 0 <= k < |PUBLISH_HEAD| ==> PUBLISH_HEAD[k] != '%' && !IsSpace(PUBLISH_HEAD[k])
    requires forall k :: 0 <= k < |topic| ==> topic[k] != ',' && !IsSpace(topic[k])
    requires var j := 14 + |topic| + 1;
             var k := j + |Digits(len)| + 1;
             && k < |buf| && At(buf, 0, PUBLISH_HEAD) && At(buf, 14, topic) && At(buf, j - 1, ",")
             && At(buf, j, Digits(len)) && At(buf, k - 1, ",") && buf[k..] == rest
    ensures Scan(buf, 0, fmt, 0) == [Text(topic), Number(Clamp(len)), Text(Compact(rest))]
  {
    hide Scan, Convert, Compact, Clamp, At, Digits, Supported, IsSpace;
    var j := 14 + |topic| + 1;
    var k := j + |Digits(len)| + 1;
    AtChar(buf, j - 1, ',');
    AtChar(buf, k - 1, ',');
    ScanTopic(buf, fmt, topic);
    ScanLength(buf, fmt, j, len);
    ScanPayload(buf, fmt, k, rest);
  }

  lemma ScanTopic(buf: string, fmt: string, topic: string)
    requires IsPublishFormat(fmt) && 14 + |topic| < |buf|
    requires forall k :: 0 <= k < |PUBLISH_HEAD| ==> PUBLISH_HEAD[k] != '%' && !IsSpace(PUBLISH_HEAD[k])
    requires forall k :: 0 <= k < |topic| ==> topic[k] != ',' && !IsSpace(topic[k])
    requires At(buf, 0, PUBLISH_HEAD) && At(buf, 14, topic) && buf[14 + |topic|] == ','
    ensures Scan(buf, 0, fmt, 0) == [Text(topic)] + Scan(buf, 14 + |topic|, fmt, 16)
  {
    hide Scan, Convert, Compact, At, IsSpace;
    ScanLiteral(buf, 0, fmt, 0, PUBLISH_HEAD);
    ScanText(buf, 14, fmt, 14, topic);
  }

  lemma ScanLength(buf: string, fmt: string, j: nat, len: nat)
    requires IsPublishFormat(fmt) && 0 < j && j + |Digits(len)| < |buf|
    requires buf[j - 1] == ',' && At(buf, j, Digits(len)) && buf[j + |Digits(len)|] == ','
    ensures Scan(buf, j - 1, fmt, 16) == [Number(Clamp(len))] + Scan(buf, j + |Digits(len)|, fmt, 19)
  {
    hide Scan, Convert, Clamp, At, Digits, IsSpace;
    ScanComma(buf, j - 1, fmt, 16);
    ScanNumber(buf, j, fmt, 17, len);
  }

  lemma ScanPayload(buf: string, fmt: string, k: nat, rest: string)
    requires IsPublishFormat(fmt) && 0 < k < |buf| && buf[k - 1] == ',' && buf[k..] == rest
    ensures Scan(buf, k - 1, fmt, 19) == [Text(Compact(rest))]
  {
    hide Scan, Convert, Compact, At, IsSpace;
    ScanComma(buf, k - 1, fmt, 19);
    ScanRest(buf, k, fmt, 20, rest);
  }

  lemma QuotedPlain(topic: string)
    requires forall k :: 0 <= k < |topic| ==> topic[k] != ',' && !IsSpace(topic[k])
    ensures forall k :: 0 <= k < |Quoted(topic)| ==> Quoted(topic)[k] != ',' && !IsSpace(Quoted(topic)[k])
  {
  }

  lemma {:induction false} CompactBlank(t: string)
    requires forall k :: 0 <= k < |t| ==> IsSpace(t[k])
    ensures Compact(t) == ""
  {
    if t != "" {
      CompactBlank(t[1..]);
    }
  }

  lemma CompactQuoted(payload: string, tail: string)
    requires forall k :: 0 <= k < |tail| ==> IsSpace(tail[k])
    ensures Compact(Quoted(payload) + tail) == Quoted(Compact(payload))
  {
    CompactConcat(Quoted(payload), tail);
    CompactBlank(tail);
    CompactConcat("\"" + payload, "\"");
    CompactConcat("\"", payload);
    CompactSame("\"");
  }

  lemma UnquoteQuoted(t: string)
    ensures Quoted(t) != "" && Unquote(Quoted(t), '"') == t
  {
    assert Quoted(t)[1..|t| + 1] == t;
  }
}
