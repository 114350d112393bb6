/** sscanf with %i and %u on one number, as the getters of src/utils/json_token.c use it. */
module NumberScan {
  import opened CStrings
  import opened Decimal
  import S = AtScan

  /** The digit a character stands for, sixteen when none. */
  function DigitValue(c: char): nat {
    if '0' <= c <= '9' then c as int - '0' as int
    else if 'a' <= c <= 'f' then c as int - 'a' as int + 10
    else if 'A' <= c <= 'F' then c as int - 'A' as int + 10
    else 16
  }

  function RunEnd(s: string, p: nat, base: nat): (r: nat)
    requires p <= |s|
    ensures p <= r <= |s|
    decreases |s| - p
  {
    if p < |s| && DigitValue(s[p]) < base then RunEnd(s, p + 1, base) else p
  }

  function ValueIn(s: string, base: nat): nat {
    if s == "" then 0 else ValueIn(s[..|s| - 1], base) * base + DigitValue(s[|s| - 1])
  }

  /** The base and the start of the digits that %i detects. */
  function Detect(s: string, p: nat): (r: (nat, nat))
    requires p <= |s|
    ensures p <= r.1 <= |s|
  {
    if p + 2 < |s| && s[p] == '0' && s[p + 1] in {'x', 'X'} && DigitValue(s[p + 2]) < 16 then (16, p + 2)
    else if p < |s| && s[p] == '0' then (8, p)
    else (10, p)
  }

  /** sscanf with %i (signed) or %u: one number after white space, or nothing. */
  function ScanNumber(s: string, signed: bool): Option<int> {
    var w := S.SkipSpace(s, 0);
    var p := if w < |s| && s[w] in {'-', '+'} then w + 1 else w;
    var (base, q) := if signed then Detect(s, p) else (10, p);
    var e := RunEnd(s, q, base);
    if q == e then None
    else Some(if p > w && s[w] == '-' then 0 - ValueIn(s[q..e], base) else ValueIn(s[q..e], base))
  }

  // ---- what is read, letter by letter ----

  /** A digit of the base. */
  predicate IsDigitIn(c: char, base: nat) {
    if base == 8 then '0' <= c <= '7'
    else if base == 10 then '0' <= c <= '9'
    else '0' <= c <= '9' || 'a' <= c <= 'f' || 'A' <= c <= 'F'
  }

  lemma DigitTable(k: nat)
    requires k < 16
    ensures DigitValue("0123456789abcdef"[k]) == k && DigitValue("0123456789ABCDEF"[k]) == k
  {
  }

  lemma DigitsIn(c: char, base: nat)
    requires base in {8, 10, 16}
    ensures DigitValue(c) < base <==> IsDigitIn(c, base)
  {
  }

  lemma ValueInStep(s: string, c: char, base: nat)
    ensures ValueIn("", base) == 0 && ValueIn(s + [c], base) == ValueIn(s, base) * base + DigitValue(c)
  {
    assert (s + [c])[..|s|] == s;
  }

  /** White space up to `w`, then a sign or none up to `p`. */
  predicate IsLead(s: string, w: nat, p: nat) {
    && w <= p <= |s| && (forall k :: 0 <= k < w ==> s[k] in S.WHITE) && (w < |s| ==> s[w] !in S.WHITE)
    && if w < |s| && s[w] in {'+', '-'} then p == w + 1 else p == w
  }

  /** The hexadecimal mark and a digit after it. */
  predicate IsHexAt(s: string, p: nat) {
    p + 2 < |s| && s[p] == '0' && s[p + 1] in {'x', 'X'} && IsDigitIn(s[p + 2], 16)
  }

  /** The base that the text from `p` on calls for, and where its digits begin; %u knows base ten only. */
  predicate CallsFor(s: string, p: nat, base: nat, q: nat, signed: bool) {
    if signed && IsHexAt(s, p) then base == 16 && q == p + 2
    else if signed && p < |s| && s[p] == '0' then base == 8 && q == p
    else base == 10 && q == p
  }

  /** A numeral: a lead, a base, and all digits of that base up to `e`. */
  predicate IsNumeral(s: string, w: nat, p: nat, base: nat, q: nat, e: nat, signed: bool) {
    && IsLead(s, w, p) && CallsFor(s, p, base, q, signed) && q <= e <= |s|
    && (forall k :: q <= k < e ==> IsDigitIn(s[k], base)) && (e < |s| ==> !IsDigitIn(s[e], base))
  }

  lemma {:induction false} SkipsWhite(s: string, p: nat, w: nat)
    requires p <= w <= |s| && (forall k :: p <= k < w ==> s[k] in S.WHITE) && (w < |s| ==> s[w] !in S.WHITE)
    ensures S.SkipSpace(s, p) == w
    decreases w - p
  {
    if p < |s| {
      S.SpaceIsWhite(s[p]);
    }
    if p < w {
      SkipsWhite(s, p + 1, w);
    }
  }

  lemma {:induction false} RunsTo(s: string, p: nat, e: nat, base: nat)
    requires p <= e <= |s| && base in {8, 10, 16}
    requires (forall k :: p <= k < e ==> IsDigitIn(s[k], base)) && (e < |s| ==> !IsDigitIn(s[e], base))
    ensures RunEnd(s, p, base) == e
    decreases e - p
  {
    if p < |s| {
      DigitsIn(s[p], base);
    }
    hide DigitValue, IsDigitIn;
    if p < e {
      RunsTo(s, p + 1, e, base);
    }
  }

  lemma DetectsBase(s: string, p: nat, base: nat, q: nat)
    requires p <= |s| && CallsFor(s, p, base, q, true)
    ensures Detect(s, p) == (base, q)
  {
    if p + 2 < |s| {
      DigitsIn(s[p + 2], 16);
    }
    hide DigitValue, IsDigitIn;
  }

  /** For every text: the number of its numeral with its sign, or none where the numeral has no digits. */
  lemma NumberRead(s: string, w: nat, p: nat, base: nat, q: nat, e: nat, signed: bool)
    requires IsNumeral(s, w, p, base, q, e, signed)
    ensures ScanNumber(s, signed) ==
            if q == e then None
            else if s[w] == '-' then Some(0 - ValueIn(s[q..e], base))
            else Some(ValueIn(s[q..e], base))
  {
    hide IsDigitIn, DigitValue, ValueIn, RunEnd, Detect, S.SkipSpace;
    SkipsWhite(s, 0, w);
    RunsTo(s, q, e, base);
    if signed {
      DetectsBase(s, p, base, q);
    }
  }

  /** Every text has a numeral, which may have no digits. */
  lemma HasNumeral(s: string, signed: bool) returns (w: nat, p: nat, base: nat, q: nat, e: nat)
    ensures IsNumeral(s, w, p, base, q, e, signed)
  {
    w := FirstWhere(s, 0);
    p := if w < |s| && s[w] in {'+', '-'} then w + 1 else w;
    base := if signed && IsHexAt(s, p) then 16 else if signed && p < |s| && s[p] == '0' then 8 else 10;
    q := if signed && IsHexAt(s, p) then p + 2 else p;
    e := DigitsUpTo(s, q, base);
  }

  lemma {:induction false} FirstWhere(s: string, p: nat) returns (w: nat)
    requires p <= |s|
    ensures p <= w <= |s| && (forall k :: p <= k < w ==> s[k] in S.WHITE) && (w < |s| ==> s[w] !in S.WHITE)
    decreases |s| - p
  {
    if p < |s| && s[p] in S.WHITE {
      w := FirstWhere(s, p + 1);
    } else {
      w := p;
    }
  }

  lemma {:induction false} DigitsUpTo(s: string, p: nat, base: nat) returns (e: nat)
    requires p <= |s|
    ensures p <= e <= |s| && (forall k :: p <= k < e ==> IsDigitIn(s[k], base)) && (e < |s| ==> !IsDigitIn(s[e], base))
    decreases |s| - p
  {
    if p < |s| && IsDigitIn(s[p], base) {
      e := DigitsUpTo(s, p + 1, base);
    } else {
      e := p;
    }
  }

  /** A printed numeral in base ten. */
  lemma ReadsDecimal(s: string, minus: bool, signed: bool)
    requires var p := if minus then 1 else 0;
             p < |s| && (minus ==> s[0] == '-') && AllDigits(s[p..]) && (signed ==> s[p] != '0')
    ensures var p := if minus then 1 else 0;
            ScanNumber(s, signed) == Some(if minus then 0 - Value(s[p..]) else Value(s[p..]))
  {
    var p := if minus then 1 else 0;
    forall k | p <= k < |s| ensures IsDigitIn(s[k], 10) {
      assert s[k] == s[p..][k - p];
    }
    NumberRead(s, 0, p, 10, p, |s|, signed);
    ValueInTen(s[p..]);
    assert s[p..|s|] == s[p..];
    hide ScanNumber, ValueIn, Value;
  }

  lemma {:induction false} ValueInTen(s: string)
    requires AllDigits(s)
    ensures ValueIn(s, 10) == Value(s)
  {
    if s != "" {
      ValueInTen(s[..|s| - 1]);
    }
  }

  lemma ScanZero(signed: bool)
    ensures ScanNumber("0", signed) == Some(0)
  {
    var s, base := "0", if signed then 8 else 10;
    NumberRead(s, 0, 0, base, 0, 1, signed);
    ValueInStep("", '0', base);
    assert s[0..1] == "" + ['0'];
    hide ScanNumber, ValueIn;
  }

  /** Some texts, by hand. */
  lemma TextsRead()
    ensures ScanNumber(" \t-12abc", true) == Some(-12) && ScanNumber("0x1F", true) == Some(31)
    ensures ScanNumber("017", true) == Some(15) && ScanNumber("017", false) == Some(17)
    ensures ScanNumber("abc", true) == None
  {
    hide ScanNumber;
    MinusTwelve();
    NumberRead("0x1F", 0, 0, 16, 2, 4, true);
    assert "0x1F"[2..4] == "1F";
    TwoDigits("1F", 16);
    LeadingZero();
    NumberRead("abc", 0, 0, 10, 0, 0, true);
  }

  lemma MinusTwelve()
    ensures ScanNumber(" \t-12abc", true) == Some(-12)
  {
    hide ScanNumber;
    NumberRead(" \t-12abc", 2, 3, 10, 3, 5, true);
    assert " \t-12abc"[3..5] == "12";
    TwoDigits("12", 10);
  }

  lemma LeadingZero()
    ensures ScanNumber("017", true) == Some(15) && ScanNumber("017", false) == Some(17)
  {
    hide ScanNumber;
    NumberRead("017", 0, 0, 8, 0, 3, true);
    NumberRead("017", 0, 0, 10, 0, 3, false);
    assert "017"[0..3] == "017" == "01" + ['7'];
    TwoDigits("01", 8);
    TwoDigits("01", 10);
    ValueInStep("01", '7', 8);
    ValueInStep("01", '7', 10);
  }

  lemma TwoDigits(s: string, base: nat)
    requires |s| == 2
    ensures ValueIn(s, base) == DigitValue(s[0]) * base + DigitValue(s[1])
  {
    ValueInStep("", s[0], base);
    ValueInStep([s[0]], s[1], base);
    assert "" + [s[0]] == [s[0]] && [s[0]] + [s[1]] == s;
  }
}
