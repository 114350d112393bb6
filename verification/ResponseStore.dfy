/**
 * The response object of src/module_at/at_client.c: client_parser stores lines in it, at_resp_get_line and
 * at_resp_get_line_by_kw read them back.
 */
module ResponseStore {
  import opened CStrings
  import opened LineFraming

  // ---- storing ----

  /** A received line without its last byte, which the parser turns into NUL. */
  function Cut(line: string): string {
    if line == "" then "" else line[..|line| - 1]
  }

  /** The lines one after the other, each ending in NUL. */
  function Layout(lines: seq<string>): string {
    if lines == [] then "" else Layout(lines[..|lines| - 1]) + Cut(lines[|lines| - 1]) + [NUL]
  }

  /** The lines a response of `size` bytes takes: each one that still fits with a byte to spare. */
  function Kept(size: nat, lines: seq<string>): seq<string> {
    if lines == [] then []
    else
      var before := Kept(size, lines[..|lines| - 1]);
      var line := lines[|lines| - 1];
      if |Layout(before)| + |line| < size then before + [line] else before
  }

  ghost predicate NonEmpty(lines: seq<string>) {
    forall k :: 0 <= k < |lines| ==> lines[k] != ""
  }

  ghost predicate NulFree(lines: seq<string>) {
    forall k :: 0 <= k < |lines| ==> NUL !in Cut(lines[k])
  }

  lemma LayoutPush(lines: seq<string>, line: string)
    requires line != ""
    ensures Layout(lines + [line]) == Layout(lines) + Cut(line) + [NUL]
    ensures |Layout(lines + [line])| == |Layout(lines)| + |line|
  {
    assert (lines + [line])[..|lines|] == lines;
  }

  lemma KeptPush(size: nat, lines: seq<string>, line: string)
    ensures Kept(size, lines + [line]) ==
            if |Layout(Kept(size, lines))| + |line| < size then Kept(size, lines) + [line] else Kept(size, lines)
  {
    assert (lines + [line])[..|lines|] == lines;
  }

  /** The stored bytes stay below the size of the buffer, whatever comes in. */
  lemma {:induction false} UsedBelowSize(size: nat, lines: seq<string>)
    requires NonEmpty(lines)
    ensures var kept := Kept(size, lines);
            && NonEmpty(kept) && (kept == [] || |Layout(kept)| < size) && |kept| <= |lines|
  {
    if lines != [] {
      var n := |lines| - 1;
      UsedBelowSize(size, lines[..n]);
      var before := Kept(size, lines[..n]);
      LayoutPush(before, lines[n]);
      hide Layout;
    }
  }

  /** Nothing is skipped when the whole response fits. */
  lemma {:induction false} KeepsAll(size: nat, lines: seq<string>)
    requires NonEmpty(lines) && |Layout(lines)| < size
    ensures Kept(size, lines) == lines
  {
    if lines != [] {
      var n := |lines| - 1;
      assert lines == lines[..n] + [lines[n]];
      LayoutPush(lines[..n], lines[n]);
      KeepsAll(size, lines[..n]);
    }
  }

  /** A response is stored whole exactly when it is shorter than the buffer. */
  lemma KeptWhole(size: nat, lines: seq<string>)
    requires NonEmpty(lines)
    ensures Kept(size, lines) == lines <==> lines == [] || |Layout(lines)| < size
  {
    hide Layout;
    UsedBelowSize(size, lines);
    if lines != [] && |Layout(lines)| < size {
      KeepsAll(size, lines);
    }
  }

  // ---- the end of a response ----

  datatype Verdict = Success | Failed | More

  /** The string functions see a line up to its first NUL. */
  function Seen(line: string): string {
    TextOf(Cut(line) + [NUL])
  }

  /** What a line means for a response that waits for `lineNum` lines (0: for "OK") and now has `count`. */
  function Judge(lineNum: nat, count: nat, line: string): Verdict {
    if "OK" <= Cut(line) && lineNum == 0 then Success
    else if Contains(Seen(line), "ERROR") || "FAIL" <= Cut(line) then Failed
    else if count == lineNum && lineNum != 0 then Success
    else More
  }

  // ---- the end of a response, letter by letter ----

  /** The line begins with "OK" and has at least one byte more. */
  predicate SaysOk(line: string) {
    |line| > 2 && line[0] == 'O' && line[1] == 'K'
  }

  /** At `p`, before the last byte and with no NUL before it, the line has "ERROR". */
  predicate ErrorAt(line: string, p: nat) {
    p + 5 < |line| && line[p..p + 5] == "ERROR" && forall k :: 0 <= k < p ==> line[k] != NUL
  }

  /** The line has such an "ERROR", or begins with "FAIL" and has at least one byte more. */
  ghost predicate SaysError(line: string) {
    || (exists p :: ErrorAt(line, p))
    || (|line| > 4 && line[0] == 'F' && line[1] == 'A' && line[2] == 'I' && line[3] == 'L')
  }

  lemma CutBegins(line: string)
    ensures "OK" <= Cut(line) <==> SaysOk(line)
    ensures "FAIL" <= Cut(line) <==>
            |line| > 4 && line[0] == 'F' && line[1] == 'A' && line[2] == 'I' && line[3] == 'L'
  {
    assert "OK"[0] == 'O' && "OK"[1] == 'K';
    assert "FAIL"[0] == 'F' && "FAIL"[1] == 'A' && "FAIL"[2] == 'I' && "FAIL"[3] == 'L';
  }

  lemma SeenPart(line: string)
    requires line != ""
    ensures Seen(line) <= line && |Seen(line)| < |line| && NUL !in Seen(line)
    ensures |Seen(line)| + 1 == |line| || line[|Seen(line)|] == NUL
  {
    var c := Cut(line) + [NUL];
    StrChrIsFirst(c, 0, NUL);
    assert c[|line| - 1] == NUL;
  }

  lemma SeenError(line: string)
    requires line != ""
    ensures Contains(Seen(line), "ERROR") <==> exists p :: ErrorAt(line, p)
  {
    var seen := Seen(line);
    SeenPart(line);
    ContainsExactly(seen, "ERROR");
    hide Contains, Seen;
    forall p: nat | StandsAt(seen, p, "ERROR") ensures ErrorAt(line, p) {
      assert line[p..p + 5] == seen[p..p + 5];
    }
    forall p: nat | ErrorAt(line, p) ensures StandsAt(seen, p, "ERROR") {
      LettersAt(line, p);
      assert |seen| >= p + 5;
      assert line[p..p + 5] == seen[p..p + 5];
    }
  }

  lemma LettersAt(line: string, p: nat)
    requires ErrorAt(line, p)
    ensures forall k :: 0 <= k < p + 5 ==> line[k] != NUL
  {
    forall k | p <= k < p + 5 ensures line[k] != NUL {
      assert line[k] == line[p..p + 5][k - p] == "ERROR"[k - p];
    }
  }

  /**
   * A line ends a response with success if it says OK to a command that waits for that, or if it brings the count to
   * the number waited for and says no error; with failure if it says an error otherwise; and no other line ends it.
   */
  lemma JudgeExactly(lineNum: nat, count: nat, line: string)
    requires line != ""
    ensures Judge(lineNum, count, line) == Success <==>
            (lineNum == 0 && SaysOk(line)) || (lineNum > 0 && count == lineNum && !SaysError(line))
    ensures Judge(lineNum, count, line) == Failed <==> SaysError(line) && !(lineNum == 0 && SaysOk(line))
  {
    CutBegins(line);
    SeenError(line);
    hide Cut, Seen, Contains, SaysOk, ErrorAt;
  }

  /** Some lines of the AT set, by hand. */
  lemma LinesJudged()
    ensures Judge(0, 1, "OK\r\n") == Success && Judge(0, 1, "ERROR\r\n") == Failed
    ensures Judge(2, 2, "+CME ERROR: 3\r\n") == Failed && Judge(0, 1, "FAIL\r\n") == Failed
  {
    hide Judge;
    JudgeExactly(0, 1, "OK\r\n");
    assert ErrorAt("ERROR\r\n", 0);
    JudgeExactly(0, 1, "ERROR\r\n");
    assert ErrorAt("+CME ERROR: 3\r\n", 5);
    JudgeExactly(2, 2, "+CME ERROR: 3\r\n");
    JudgeExactly(0, 1, "FAIL\r\n");
  }

  // ---- reading back ----

  /** strlen(b + p) ends here. */
  function TextAt(b: string, p: nat): string
    requires p <= |b|
  {
    b[p..StrChr(b, p, NUL)]
  }

  /** Where the walk over strings stands after `k` of them. */
  function Start(b: string, k: nat): (p: nat)
    ensures p <= |b|
  {
    if k == 0 then 0
    else
      var q := StrChr(b, Start(b, k - 1), NUL);
      if q < |b| then q + 1 else q
  }

  predicate Begins(b: string, lines: seq<string>) {
    Layout(lines) <= b
  }

  lemma {:induction false} LayoutPrefix(lines: seq<string>, k: nat)
    requires k <= |lines| && NonEmpty(lines)
    ensures Layout(lines[..k]) <= Layout(lines)
    decreases |lines|
  {
    if k < |lines| {
      var n := |lines| - 1;
      LayoutPrefix(lines[..n], k);
      assert lines[..n][..k] == lines[..k];
    } else {
      assert lines[..k] == lines;
    }
  }

  lemma PrefixOfPrefix(a: string, b: string, c: string)
    requires a <= b <= c
    ensures a <= c
  {
    assert forall k :: 0 <= k < |a| ==> a[k] == b[k] == c[k];
  }

  lemma PrefixParts(b: string, a: string, x: string)
    requires a + x + [NUL] <= b
    ensures |a| + |x| < |b| && b[|a|..|a| + |x|] == x && b[|a| + |x|] == NUL
  {
    var all := a + x + [NUL];
    assert forall k :: 0 <= k < |all| ==> all[k] == b[k];
    forall k | 0 <= k < |x| ensures b[|a| + k] == x[k] {
      assert all[|a| + k] == x[k];
    }
    assert all[|a| + |x|] == NUL;
  }

  /** The buffer holds line `k` at the end of the layout of the lines before. */
  lemma LineInBuffer(b: string, lines: seq<string>, k: nat)
    requires k < |lines| && NonEmpty(lines) && Begins(b, lines)
    ensures var p := |Layout(lines[..k])|; var q := p + |Cut(lines[k])|;
            q < |b| && b[p..q] == Cut(lines[k]) && b[q] == NUL && |Layout(lines[..k + 1])| == q + 1
  {
    assert lines[k] != "";
    LayoutPrefix(lines, k + 1);
    hide Layout, Cut, NonEmpty;
    assert lines[..k + 1] == lines[..k] + [lines[k]];
    LayoutPush(lines[..k], lines[k]);
    PrefixOfPrefix(Layout(lines[..k + 1]), Layout(lines), b);
    PrefixParts(b, Layout(lines[..k]), Cut(lines[k]));
  }

  lemma StrChrAt(b: string, p: nat, q: nat)
    requires p <= q < |b| && b[q] == NUL
    ensures StrChr(b, p, NUL) <= q
    ensures NUL !in b[p..q] ==> StrChr(b, p, NUL) == q
  {
    StrChrIsFirst(b, p, NUL);
    var r := StrChr(b, p, NUL);
    assert r < q ==> b[p..q][r - p] == NUL;
  }

  /** One string of the walk, over a NUL at `q`. */
  lemma WalkStep(b: string, k: nat, q: nat)
    requires Start(b, k) <= q < |b| && b[q] == NUL
    ensures StrChr(b, Start(b, k), NUL) <= q && Start(b, k + 1) == StrChr(b, Start(b, k), NUL) + 1
    ensures NUL !in b[Start(b, k)..q] ==> TextAt(b, Start(b, k)) == b[Start(b, k)..q] && Start(b, k + 1) == q + 1
  {
    StrChrAt(b, Start(b, k), q);
  }

  lemma LineEnd(b: string, lines: seq<string>, k: nat)
    requires k < |lines| && NonEmpty(lines) && Begins(b, lines)
    ensures |Layout(lines[..k])| < |Layout(lines[..k + 1])| <= |b| && b[|Layout(lines[..k + 1])| - 1] == NUL
  {
    hide Layout, Begins, NonEmpty;
    LineInBuffer(b, lines, k);
  }

  lemma WalkOn(b: string, k: nat, q: nat)
    requires Start(b, k) <= q < |b| && b[q] == NUL
    ensures StrChr(b, Start(b, k), NUL) <= q && Start(b, k + 1) <= q + 1
  {
    hide TextAt;
    WalkStep(b, k, q);
  }

  /** The walk never leaves the stored lines, whatever bytes they hold. */
  lemma {:induction false} WalkStays(b: string, lines: seq<string>, k: nat)
    requires k <= |lines| && NonEmpty(lines) && Begins(b, lines)
    ensures Start(b, k) <= |Layout(lines[..k])|
    ensures k < |lines| ==> StrChr(b, Start(b, k), NUL) < |b|
    decreases k
  {
    assert Start(b, 0) == 0;
    hide Layout, Begins, NonEmpty, Start, StrChr;
    if k > 0 {
      WalkStays(b, lines, k - 1);
      LineEnd(b, lines, k - 1);
      WalkOn(b, k - 1, |Layout(lines[..k])| - 1);
    }
    if k < |lines| {
      NextEnd(b, lines, k);
    }
  }

  lemma NextEnd(b: string, lines: seq<string>, k: nat)
    requires k < |lines| && NonEmpty(lines) && Begins(b, lines) && Start(b, k) <= |Layout(lines[..k])|
    ensures StrChr(b, Start(b, k), NUL) < |b|
  {
    hide Layout, Begins, NonEmpty, Start, StrChr;
    LineEnd(b, lines, k);
    WalkOn(b, k, |Layout(lines[..k + 1])| - 1);
  }

  /** Standing at line `k`, the walk reads it and goes to the next. */
  lemma WalkLine(b: string, lines: seq<string>, k: nat)
    requires k < |lines| && NonEmpty(lines) && Begins(b, lines) && NUL !in Cut(lines[k])
    requires Start(b, k) == |Layout(lines[..k])|
    ensures TextAt(b, Start(b, k)) == Cut(lines[k]) && Start(b, k + 1) == |Layout(lines[..k + 1])|
  {
    hide Layout, Begins, NonEmpty, Start, TextAt, Cut;
    LineInBuffer(b, lines, k);
    WalkStep(b, k, |Layout(lines[..k + 1])| - 1);
  }

  /** Without NUL in the lines the walk stands at the lines. */
  lemma {:induction false} WalkExact(b: string, lines: seq<string>, k: nat)
    requires k <= |lines| && NonEmpty(lines) && Begins(b, lines) && NulFree(lines)
    ensures Start(b, k) == |Layout(lines[..k])|
    ensures k < |lines| ==> TextAt(b, Start(b, k)) == Cut(lines[k])
    decreases k
  {
    if k == 0 {
      assert Start(b, k) == |Layout(lines[..k])|;
    } else {
      hide Layout, Begins, NonEmpty, Start, TextAt;
      WalkExact(b, lines, k - 1);
      WalkLine(b, lines, k - 1);
    }
    hide Layout, Begins, NonEmpty, Start, TextAt;
    if k < |lines| {
      WalkLine(b, lines, k);
    }
  }

  /** Reading back gives every stored line without its last byte, exactly when none of them holds a NUL. */
  lemma ReadsBack(b: string, lines: seq<string>)
    requires NonEmpty(lines) && Begins(b, lines)
    ensures (forall k :: 0 <= k < |lines| ==> TextAt(b, Start(b, k)) == Cut(lines[k])) <==> NulFree(lines)
  {
    hide Start, Begins;
    if NulFree(lines) {
      forall k | 0 <= k < |lines| ensures TextAt(b, Start(b, k)) == Cut(lines[k]) {
        WalkExact(b, lines, k);
      }
    }
    forall k | 0 <= k < |lines| ensures NUL !in TextAt(b, Start(b, k)) {
      StrChrIsFirst(b, Start(b, k), NUL);
    }
  }

  /** The first of `n` strings from number `k` on that contains the keyword, or `n`. */
  function Lookup(b: string, keyword: string, k: nat, n: nat): (r: nat)
    requires k <= n
    ensures k <= r <= n
    decreases n - k
  {
    if k == n || Contains(TextAt(b, Start(b, k)), keyword) then k else Lookup(b, keyword, k + 1, n)
  }

  /** The first stored line that contains the keyword, or the number of lines. */
  function FirstLine(lines: seq<string>, keyword: string): (r: nat)
    ensures r <= |lines|
  {
    if lines == [] || Contains(Cut(lines[0]), keyword) then 0 else 1 + FirstLine(lines[1..], keyword)
  }

  lemma {:induction false} LookupIsFirst(b: string, lines: seq<string>, keyword: string, k: nat)
    requires k <= |lines| && NonEmpty(lines) && Begins(b, lines) && NulFree(lines)
    ensures Lookup(b, keyword, k, |lines|) == k + FirstLine(lines[k..], keyword)
    decreases |lines| - k
  {
    hide Contains, Start, Begins, NulFree, NonEmpty;
    if k < |lines| {
      WalkExact(b, lines, k);
      LookupIsFirst(b, lines, keyword, k + 1);
      assert lines[k..][1..] == lines[k + 1..] && lines[k..][0] == lines[k];
    }
  }

  /**
   * What is stored can be found: after any lines, misfits skipped, line number `k` is the k-th kept line
   * without its last byte, and a keyword finds the first kept line that contains it.
   */
  lemma StoreThenLookup(size: nat, received: seq<string>, b: string, keyword: string)
    requires NonEmpty(received) && Begins(b, Kept(size, received)) && NulFree(Kept(size, received))
    ensures var kept := Kept(size, received);
            && (kept == [] || |Layout(kept)| < size)
            && (forall k :: 0 <= k < |kept| ==> TextAt(b, Start(b, k)) == Cut(kept[k]))
            && Lookup(b, keyword, 0, |kept|) == FirstLine(kept, keyword)
  {
    UsedBelowSize(size, received);
    hide Kept, Start, Begins, NulFree, NonEmpty, Lookup, FirstLine;
    var kept := Kept(size, received);
    ReadsBack(b, kept);
    LookupIsFirst(b, kept, keyword, 0);
    assert kept[0..] == kept;
  }

  // ---- the response object ----

  class Response {
    const buf: array<char>
    const bufSize: nat
    const lineNum: nat
    var lineCounts: nat

    constructor (buf: array<char>, lineNum: nat)
      ensures this.buf == buf && bufSize == buf.Length && this.lineNum == lineNum && lineCounts == 0
    {
      this.buf, bufSize, this.lineNum, lineCounts := buf, buf.Length, lineNum, 0;
    }

    /** The finished response holds these lines. */
    ghost predicate Holds(lines: seq<string>)
      reads this, buf
    {
      lineCounts == |lines| && NonEmpty(lines) && Begins(buf[..], lines)
    }

    /** at_resp_get_line: a position in `buf`. */
    method GetLine(respLine: int, ghost lines: seq<string>) returns (line: Option<nat>)
      requires Holds(lines)
      ensures line == if 1 <= respLine <= lineCounts then Some(Start(buf[..], respLine - 1)) else None
      ensures 1 <= respLine <= |lines| && NulFree(lines) ==> TextAt(buf[..], line.value) == Cut(lines[respLine - 1])
    {
      hide Begins, NonEmpty, NulFree, TextAt;
      if respLine > lineCounts || respLine <= 0 {
        return None;
      }
      ghost var b := buf[..];
      var p := 0;
      var i := 1;
      while i <= lineCounts
        invariant 1 <= i <= respLine && p == Start(b, i - 1) && b == buf[..]
      {
        WalkStays(b, lines, i - 1);
        if respLine == i {
          if NulFree(lines) {
            WalkExact(b, lines, i - 1);
          }
          return Some(p);
        }
        p := StrChr(buf[..], p, NUL) + 1;
        i := i + 1;
      }
      assert false;
    }

    /** at_resp_get_line_by_kw */
    method GetLineByKeyword(keyword: string, ghost lines: seq<string>) returns (line: Option<nat>)
      requires Holds(lines)
      ensures var k := Lookup(buf[..], keyword, 0, lineCounts);
              line == if k < lineCounts then Some(Start(buf[..], k)) else None
      ensures NulFree(lines) ==>
                var k := FirstLine(lines, keyword);
                line.Some? == (k < |lines|) && (line.Some? ==> TextAt(buf[..], line.value) == Cut(lines[k]))
    {
      hide Begins, NonEmpty, NulFree, TextAt, FirstLine, Contains;
      ghost var b := buf[..];
      var p := 0;
      var i := 0;
      if NulFree(lines) {
        LookupIsFirst(b, lines, keyword, 0);
        assert lines[0..] == lines;
      }
      while i < lineCounts
        invariant i <= lineCounts && p == Start(b, i) && b == buf[..]
        invariant Lookup(b, keyword, 0, lineCounts) == Lookup(b, keyword, i, lineCounts)
      {
        WalkStays(b, lines, i);
        if Contains(TextAt(buf[..], p), keyword) {
          if NulFree(lines) {
            WalkExact(b, lines, i);
          }
          return Some(p);
        }
        p := StrChr(buf[..], p, NUL) + 1;
        i := i + 1;
      }
      line := None;
    }
  }

  // ---- the parser ----

  lemma CutText(b: array<char>, n: nat, line: string)
    requires 0 < n == |line| <= b.Length && b[n - 1] == NUL && forall k :: 0 <= k < n - 1 ==> b[k] == line[k]
    ensures b[..n] == Cut(line) + [NUL]
  {
  }

  lemma CutSeen(b: array<char>, line: string)
    requires 0 < |line| <= b.Length && b[|line| - 1] == NUL && forall k :: 0 <= k < |line| - 1 ==> b[k] == line[k]
    ensures b[..|line| - 1] == Cut(line)
  {
  }

  lemma PrefixPush(before: string, after: string, a: string, x: string)
    requires a <= before && |before| == |after| && |a| + |x| <= |after|
    requires forall k :: 0 <= k < |a| ==> after[k] == before[k]
    requires forall k :: 0 <= k < |x| ==> after[|a| + k] == x[k]
    ensures a + x <= after
  {
    forall k | 0 <= k < |a| + |x| ensures (a + x)[k] == after[k] {
      if k < |a| {
        assert a[k] == before[k];
      } else {
        assert after[|a| + (k - |a|)] == x[k - |a|];
      }
    }
  }

  /** A line copied behind the lines of a buffer. */
  lemma BeginsPush(before: string, after: string, lines: seq<string>, line: string)
    requires line != "" && Begins(before, lines) && |after| == |before| && |Layout(lines)| + |line| <= |after|
    requires var p := |Layout(lines)|;
             && (forall k :: 0 <= k < p ==> after[k] == before[k])
             && (forall k :: 0 <= k < |line| ==> after[p + k] == (Cut(line) + [NUL])[k])
    ensures Begins(after, lines + [line])
  {
    LayoutPush(lines, line);
    hide Layout;
    PrefixPush(before, after, Layout(lines), Cut(line) + [NUL]);
    ConcatAssoc(Layout(lines), Cut(line), [NUL]);
  }

  /** memcmp at the start of the zero-filled receive buffer. */
  lemma PrefixSeen(b: string, line: string, x: string)
    requires 0 < |line| <= |b| && b[..|line| - 1] == Cut(line) && b[|line| - 1] == NUL
    requires |x| <= |b| && NUL !in x
    ensures b[..|x|] == x <==> x <= Cut(line)
  {
    if |x| < |line| {
      assert b[..|line| - 1][..|x|] == b[..|x|];
    } else {
      assert b[..|x|][|line| - 1] == NUL;
    }
  }

  /** strstr in the receive buffer. */
  lemma TextSeen(b: string, line: string)
    requires 0 < |line| <= |b| && b[..|line| - 1] == Cut(line) && b[|line| - 1] == NUL
    ensures TextOf(b) == Seen(line)
  {
    var c := Cut(line) + [NUL];
    StrChrIsFirst(c, 0, NUL);
    var q := StrChr(c, 0, NUL);
    assert c[|line| - 1] == NUL;
    assert q <= |line| - 1;
    assert c == b[..|line|];
    assert b[..q] == c[..q] && b[q] == c[q];
    assert NUL !in c[..q];
    TextOfIs(b, c[..q]);
  }

  datatype Status = RespOk | RespError | RespBuffFull | RespTimeout

  /** client_parser: its locals and the part of the client it shares with the callers. */
  class Parser {
    const receiver: Receiver
    var resp: Response?
    var respStatus: Status
    var respNotice: bool
    var respBufLen: nat
    var lineCounts: nat
    /** The lines of the current response so far. */
    ghost var seen: seq<string>

    /** What a run without timeouts keeps: the installed response begins with what is kept of the lines seen. */
    ghost predicate Valid()
      reads this, receiver, receiver.ring, receiver.ring.buffer, receiver.recvBuffer, resp,
            if resp != null then {resp.buf} else {}
    {
      && receiver.Valid() && NonEmpty(seen)
      && if resp == null then seen == [] && respBufLen == 0 && lineCounts == 0
         else
           && resp.buf != receiver.recvBuffer && resp.buf != receiver.ring.buffer && resp.bufSize == resp.buf.Length
           && var kept := Kept(resp.bufSize, seen);
              respBufLen == |Layout(kept)| && lineCounts == |kept| && Begins(resp.buf[..], kept)
    }

    constructor (receiver: Receiver)
      requires receiver.Valid()
      ensures Valid() && this.receiver == receiver && resp == null && !respNotice
    {
      this.receiver := receiver;
      resp, respStatus, respNotice, respBufLen, lineCounts, seen := null, RespOk, false, 0, 0, [];
    }

    /** at_obj_exec_cmd, before the command is sent: the lock holder installs its response. */
    method Install(r: Response)
      requires Valid() && resp == null
      requires r.buf != receiver.recvBuffer && r.buf != receiver.ring.buffer && r.bufSize == r.buf.Length
      modifies this`resp, this`respStatus, r`lineCounts
      ensures Valid() && resp == r && seen == [] && respStatus == RespOk && r.lineCounts == 0
    {
      r.lineCounts := 0;
      respStatus := RespOk;
      resp := r;
    }

    /** The line goes into the response buffer if it fits. */
    method Store(ghost line: string)
      requires Valid() && resp != null && receiver.curRecvLen > 0 && line == receiver.recvBuffer[..receiver.curRecvLen]
      modifies this`respStatus, this`respBufLen, this`lineCounts, this`seen, receiver.recvBuffer, resp.buf
      ensures Valid() && seen == old(seen) + [line]
      ensures receiver.recvBuffer[..] == old(receiver.recvBuffer[..])[receiver.curRecvLen - 1 := NUL]
      ensures respStatus ==
              if |Kept(resp.bufSize, seen)| > |Kept(resp.bufSize, old(seen))| then old(respStatus) else RespBuffFull
    {
      hide Layout, Kept, Cut, Begins;
      ghost var kept := Kept(resp.bufSize, seen);
      ghost var before := resp.buf[..];
      LayoutPush(kept, line);
      KeptPush(resp.bufSize, seen, line);
      var n := receiver.curRecvLen;
      receiver.recvBuffer[n - 1] := NUL;
      seen := seen + [line];
      CutText(receiver.recvBuffer, n, line);
      if respBufLen + n < resp.bufSize {
        CopyIn(resp.buf, respBufLen, receiver.recvBuffer[..n]);
        BeginsPush(before, resp.buf[..], kept, line);
        respBufLen := respBufLen + n;
        lineCounts := lineCounts + 1;
      } else {
        respStatus := RespBuffFull;
      }
    }

    /** The checks of the received line: memcmp and strstr on the receive buffer. */
    method Check(lineNum: nat, ghost line: string) returns (verdict: Verdict)
      requires var b := receiver.recvBuffer[..];
               4 <= |b| && 0 < |line| <= |b| && b[..|line| - 1] == Cut(line) && b[|line| - 1] == NUL
      ensures verdict == Judge(lineNum, lineCounts, line)
      ensures verdict == Success <==>
              (lineNum == 0 && SaysOk(line)) || (lineNum > 0 && lineCounts == lineNum && !SaysError(line))
      ensures verdict == Failed <==> SaysError(line) && !(lineNum == 0 && SaysOk(line))
    {
      JudgeExactly(lineNum, lineCounts, line);
      hide Contains, Cut, TextOf, Seen, SaysOk, SaysError;
      var b := receiver.recvBuffer[..];
      PrefixSeen(b, line, "OK");
      PrefixSeen(b, line, "FAIL");
      TextSeen(b, line);
      assert receiver.recvBuffer[..2] == b[..2] && receiver.recvBuffer[..4] == b[..4];
      if receiver.recvBuffer[..2] == "OK" && lineNum == 0 {
        return Success;
      } else if Contains(TextOf(receiver.recvBuffer[..]), "ERROR") || receiver.recvBuffer[..4] == "FAIL" {
        return Failed;
      } else if lineCounts == lineNum && lineNum != 0 {
        return Success;
      }
      verdict := More;
    }

    /**
     * What client_parser does with a line: a matching table entry takes it, else the installed response does,
     * and the last line of a response hands the response back to the caller.
     */
    method HandleLine(ghost line: string) returns (urc: Option<nat>)
      requires Valid() && receiver.curRecvLen > 0 && line == receiver.recvBuffer[..receiver.curRecvLen]
      requires 4 <= receiver.recvBuffer.Length
      modifies this, receiver.recvBuffer, if resp != null then {resp, resp.buf} else {}
      ensures Valid() && receiver.urcTable == old(receiver.urcTable)
      ensures var i := UrcOf(receiver.urcTable, line);
              urc == if i < |receiver.urcTable| then Some(i) else None
      ensures urc.Some? || old(resp) == null ==>
                resp == old(resp) && seen == old(seen) && respStatus == old(respStatus) && respNotice == old(respNotice)
      ensures urc.None? && old(resp) != null ==>
                var r := old(resp);
                var all := old(seen) + [line];
                var kept := Kept(r.bufSize, all);
                var verdict := Judge(r.lineNum, |kept|, line);
                && Begins(r.buf[..], kept)
                && (verdict.More? ==>
                      && resp == r && seen == all && respNotice == old(respNotice) && r.lineCounts == old(r.lineCounts)
                      && respStatus == if |kept| > |Kept(r.bufSize, old(seen))| then old(respStatus) else RespBuffFull)
                && (!verdict.More? ==>
                      && resp == null && respNotice && r.Holds(kept)
                      && respStatus == if verdict.Success? then RespOk else RespError)
      ensures urc.None? && old(resp) != null ==>
                var n := old(resp).lineNum;
                var count := |Kept(old(resp).bufSize, old(seen) + [line])|;
                && (resp == null <==> (n == 0 && SaysOk(line)) || SaysError(line) || (n > 0 && count == n))
                && (resp == null ==>
                      && (respStatus == RespError <==> SaysError(line) && !(n == 0 && SaysOk(line)))
                      && (respStatus == RespOk <==> !SaysError(line) || (n == 0 && SaysOk(line))))
    {
      hide Judge, Kept, Layout, UrcOf, Cut, SaysOk, SaysError;
      var i := receiver.GetUrcObj();
      if i < |receiver.urcTable| {
        return Some(i);
      }
      urc := None;
      if resp == null {
        return;
      }
      var r := resp;
      Store(line);
      ghost var all := seen;
      UsedBelowSize(r.bufSize, all);
      CutSeen(receiver.recvBuffer, line);
      var verdict := Check(r.lineNum, line);
      if verdict.More? {
        return;
      }
      respStatus := if verdict.Success? then RespOk else RespError;
      r.lineCounts := lineCounts;
      resp := null;
      respNotice := true;
      respBufLen := 0;
      lineCounts := 0;
      seen := [];
    }
  }
}
