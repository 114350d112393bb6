/** In-place string edits of src/module_at/at_utils.c. */
module AtStrings {
  import opened CStrings

  /** What chr_strip leaves: each `mark` goes and the character after it stays, unexamined. */
  function Strip(s: string, mark: char): string {
    if s == "" then ""
    else if s[0] != mark then [s[0]] + Strip(s[1..], mark)
    else if |s| == 1 then ""
    else [s[1]] + Strip(s[2..], mark)
  }

  /** `e` is `t` with a mark put before some characters, and before every one that is itself the mark. */
  predicate Escapes(e: string, t: string, mark: char) {
    if t == "" then e == ""
    else
      || (|e| >= 2 && e[0] == mark && e[1] == t[0] && Escapes(e[2..], t[1..], mark))
      || (|e| >= 1 && e[0] != mark && e[0] == t[0] && Escapes(e[1..], t[1..], mark))
  }

  /** A last mark with nothing to escape. */
  predicate Dangles(e: string, mark: char) {
    if e == "" then false
    else if e[0] != mark then Dangles(e[1..], mark)
    else |e| == 1 || Dangles(e[2..], mark)
  }

  /** Stripping undoes escaping, and nothing but an escaping of the text strips to it. */
  lemma {:induction false} StripInvertsEscaping(e: string, t: string, mark: char)
    ensures Escapes(e, t, mark) <==> Strip(e, mark) == t && !Dangles(e, mark)
  {
    if e != "" && t != "" {
      if e[0] != mark {
        StripInvertsEscaping(e[1..], t[1..], mark);
        assert t == [t[0]] + t[1..];
      } else if |e| >= 2 {
        StripInvertsEscaping(e[2..], t[1..], mark);
        assert t == [t[0]] + t[1..];
      }
    }
  }

  /** The escaping that marks every character of a set. */
  function Escape(t: string, special: set<char>, mark: char): string {
    if t == "" then ""
    else (if t[0] in special then [mark, t[0]] else [t[0]]) + Escape(t[1..], special, mark)
  }

  lemma {:induction false} StripEscape(t: string, special: set<char>, mark: char)
    requires mark in special
    ensures Strip(Escape(t, special, mark), mark) == t && !Dangles(Escape(t, special, mark), mark)
  {
    if t != "" {
      StripEscape(t[1..], special, mark);
      var e := Escape(t, special, mark);
      if t[0] in special {
        assert e[2..] == Escape(t[1..], special, mark);
      } else {
        assert e[1..] == Escape(t[1..], special, mark);
      }
    }
  }

  lemma {:induction false} StripConcat(a: string, b: string, mark: char)
    requires !Dangles(a, mark)
    ensures Strip(a + b, mark) == Strip(a, mark) + Strip(b, mark)
  {
    if a == "" {
      assert a + b == b;
    } else {
      var n := if a[0] == mark then 2 else 1;
      assert n <= |a| && !Dangles(a[n..], mark);
      assert (a + b)[n..] == a[n..] + b && (a + b)[0] == a[0] && (a + b)[n - 1] == a[n - 1];
      hide Strip, Dangles;
      StripConcat(a[n..], b, mark);
      StripHead(a, mark);
      StripHead(a + b, mark);
      ConcatAssoc([a[n - 1]], Strip(a[n..], mark), Strip(b, mark));
    }
  }

  lemma {:induction false} DanglesConcat(a: string, b: string, mark: char)
    requires !Dangles(a, mark)
    ensures Dangles(a + b, mark) == Dangles(b, mark)
  {
    if a == "" {
      assert a + b == b;
    } else {
      var n := if a[0] == mark then 2 else 1;
      assert (a + b)[n..] == a[n..] + b;
      DanglesConcat(a[n..], b, mark);
    }
  }

  lemma StripHead(s: string, mark: char)
    requires s != "" && (s[0] == mark ==> |s| > 1)
    ensures var n := if s[0] == mark then 2 else 1;
            Strip(s, mark) == [s[n - 1]] + Strip(s[n..], mark)
  {
  }

  // Escaped texts, piece by piece.

  /** `e` is a complete escaping that strips to `t`. */
  predicate Unescapes(e: string, t: string, mark: char) {
    Strip(e, mark) == t && !Dangles(e, mark)
  }

  lemma UnescapesConcat(a: string, x: string, b: string, y: string, mark: char)
    requires Unescapes(a, x, mark) && Unescapes(b, y, mark)
    ensures Unescapes(a + b, x + y, mark)
  {
    StripConcat(a, b, mark);
    DanglesConcat(a, b, mark);
  }

  lemma {:induction false} UnescapesPlain(x: string, mark: char)
    requires mark !in x
    ensures Unescapes(x, x, mark)
  {
    if x != "" {
      UnescapesPlain(x[1..], mark);
    }
  }

  lemma UnescapesMarked(c: char, mark: char)
    ensures Unescapes([mark, c], [c], mark)
  {
    assert [mark, c][2..] == "";
  }

  /** An escaped quote, a text and another one. */
  lemma UnescapesQuoted(x: string)
    requires '\\' !in x
    ensures Unescapes("\\\"" + x + "\\\"", "\"" + x + "\"", '\\')
  {
    hide Unescapes;
    UnescapesMarked('"', '\\');
    UnescapesPlain(x, '\\');
    assert ['\\', '"'] == "\\\"" && ['"'] == "\"";
    UnescapesConcat("\\\"", "\"", x, x, '\\');
    UnescapesConcat("\\\"" + x, "\"" + x, "\\\"", "\"", '\\');
  }

  /**
   * What stripping leaves of a text between two escaped quotes: its marks go, but a last mark that dangles stays, as
   * it then marks the mark of the quote.
   */
  function Bared(x: string): string {
    if Dangles(x, '\\') then Strip(x[..|x| - 1], '\\') + "\\" else Strip(x, '\\')
  }

  lemma {:induction false} DanglesLast(x: string, mark: char)
    requires Dangles(x, mark)
    ensures x != "" && x[|x| - 1] == mark && !Dangles(x[..|x| - 1], mark)
  {
    var n := if x[0] == mark then 2 else 1;
    var y := x[..|x| - 1];
    if |x| > 1 {
      DanglesLast(x[n..], mark);
      assert y[0] == x[0] && y[n..] == x[n..][..|x| - n - 1];
    }
  }

  lemma BaredQuoted(x: string)
    ensures Unescapes("\\\"" + x + "\\\"", "\"" + Bared(x) + "\"", '\\')
  {
    UnescapesMarked('"', '\\');
    assert ['\\', '"'] == "\\\"" && ['"'] == "\"";
    if Dangles(x, '\\') {
      var y := x[..|x| - 1];
      DanglesLast(x, '\\');
      UnescapesMarked('\\', '\\');
      UnescapesPlain("\"", '\\');
      assert Unescapes(y, Strip(y, '\\'), '\\');
      hide Unescapes, Strip, Dangles;
      var e, t := "\\\"" + y, "\"" + Strip(y, '\\');
      UnescapesConcat("\\\"", "\"", y, Strip(y, '\\'), '\\');
      UnescapesConcat(e, t, ['\\', '\\'], ['\\'], '\\');
      UnescapesConcat(e + ['\\', '\\'], t + ['\\'], "\"", "\"", '\\');
      assert "\\\"" + x + "\\\"" == e + ['\\', '\\'] + "\"" && "\"" + Bared(x) + "\"" == t + ['\\'] + "\"" by {
        assert x == y + ['\\'] && Bared(x) == Strip(y, '\\') + "\\";
      }
    } else {
      assert Unescapes(x, Bared(x), '\\');
      hide Unescapes, Bared;
      UnescapesConcat("\\\"", "\"", x, Bared(x), '\\');
      UnescapesConcat("\\\"" + x, "\"" + Bared(x), "\\\"", "\"", '\\');
    }
  }

  lemma {:induction false} StripShorter(x: string, mark: char)
    ensures |Strip(x, mark)| <= |x| && (mark in x ==> |Strip(x, mark)| < |x|)
    ensures forall c :: c in Strip(x, mark) ==> c in x
  {
    if x != "" && (x[0] != mark || |x| > 1) {
      var n := if x[0] == mark then 2 else 1;
      StripShorter(x[n..], mark);
      StripHead(x, mark);
      hide Strip;
      assert x == x[..n] + x[n..] && x[n - 1] in x;
    }
  }

  /** A text comes through unchanged if and only if it holds no mark before its last character; else it is shorter. */
  lemma BaredExactly(x: string)
    ensures Bared(x) == x <==> x == "" || '\\' !in x[..|x| - 1]
    ensures Bared(x) != x ==> |Bared(x)| < |x|
    ensures forall c :: c in Bared(x) ==> c in x
  {
    hide Strip;
    StripShorter(x, '\\');
    if x != "" {
      var y := x[..|x| - 1];
      assert x == y + [x[|x| - 1]];
      StripShorter(y, '\\');
      if Dangles(x, '\\') {
        DanglesLast(x, '\\');
      }
      if '\\' !in y {
        UnescapesPlain(y, '\\');
        DanglesConcat(y, [x[|x| - 1]], '\\');
        if x[|x| - 1] != '\\' {
          UnescapesPlain(x, '\\');
        }
      }
    } else {
      assert Strip("", '\\') == "";
    }
  }

  /** memmove(b + to, b + from, n) */
  method MemMove(b: array<char>, to: nat, from: nat, n: nat)
    requires to <= from && from + n <= b.Length
    modifies b
    ensures b[..] == Moved(old(b[..]), to, from, n)
  {
    for i := 0 to n
      invariant forall k :: to <= k < to + i ==> b[k] == old(b[k + from - to])
      invariant forall k :: 0 <= k < to || to + i <= k < b.Length ==> b[k] == old(b[k])
    {
      b[to + i] := b[from + i];
    }
    MovedIs(old(b[..]), b[..], to, from, n);
  }

  lemma MovedIs(was: seq<char>, b: seq<char>, to: nat, from: nat, n: nat)
    requires |b| == |was| && to <= from && from + n <= |b|
    requires forall k :: to <= k < to + n ==> b[k] == was[k + from - to]
    requires forall k :: 0 <= k < to || to + n <= k < |b| ==> b[k] == was[k]
    ensures b == Moved(was, to, from, n)
  {
    assert b[..to] == was[..to];
    assert b[to..to + n] == was[from..from + n];
    assert b[to + n..] == was[to + n..];
    assert b == b[..to] + b[to..to + n] + b[to + n..];
  }

  function Moved(b: seq<char>, to: nat, from: nat, n: nat): seq<char>
    requires to <= from && from + n <= |b|
  {
    b[..to] + b[from..from + n] + b[to + n..]
  }

  /** The buffer during the walk: the text so far, NULs up to the original end, and the untouched rest. */
  ghost predicate Holding(b: seq<char>, text: string, end: nat, was: seq<char>) {
    |b| == |was| && |text| <= end < |b| && NUL !in text && b == text + Nuls(end + 1 - |text|) + was[end + 1..]
  }

  function Nuls(n: nat): (r: seq<char>)
    ensures |r| == n && forall k :: 0 <= k < n ==> r[k] == NUL
  {
    if n == 0 then [] else [NUL] + Nuls(n - 1)
  }

  lemma HoldingRead(b: seq<char>, text: string, end: nat, was: seq<char>, k: nat)
    requires Holding(b, text, end, was) && k <= end
    ensures b[k] == if k < |text| then text[k] else NUL
    ensures k < |text| ==> text[k] != NUL
    ensures TextOf(b) == text && |text| <= end
  {
    TextOfIs(b, text);
  }

  lemma HoldingMove(b: seq<char>, text: string, end: nat, was: seq<char>, k: nat)
    requires Holding(b, text, end, was) && k < |text|
    ensures Holding(Moved(b, k, k + 1, end - k), text[..k] + text[k + 1..], end, was)
  {
    var t := text[..k] + text[k + 1..];
    assert Moved(b, k, k + 1, end - k) == t + Nuls(end + 1 - |t|) + was[end + 1..];
  }

  lemma HoldingStart(b: seq<char>)
    requires StrChr(b, 0, NUL) < |b|
    ensures Holding(b, TextOf(b), StrChr(b, 0, NUL), b)
  {
    hide StrChr;
    StrChrIsFirst(b, 0, NUL);
    var end := StrChr(b, 0, NUL);
    var text := b[..end];
    assert NUL !in text;
    assert Nuls(1) == [NUL] by { assert Nuls(0) == []; }
    Rejoin(b, end);
    assert end + 1 - |text| == 1;
  }

  lemma Rejoin(b: seq<char>, end: nat)
    requires end < |b| && b[end] == NUL
    ensures b == b[..end] + [NUL] + b[end + 1..]
  {
  }

  /**
   * chr_strip. The end pointer is never moved: each move copies the old NUL along, so the walk
   * stops at the latest at the original end and nothing outside the original text is written.
   */
  method ChrStrip(b: array<char>, mark: char)
    requires StrChr(b[..], 0, NUL) < b.Length
    modifies b
    ensures TextOf(b[..]) == Strip(old(TextOf(b[..])), mark)
    ensures var end := StrChr(old(b[..]), 0, NUL); b[end] == NUL && b[end + 1..] == old(b[end + 1..])
  {
    hide StrChr, TextOf, Remaining, Moved, Holding, Strip;
    ghost var was := b[..];
    var end := StrChr(b[..], 0, NUL);
    HoldingStart(was);
    ghost var text := TextOf(was);
    HoldingRead(was, text, end, was, end);
    var str := 0;
    RemainingStart(text, mark);
    while b[str] != NUL
      invariant 0 <= str <= end < b.Length && Holding(b[..], text, end, was)
      invariant Remaining(text, str, mark) == Strip(TextOf(was), mark)
      decreases end - str
    {
      HoldingRead(b[..], text, end, was, str);
      RemainingStep(text, str, mark);
      if b[str] == mark {
        HoldingMove(b[..], text, end, was, str);
        MemMove(b, str, str + 1, end - str);
        text := text[..str] + text[str + 1..];
      }
      str := str + 1;
    }
    HoldingRead(b[..], text, end, was, str);
    HoldingEnd(b[..], text, end, was);
    RemainingEnd(text, str, mark);
  }

  lemma HoldingEnd(b: seq<char>, text: string, end: nat, was: seq<char>)
    requires Holding(b, text, end, was)
    ensures b[end] == NUL && b[end + 1..] == was[end + 1..]
  {
    HoldingRead(b, text, end, was, end);
  }

  lemma RemainingStart(text: string, mark: char)
    ensures Remaining(text, 0, mark) == Strip(text, mark)
  {
    assert text[0..] == text;
  }

  lemma RemainingEnd(text: string, str: nat, mark: char)
    requires str >= |text|
    ensures Remaining(text, str, mark) == text
  {
  }

  /** What the walk still leaves when it stands at `str` in `text`; past the end it is done. */
  ghost function Remaining(text: string, str: nat, mark: char): string {
    if str <= |text| then text[..str] + Strip(text[str..], mark) else text
  }

  lemma RemainingStep(text: string, str: nat, mark: char)
    requires str < |text|
    ensures Remaining(text, str, mark) ==
            Remaining(if text[str] == mark then text[..str] + text[str + 1..] else text, str + 1, mark)
  {
    var t := text[str..];
    if text[str] != mark {
      assert t[1..] == text[str + 1..];
      assert text[..str + 1] == text[..str] + [text[str]];
    } else {
      var next := text[..str] + text[str + 1..];
      if |t| > 1 {
        assert t[2..] == next[str + 1..];
        assert next[..str + 1] == text[..str] + [text[str + 1]];
      } else {
        assert next == text[..str];
      }
    }
  }

  /** A text without the mark at its start and at its end. */
  function Unquote(t: string, mark: char): string
    requires t != ""
  {
    var from := if t[0] == mark then 1 else 0;
    var to := if t[|t| - 1] == mark then |t| - 1 else |t|;
    if from <= to then t[from..to] else ""
  }

  /** One mark goes at each end where there is one; a lone mark goes, too. */
  lemma UnquoteExactly(x: string, mark: char)
    ensures Unquote([mark] + x + [mark], mark) == x && Unquote([mark], mark) == ""
    ensures x != "" && x[|x| - 1] != mark ==> Unquote([mark] + x, mark) == x
    ensures x != "" && x[0] != mark ==> Unquote(x + [mark], mark) == x
    ensures x != "" && x[0] != mark && x[|x| - 1] != mark ==> Unquote(x, mark) == x
  {
    assert ([mark] + x + [mark])[1..|x| + 1] == x;
    if x != "" {
      assert ([mark] + x)[1..|x| + 1] == x && (x + [mark])[0..|x|] == x && x[0..|x|] == x;
    }
  }

  /** at_strip; the buffer must hold a text that is not empty, or the end pointer lies before it. */
  method AtStrip(b: array<char>, mark: char)
    requires 0 < StrChr(b[..], 0, NUL) < b.Length && mark != NUL
    modifies b
    ensures TextOf(b[..]) == Unquote(old(TextOf(b[..])), mark)
  {
    hide StrChr, TextOf, Moved;
    ghost var was := b[..];
    ghost var text := TextOf(was);
    var end := StrChr(b[..], 0, NUL) - 1;
    TextLayout(was);
    var start := 0;
    if b[0] == mark {
      start := 1;
    }
    if b[end] == mark {
      b[end] := NUL;
    }
    ghost var left := Unquote(text, mark);
    assert start + |left| < b.Length && b[..][start..start + |left|] == left && b[start + |left|] == NUL;
    TextFrom(b[..], start, left);
    var n := StrChr(b[..], start, NUL) - start;
    ghost var before := b[..];
    MemMove(b, 0, start, n + 1);
    MovedToFront(before, start, left);
  }

  lemma TextLayout(b: seq<char>)
    requires StrChr(b, 0, NUL) < |b|
    ensures var t := TextOf(b);
            |t| == StrChr(b, 0, NUL) && NUL !in t && b[..|t|] == t && b[|t|] == NUL
  {
    StrChrIsFirst(b, 0, NUL);
  }

  lemma TextFrom(b: seq<char>, p: nat, t: string)
    requires p + |t| < |b| && b[p..p + |t|] == t && b[p + |t|] == NUL && NUL !in t
    ensures StrChr(b, p, NUL) == p + |t|
  {
    forall k | p <= k < p + |t| ensures b[k] != NUL {
      assert b[k] == t[k - p];
    }
    StrChrSkip(b, p, p + |t|, NUL);
  }

  lemma MovedToFront(b: seq<char>, p: nat, t: string)
    requires p + |t| < |b| && b[p..p + |t|] == t && b[p + |t|] == NUL && NUL !in t
    ensures TextOf(Moved(b, 0, p, |t| + 1)) == t
  {
    var moved := Moved(b, 0, p, |t| + 1);
    assert b[p..p + (|t| + 1)] == t + [NUL];
    assert moved[..|t|] == t && moved[|t|] == NUL;
    TextOfIs(moved, t);
  }
}
