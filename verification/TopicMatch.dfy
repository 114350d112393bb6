/** Topic matching of src/mqtt/mqtt.c against section 4.7.1 of MQTT 3.1.1. */
module TopicMatch {
  import opened CStrings

  // ---- the code ----

  /** The answer of _is_topic_matched when its cursors stand at `i` in the filter and at `j` in the name. */
  predicate Matches(f: string, i: nat, n: string, j: nat)
    requires i <= |f| && j <= |n|
    decreases |f| - i
  {
    if i == |f| || j == |n| then Accepts(f, i, n, j)
    else if f[i] == '+' && n[j] == '/' then Matches(f, i + 1, n, j)
    else if n[j] == '/' && f[i] != '/' then Accepts(f, i, n, j)
    else if f[i] != '+' && f[i] != '#' && f[i] != n[j] then Accepts(f, i, n, j)
    else if f[i] == '+' then Matches(f, i + 1, n, StrChr(n, j, '/'))
    else if f[i] == '#' then Matches(f, i + 1, n, |n|)
    else Matches(f, i + 1, n, j + 1)
  }

  /** The final test, where the cursors have stopped. */
  predicate Accepts(f: string, i: nat, n: string, j: nat)
    requires i <= |f| && j <= |n|
  {
    if i == |f| then j == |n|
    else f[i] == '#' || (i + 1 < |f| && f[i + 1] == '#') || (f[i] == '+' && j > 0 && n[j - 1] == '/')
  }

  /** The final test reads the name's last character for a filter that begins with a `+`: the name has one. */
  predicate Readable(f: string, i: nat, n: string)
    requires i <= |f|
  {
    n != "" || i == |f| || f[i] != '+'
  }

  /** _is_topic_matched */
  method IsTopicMatched(topicFilter: string, topicName: string) returns (matched: bool)
    requires Readable(topicFilter, 0, topicName)
    ensures matched == Matches(topicFilter, 0, topicName, 0)
  {
    var curf: nat, curn: nat := 0, 0;
    while curf < |topicFilter| && curn < |topicName|
      invariant curf <= |topicFilter| && curn <= |topicName|
      invariant Matches(topicFilter, 0, topicName, 0) == Matches(topicFilter, curf, topicName, curn)
      decreases |topicFilter| - curf
    {
      if topicFilter[curf] == '+' && topicName[curn] == '/' {
        curf := curf + 1;
        continue;
      }
      if topicName[curn] == '/' && topicFilter[curf] != '/' {
        break;
      }
      if topicFilter[curf] != '+' && topicFilter[curf] != '#' && topicFilter[curf] != topicName[curn] {
        break;
      }
      if topicFilter[curf] == '+' {
        curn := SkipLevel(topicName, curn);
      } else if topicFilter[curf] == '#' {
        curn := |topicName| - 1;
      }
      curf := curf + 1;
      curn := curn + 1;
    }
    if curf == |topicFilter| {
      return curn == |topicName|;
    }
    if topicFilter[curf] == '#' || (curf + 1 < |topicFilter| && topicFilter[curf + 1] == '#') {
      return true;
    }
    return topicFilter[curf] == '+' && curn > 0 && topicName[curn - 1] == '/';
  }

  /** The inner loop: the cursor stops on the last character of the level. */
  method SkipLevel(n: string, from: nat) returns (curn: nat)
    requires from < |n| && n[from] != '/'
    ensures from <= curn < |n| && curn + 1 == StrChr(n, from, '/')
  {
    curn := from;
    while curn + 1 < |n| && n[curn + 1] != '/'
      invariant from <= curn < |n| && n[curn] != '/'
      invariant StrChr(n, from, '/') == StrChr(n, curn + 1, '/')
    {
      curn := curn + 1;
    }
  }

  // ---- the standard ----

  /** The levels of a filter or a name, from position `p` on. */
  function Levels(s: string, p: nat): (ls: seq<string>)
    requires p <= |s|
    ensures ls != []
    decreases |s| - p
  {
    var e := StrChr(s, p, '/');
    [s[p..e]] + if e < |s| then Levels(s, e + 1) else []
  }

  predicate IsLiteral(level: string) {
    '+' !in level && '#' !in level
  }

  /** Section 4.7.1: a wildcard is a whole level, and `#` is the last one. */
  predicate WellFormed(fl: seq<string>) {
    forall k :: 0 <= k < |fl| ==> fl[k] == "+" || (fl[k] == "#" && k == |fl| - 1) || IsLiteral(fl[k])
  }

  predicate LevelMatches(f: string, n: string) {
    f == "+" || f == n
  }

  /** Section 4.7.1: `+` takes one level, `#` any number of them, the parent level included. */
  predicate StandardMatch(fl: seq<string>, nl: seq<string>) {
    if fl == [] then nl == []
    else if fl[0] == "#" then true
    else nl != [] && LevelMatches(fl[0], nl[0]) && StandardMatch(fl[1..], nl[1..])
  }

  predicate Agree(fl: seq<string>, nl: seq<string>, k: nat)
    requires k <= |fl| && k <= |nl|
  {
    forall i :: 0 <= i < k ==> LevelMatches(fl[i], nl[i])
  }

  /** The level before `#` is a literal that the name's level only starts with: `a/#` on `ab`. */
  predicate PrefixBeforeHash(fl: seq<string>, nl: seq<string>) {
    |fl| >= 2 && fl[|fl| - 1] == "#" &&
    var k := |fl| - 2;
    k < |nl| && Agree(fl, nl, k) && fl[k] != "+" && fl[k] != nl[k] && fl[k] <= nl[k]
  }

  /** The name ends in `/` where the filter has a `+` with more than `#` behind it: `a/+/b` on `a/`. */
  predicate PlusAtTrailingSlash(fl: seq<string>, nl: seq<string>) {
    nl != [] &&
    var k := |nl| - 1;
    nl[k] == "" && k < |fl| - 1 && Agree(fl, nl, k) && fl[k] == "+" && fl[k + 1] != "#"
  }

  // ---- the code on levels ----

  /** What the code computes, level by level. */
  predicate LooseMatch(fl: seq<string>, nl: seq<string>)
    requires fl != [] && nl != []
  {
    if fl[0] == "#" then true
    else if fl[0] == "+" && nl == [""] then true
    else if LevelMatches(fl[0], nl[0]) then
      if |nl| == 1 then |fl| == 1 || fl[1] == "#"
      else |fl| > 1 && LooseMatch(fl[1..], nl[1..])
    else fl[0] <= nl[0] && |fl| > 1 && fl[1] == "#"
  }

  lemma {:induction false} LooseIsStandardOrOver(fl: seq<string>, nl: seq<string>)
    requires fl != [] && nl != [] && WellFormed(fl)
    ensures LooseMatch(fl, nl) <==>
            StandardMatch(fl, nl) || PrefixBeforeHash(fl, nl) || PlusAtTrailingSlash(fl, nl)
    decreases |fl|
  {
    if fl[0] != "#" && LevelMatches(fl[0], nl[0]) && |nl| > 1 && |fl| > 1 {
      LooseIsStandardOrOver(fl[1..], nl[1..]);
      OverTail(fl, nl);
    } else {
      LooseHere(fl, nl);
    }
  }

  lemma OverTail(fl: seq<string>, nl: seq<string>)
    requires |fl| > 1 && |nl| > 1 && LevelMatches(fl[0], nl[0])
    ensures PrefixBeforeHash(fl[1..], nl[1..]) ==> PrefixBeforeHash(fl, nl)
    ensures PlusAtTrailingSlash(fl[1..], nl[1..]) ==> PlusAtTrailingSlash(fl, nl)
  {
  }

  lemma LooseHere(fl: seq<string>, nl: seq<string>)
    requires fl != [] && nl != [] && WellFormed(fl)
    requires fl[0] == "#" || !LevelMatches(fl[0], nl[0]) || |nl| == 1 || |fl| == 1
    ensures LooseMatch(fl, nl) <==>
            StandardMatch(fl, nl) || PrefixBeforeHash(fl, nl) || PlusAtTrailingSlash(fl, nl)
  {
    if fl[0] == "#" {
    } else if !LevelMatches(fl[0], nl[0]) {
      FirstDiffers(fl, nl);
    } else if |nl| == 1 {
      LastOfName(fl, nl);
    } else {
      LastOfFilter(fl, nl);
    }
  }

  lemma FirstDiffers(fl: seq<string>, nl: seq<string>)
    requires fl != [] && nl != [] && WellFormed(fl) && fl[0] != "#" && !LevelMatches(fl[0], nl[0])
    ensures !StandardMatch(fl, nl) && !PlusAtTrailingSlash(fl, nl)
    ensures LooseMatch(fl, nl) <==> PrefixBeforeHash(fl, nl)
  {
    hide StandardMatch;
    StandardHere(fl, nl);
    assert PrefixBeforeHash(fl, nl) ==> |fl| == 2;
    if |fl| > 1 && fl[1] == "#" {
      assert |fl| == 2;
    }
  }

  lemma LastOfName(fl: seq<string>, nl: seq<string>)
    requires fl != [] && |nl| == 1 && WellFormed(fl) && fl[0] != "#" && LevelMatches(fl[0], nl[0])
    ensures !PrefixBeforeHash(fl, nl)
    ensures LooseMatch(fl, nl) <==> StandardMatch(fl, nl) || PlusAtTrailingSlash(fl, nl)
  {
    hide StandardMatch;
    StandardHere(fl, nl);
    StandardEmpty(fl[1..]);
    assert nl[1..] == [] && (|fl| > 1 ==> fl[1..][0] == fl[1]);
    assert nl == [nl[0]];
  }

  lemma LastOfFilter(fl: seq<string>, nl: seq<string>)
    requires |fl| == 1 && |nl| > 1 && fl[0] != "#"
    ensures !LooseMatch(fl, nl) && !StandardMatch(fl, nl) && !PrefixBeforeHash(fl, nl) && !PlusAtTrailingSlash(fl, nl)
  {
  }

  lemma StandardHere(fl: seq<string>, nl: seq<string>)
    requires fl != [] && nl != [] && fl[0] != "#"
    ensures StandardMatch(fl, nl) <==> LevelMatches(fl[0], nl[0]) && StandardMatch(fl[1..], nl[1..])
  {
  }

  lemma StandardEmpty(fl: seq<string>)
    ensures StandardMatch(fl, []) <==> fl == [] || fl[0] == "#"
  {
  }

  // ---- from characters to levels ----

  /** A text without separators and wildcards. */
  predicate Plain(x: string) {
    IsLiteral(x) && '/' !in x
  }

  /** Equal characters of two levels are stepped over together. */
  lemma {:induction false} StepOver(f: string, i: nat, n: string, j: nat, x: string)
    requires i <= |f| && j <= |n| && At(f, i, x) && At(n, j, x) && Plain(x)
    ensures Matches(f, i, n, j) == Matches(f, i + |x|, n, j + |x|)
    decreases |x|
  {
    if x != "" {
      assert f[i + 0] == x[0] && n[j + 0] == x[0] && x[0] in x;
      assert [x[0]] + x[1..] == x;
      AtSplit(f, i, [x[0]], x[1..]);
      AtSplit(n, j, [x[0]], x[1..]);
      StepOver(f, i + 1, n, j + 1, x[1..]);
    }
  }

  /** How far two texts agree. */
  function Common(a: string, b: string): (c: nat)
    ensures c <= |a| && c <= |b| && a[..c] == b[..c]
    ensures c < |a| && c < |b| ==> a[c] != b[c]
  {
    if a == "" || b == "" || a[0] != b[0] then 0
    else
      var c := 1 + Common(a[1..], b[1..]);
      assert a[..c] == [a[0]] + a[1..][..c - 1] && b[..c] == [b[0]] + b[1..][..c - 1];
      c
  }

  lemma LevelText(s: string, p: nat)
    requires p <= |s|
    ensures var e := StrChr(s, p, '/');
            var x := Levels(s, p)[0];
            |x| == e - p && '/' !in x && At(s, p, x)
  {
    StrChrIsFirst(s, p, '/');
  }

  /** The code on a literal level. */
  lemma LiteralLevel(f: string, i: nat, n: string, j: nat)
    requires i <= |f| && j <= |n|
    requires IsLiteral(Levels(f, i)[0]) && Levels(f, i)[0] == Levels(n, j)[0]
    ensures Matches(f, i, n, j) == Matches(f, StrChr(f, i, '/'), n, StrChr(n, j, '/'))
  {
    hide Levels, StrChr, At, Matches;
    LevelText(f, i);
    LevelText(n, j);
    StepOver(f, i, n, j, Levels(f, i)[0]);
  }

  /** Where a literal level and the name's level part, the walk ends. */
  lemma LiteralLevelParts(f: string, i: nat, n: string, j: nat)
    requires i <= |f| && j <= |n|
    requires IsLiteral(Levels(f, i)[0]) && Levels(f, i)[0] != Levels(n, j)[0]
    ensures Matches(f, i, n, j) <==>
            Levels(f, i)[0] <= Levels(n, j)[0] && StrChr(f, i, '/') + 1 < |f| && f[StrChr(f, i, '/') + 1] == '#'
  {
    hide Levels, StrChr, Matches, At;
    LevelText(f, i);
    LevelText(n, j);
    WalkParts(f, i, Levels(f, i)[0], n, j, Levels(n, j)[0]);
  }

  lemma WalkParts(f: string, i: nat, x: string, n: string, j: nat, y: string)
    requires i + |x| <= |f| && At(f, i, x) && Plain(x) && (i + |x| < |f| ==> f[i + |x|] == '/')
    requires j + |y| <= |n| && At(n, j, y) && '/' !in y && (j + |y| < |n| ==> n[j + |y|] == '/')
    requires x != y
    ensures Matches(f, i, n, j) <==> x <= y && i + |x| + 1 < |f| && f[i + |x| + 1] == '#'
  {
    var c := Common(x, y);
    CommonParts(x, y);
    PlainParts(x, c);
    PlainName(y, c);
    hide Matches, At, Plain, Parted, Common;
    WalkSplit(f, i, n, j, x[..c], x[c..], y[c..]);
  }

  lemma WalkSplit(f: string, i: nat, n: string, j: nat, common: string, x: string, y: string)
    requires i <= |f| && At(f, i, common + x) && Plain(common) && Plain(x)
    requires j <= |n| && At(n, j, common + y) && '/' !in y && Parted(x, y)
    requires var ef := i + |common + x|; ef <= |f| && (ef < |f| ==> f[ef] == '/')
    requires var en := j + |common + y|; en <= |n| && (en < |n| ==> n[en] == '/')
    ensures var ef := i + |common + x|; Matches(f, i, n, j) <==> x == "" && ef + 1 < |f| && f[ef + 1] == '#'
  {
    hide Matches, At, Plain, Parted;
    AtSplit(f, i, common, x);
    AtSplit(n, j, common, y);
    StepOver(f, i, n, j, common);
    PartHere(f, i + |common|, x, n, j + |common|, y);
  }

  /** One text has ended and the other has not, or they differ in their first character. */
  predicate Parted(x: string, y: string) {
    if x == "" then y != "" else y == "" || x[0] != y[0]
  }

  lemma PlainParts(x: string, c: nat)
    requires c <= |x| && Plain(x)
    ensures Plain(x[..c]) && Plain(x[c..])
  {
  }

  lemma PlainName(y: string, c: nat)
    requires c <= |y| && '/' !in y
    ensures '/' !in y[c..]
  {
  }

  lemma CommonParts(x: string, y: string)
    requires x != y
    ensures var c := Common(x, y);
            && x == x[..c] + x[c..] && y == x[..c] + y[c..] && (x <= y <==> x[c..] == "") && Parted(x[c..], y[c..])
  {
    var c := Common(x, y);
    assert x == x[..c] + x[c..] && y == y[..c] + y[c..];
    if x[c..] == "" {
      assert x <= y;
    }
  }

  lemma PartHere(f: string, i: nat, x: string, n: string, j: nat, y: string)
    requires i + |x| <= |f| && At(f, i, x) && Plain(x) && (i + |x| < |f| ==> f[i + |x|] == '/')
    requires j + |y| <= |n| && At(n, j, y) && '/' !in y && (j + |y| < |n| ==> n[j + |y|] == '/')
    requires Parted(x, y)
    ensures Matches(f, i, n, j) <==> x == "" && i + 1 < |f| && f[i + 1] == '#'
  {
    if x != "" {
      assert f[i + 0] == x[0] && x[0] in x;
      assert |x| > 1 ==> f[i + 1] == x[1] && x[1] in x;
    }
    if y != "" {
      assert n[j + 0] == y[0] && y[0] in y;
    }
  }

  /** Past a level that matched, both cursors stand at its end. */
  lemma AfterLevel(f: string, ef: nat, n: string, en: nat)
    requires ef <= |f| && en <= |n| && (ef < |f| ==> f[ef] == '/') && (en < |n| ==> n[en] == '/')
    ensures en == |n| ==> (Matches(f, ef, n, en) <==> ef == |f| || (ef + 1 < |f| && f[ef + 1] == '#'))
    ensures en < |n| && ef == |f| ==> !Matches(f, ef, n, en)
    ensures en < |n| && ef < |f| ==> Matches(f, ef, n, en) == Matches(f, ef + 1, n, en + 1)
  {
  }

  /** A hash in a well-formed filter is the whole last level. */
  lemma HashIsLast(f: string, p: nat)
    requires p <= |f| && WellFormed(Levels(f, p))
    ensures p < |f| && f[p] == '#' <==> Levels(f, p)[0] == "#"
    ensures p < |f| && f[p] == '+' <==> Levels(f, p)[0] == "+"
  {
    LevelText(f, p);
    var x := Levels(f, p)[0];
    if p < |f| && (f[p] == '#' || f[p] == '+') {
      assert x != "";
      assert x[0] == f[p + 0];
      assert x[0] in x;
    }
  }

  lemma WellFormedTail(f: string, p: nat)
    requires p <= |f| && WellFormed(Levels(f, p))
    ensures var e := StrChr(f, p, '/');
            e < |f| ==> WellFormed(Levels(f, e + 1)) && Levels(f, p)[1..] == Levels(f, e + 1)
  {
    LevelsTail(f, p);
    hide Levels, StrChr, IsLiteral;
    var e := StrChr(f, p, '/');
    if e < |f| {
      var ls := Levels(f, p);
      forall k | 0 <= k < |ls| - 1
        ensures ls[1..][k] == "+" || (ls[1..][k] == "#" && k == |ls| - 2) || IsLiteral(ls[1..][k])
      {
        assert ls[1..][k] == ls[k + 1];
      }
    }
  }

  /** The code decides the loose match, from any pair of level starts. */
  lemma {:induction false} CodeIsLoose(f: string, i: nat, n: string, j: nat)
    requires i <= |f| && j <= |n| && WellFormed(Levels(f, i))
    requires if j == 0 then Readable(f, i, n) else n[j - 1] == '/'
    ensures Matches(f, i, n, j) <==> LooseMatch(Levels(f, i), Levels(n, j))
    decreases |f| - i
  {
    hide Matches, LooseMatch, Levels, WellFormed, StrChr;
    var ef, en := StrChr(f, i, '/'), StrChr(n, j, '/');
    HashIsLast(f, i);
    WellFormedTail(f, i);
    LooseUnfold(f, i, n, j);
    if ef < |f| {
      HashIsLast(f, ef + 1);
    }
    AfterLevel(f, ef, n, en);
    if ef < |f| && en < |n| {
      CodeIsLoose(f, ef + 1, n, en + 1);
    }
    FirstLevel(f, i, n, j);
  }

  /** The loose match at one level, in terms of positions. */
  lemma LooseUnfold(f: string, i: nat, n: string, j: nat)
    requires i <= |f| && j <= |n|
    ensures var fl, nl := Levels(f, i), Levels(n, j);
            var ef, en := StrChr(f, i, '/'), StrChr(n, j, '/');
            LooseMatch(fl, nl) <==>
            if fl[0] == "#" || (fl[0] == "+" && nl[0] == "" && en == |n|) then true
            else if LevelMatches(fl[0], nl[0]) then
              if en == |n| then ef == |f| || Levels(f, ef + 1)[0] == "#"
              else ef < |f| && LooseMatch(Levels(f, ef + 1), Levels(n, en + 1))
            else fl[0] <= nl[0] && ef < |f| && Levels(f, ef + 1)[0] == "#"
  {
    hide LevelMatches;
    LevelsTail(f, i);
    LevelsTail(n, j);
    hide Levels;
  }

  lemma LevelsTail(s: string, p: nat)
    requires p <= |s|
    ensures var ls, e := Levels(s, p), StrChr(s, p, '/');
            && ls[0] == s[p..e] && (|ls| == 1 <==> e == |s|)
            && (e < |s| ==> ls[1..] == Levels(s, e + 1) && ls[1] == Levels(s, e + 1)[0])
  {
    hide StrChr;
  }

  /** The code at one level. */
  lemma FirstLevel(f: string, i: nat, n: string, j: nat)
    requires i <= |f| && j <= |n| && WellFormed(Levels(f, i))
    requires if j == 0 then Readable(f, i, n) else n[j - 1] == '/'
    ensures var fl, nl := Levels(f, i), Levels(n, j);
            var ef, en := StrChr(f, i, '/'), StrChr(n, j, '/');
            Matches(f, i, n, j) <==>
            if fl[0] == "#" || (fl[0] == "+" && nl[0] == "" && en == |n|) then true
            else if LevelMatches(fl[0], nl[0]) then Matches(f, ef, n, en)
            else fl[0] <= nl[0] && ef + 1 < |f| && f[ef + 1] == '#'
  {
    hide WellFormed;
    HashIsLast(f, i);
    var x, y := Levels(f, i)[0], Levels(n, j)[0];
    if x == "#" || x == "+" {
      WildcardLevel(f, i, n, j);
    } else {
      LiteralHead(f, i);
      if x == y {
        LiteralLevel(f, i, n, j);
      } else {
        LiteralLevelParts(f, i, n, j);
      }
    }
  }

  lemma LiteralHead(f: string, i: nat)
    requires i <= |f| && WellFormed(Levels(f, i)) && Levels(f, i)[0] != "+" && Levels(f, i)[0] != "#"
    ensures IsLiteral(Levels(f, i)[0])
  {
  }

  lemma WildcardLevel(f: string, i: nat, n: string, j: nat)
    requires i <= |f| && j <= |n| && Levels(f, i)[0] in {"#", "+"}
    requires WellFormed(Levels(f, i))
    requires if j == 0 then Readable(f, i, n) else n[j - 1] == '/'
    ensures var ef, en := StrChr(f, i, '/'), StrChr(n, j, '/');
            Matches(f, i, n, j) <==>
            Levels(f, i)[0] == "#" || (Levels(n, j)[0] == "" && en == |n|) || Matches(f, ef, n, en)
  {
    LevelText(f, i);
    LevelText(n, j);
    var x := Levels(f, i)[0];
    assert f[i + 0] == x[0];
    assert |Levels(f, i)| > 1 ==> x != "#";
  }

  // ---- main results ----

  /** Up to a level without `#`, the standard looks at one level after the other. */
  lemma {:induction false} StandardStep(fl: seq<string>, nl: seq<string>, k: nat)
    requires k <= |fl| && k <= |nl| && Agree(fl, nl, k) && forall i :: 0 <= i < k ==> fl[i] != "#"
    ensures StandardMatch(fl, nl) == StandardMatch(fl[k..], nl[k..])
    decreases k
  {
    if k > 0 {
      assert fl[1..][k - 1..] == fl[k..] && nl[1..][k - 1..] == nl[k..];
      StandardStep(fl[1..], nl[1..], k - 1);
    } else {
      assert fl[0..] == fl && nl[0..] == nl;
    }
  }

  /** What the two families add is wrong throughout. */
  lemma FamiliesAreWrong(fl: seq<string>, nl: seq<string>)
    requires WellFormed(fl) && (PrefixBeforeHash(fl, nl) || PlusAtTrailingSlash(fl, nl))
    ensures !StandardMatch(fl, nl)
  {
    if PrefixBeforeHash(fl, nl) {
      StandardStep(fl, nl, |fl| - 2);
    } else {
      var k := |nl| - 1;
      StandardStep(fl, nl, k);
      assert fl[k..][1..] == fl[k + 1..] && nl[k..][1..] == [];
    }
  }

  /**
   * The matcher accepts exactly the standard matches and two families more, of which none is a standard match.
   * For every well-formed filter and every name, save the empty one where the filter begins with `+`.
   */
  lemma MatcherExactly(f: string, n: string)
    requires Readable(f, 0, n) && WellFormed(Levels(f, 0))
    ensures Matches(f, 0, n, 0) <==>
            || StandardMatch(Levels(f, 0), Levels(n, 0))
            || PrefixBeforeHash(Levels(f, 0), Levels(n, 0))
            || PlusAtTrailingSlash(Levels(f, 0), Levels(n, 0))
    ensures Matches(f, 0, n, 0) && !StandardMatch(Levels(f, 0), Levels(n, 0)) <==>
            PrefixBeforeHash(Levels(f, 0), Levels(n, 0)) || PlusAtTrailingSlash(Levels(f, 0), Levels(n, 0))
  {
    hide *;
    var fl, nl := Levels(f, 0), Levels(n, 0);
    CodeIsLoose(f, 0, n, 0);
    LooseIsStandardOrOver(fl, nl);
    if PrefixBeforeHash(fl, nl) || PlusAtTrailingSlash(fl, nl) {
      FamiliesAreWrong(fl, nl);
    }
  }

  /** No standard match is missed. */
  lemma MatcherIsComplete(f: string, n: string)
    requires Readable(f, 0, n) && WellFormed(Levels(f, 0)) && StandardMatch(Levels(f, 0), Levels(n, 0))
    ensures Matches(f, 0, n, 0)
  {
    MatcherExactly(f, n);
  }

  /** The last level of a name is empty exactly when the name ends in a slash. */
  lemma {:induction false} LastLevelEmpty(n: string, p: nat)
    requires p <= |n| && (p == 0 ==> n != "") && (p > 0 ==> n[p - 1] == '/')
    ensures var ls := Levels(n, p); ls[|ls| - 1] == "" <==> n[|n| - 1] == '/'
    decreases |n| - p
  {
    hide Levels, StrChr;
    var e := StrChr(n, p, '/');
    var ls := Levels(n, p);
    LevelsTail(n, p);
    if e < |n| {
      LastLevelEmpty(n, e + 1);
      assert ls[|ls| - 1] == ls[1..][|ls| - 2];
    } else {
      LastLevelHere(n, p);
    }
  }

  lemma LastLevelHere(n: string, p: nat)
    requires p <= |n| && (p == 0 ==> n != "") && (p > 0 ==> n[p - 1] == '/') && StrChr(n, p, '/') == |n|
    ensures |Levels(n, p)| == 1 && (Levels(n, p)[0] == "" <==> n[|n| - 1] == '/')
  {
    StrChrIsFirst(n, p, '/');
  }

  /**
   * Without `#`, and on names that do not end in a slash or with `+` at most as the last level, the answer is
   * exact.
   */
  lemma ExactWithoutHash(f: string, n: string)
    requires n != "" && WellFormed(Levels(f, 0))
    requires var fl := Levels(f, 0); fl[|fl| - 1] != "#"
    requires
      || n[|n| - 1] != '/'
      || var fl := Levels(f, 0); forall k :: 0 <= k < |fl| - 1 ==> fl[k] != "+"
    ensures Matches(f, 0, n, 0) <==> StandardMatch(Levels(f, 0), Levels(n, 0))
  {
    hide Levels, Matches, StandardMatch;
    MatcherExactly(f, n);
    LastLevelEmpty(n, 0);
  }

  /** A filter without wildcards matches its own text only (_is_topic_equals). */
  lemma ExactWithoutWildcards(f: string, n: string)
    requires IsLiteral(f)
    ensures Matches(f, 0, n, 0) <==> f == n
  {
    var c := Common(f, n);
    forall k | 0 <= k < |f| ensures f[k] != '+' && f[k] != '#' {
      assert f[k] in f;
    }
    StepSame(f, n, c);
  }

  lemma {:induction false} StepSame(f: string, n: string, c: nat)
    requires c <= |f| && c <= |n| && f[..c] == n[..c] && (c < |f| && c < |n| ==> f[c] != n[c])
    requires forall k :: 0 <= k < |f| ==> f[k] != '+' && f[k] != '#'
    ensures Matches(f, 0, n, 0) == (f == n)
  {
    WalkSame(f, n, 0, c);
    assert f == n <==> c == |f| == |n|;
  }

  lemma {:induction false} WalkSame(f: string, n: string, p: nat, c: nat)
    requires p <= c <= |f| && c <= |n| && f[..c] == n[..c]
    requires forall k :: 0 <= k < |f| ==> f[k] != '+' && f[k] != '#'
    ensures Matches(f, p, n, p) == Matches(f, c, n, c)
    decreases c - p
  {
    if p < c {
      assert f[p] == f[..c][p] == n[p];
      WalkSame(f, n, p + 1, c);
    }
  }

  /** Both families are real: a/# takes ab, and a/+/b takes a/. */
  lemma MatcherAcceptsMore()
    ensures Matches("a/#", 0, "ab", 0) && !StandardMatch(Levels("a/#", 0), Levels("ab", 0))
    ensures Matches("a/+/b", 0, "a/", 0) && !StandardMatch(Levels("a/+/b", 0), Levels("a/", 0))
  {
    FamilyLevels();
    MatcherExactly("a/#", "ab");
    MatcherExactly("a/+/b", "a/");
  }

  lemma FamilyLevels()
    ensures Levels("a/#", 0) == ["a", "#"] && Levels("ab", 0) == ["ab"]
    ensures Levels("a/+/b", 0) == ["a", "+", "b"] && Levels("a/", 0) == ["a", ""]
  {
    hide Levels;
    LevelAt("a/#", 0, "a");
    LevelAt("a/#", 2, "#");
    LevelAt("ab", 0, "ab");
    LevelAt("a/+/b", 0, "a");
    LevelAt("a/+/b", 2, "+");
    LevelAt("a/+/b", 4, "b");
    LevelAt("a/", 0, "a");
    LevelAt("a/", 2, "");
  }

  lemma LevelAt(s: string, p: nat, x: string)
    requires p + |x| <= |s| && (p + |x| < |s| ==> s[p + |x|] == '/')
    requires forall k :: 0 <= k < |x| ==> s[p + k] == x[k] && x[k] != '/'
    ensures Levels(s, p) == [x] + if p + |x| < |s| then Levels(s, p + |x| + 1) else []
  {
    var e := p + |x|;
    forall k | p <= k < e ensures s[k] != '/' {
      assert s[p + (k - p)] == x[k - p];
    }
    StrChrSkip(s, p, e, '/');
    assert s[p..e] == x;
  }
}
