/** JSON texts as trees with their white space, and what the member scanner sees of them. */
module JsonTree {
  import opened CStrings
  import opened Decimal
  import opened JsonScan

  /** `exp` is the exponent of a number; an array's members have no key. */
  datatype Value =
    | Str(text: string)
    | Num(shown: string, exp: string)
    | Lit(text: string)
    | Block(shape: Kind, ws: string, members: Members)

  datatype Members =
    | Nil
    | Cons(w1: string, key: string, w2: string, w3: string, val: Value, w4: string, tail: Members)

  function Text(v: Value): string
    decreases v
  {
    match v
    case Str(text) => "\"" + text + "\""
    case Num(shown, exp) => shown + exp
    case Lit(text) => text
    case Block(shape, ws, members) => [Opening(shape)] + ws + MembersText(shape, members) + [Closing(shape)]
  }

  function MembersText(shape: Kind, ms: Members): string
    decreases ms
  {
    match ms
    case Nil => ""
    case Cons(w1, key, w2, w3, val, w4, tail) =>
      w1 + Label(shape, key, w2, w3) + Text(val) + (w4 + Comma(tail)) + MembersText(shape, tail)
  }

  function Comma(tail: Members): string {
    if tail.Nil? then "" else ","
  }

  function Label(shape: Kind, key: string, w2: string, w3: string): string {
    if shape.JsObject? then "\"" + key + "\"" + Gap(w2, w3) else ""
  }

  function Gap(w2: string, w3: string): string {
    w2 + ":" + w3
  }

  /** The part of a value's text the scanner reports: the inside of a string, a number without its exponent. */
  function Seen(v: Value): string {
    match v
    case Str(text) => text
    case Num(shown, _) => shown
    case _ => Text(v)
  }

  /** The text the scanner passes to find the end of the value. */
  function Core(v: Value): string {
    match v case Num(shown, _) => shown case _ => Text(v)
  }

  function KindOfValue(v: Value): Kind {
    match v
    case Str(_) => JsString
    case Num(_, _) => JsNumber
    case Lit(text) => if text in {"null", "NULL"} then JsNull else JsBoolean
    case Block(shape, _, _) => shape
  }

  predicate IsBlank(w: string) {
    forall k :: 0 <= k < |w| ==> w[k] in {' ', '\t', '\n', '\r'}
  }

  predicate IsNumberText(shown: string, exp: string) {
    && shown != "" && (shown[0] == '-' || '0' <= shown[0] <= '9')
    && (forall k :: 1 <= k < |shown| ==> '0' <= shown[k] <= '9' || shown[k] == '.')
    && (exp != "" ==> exp[0] in {'e', 'E'})
    && (forall k :: 0 <= k < |exp| ==> '0' <= exp[k] <= '9' || exp[k] in {'e', 'E', '+', '-'})
  }

  predicate IsLiteral(text: string) {
    text in {"true", "TRUE", "false", "FALSE", "null", "NULL"}
  }

  /** No mark of this shape. */
  predicate NoMark(text: string, shape: Kind) {
    forall k :: 0 <= k < |text| ==> text[k] != Opening(shape) && text[k] != Closing(shape)
  }

  /** The depth of the marks after a text, strings and all, or none when it closes more than is open. */
  function Walk(x: string, depth: nat, shape: Kind): Option<nat> {
    if x == "" then Some(depth)
    else if x[0] == Closing(shape) then if depth == 0 then None else Walk(x[1..], depth - 1, shape)
    else if x[0] == Opening(shape) then Walk(x[1..], depth + 1, shape)
    else Walk(x[1..], depth, shape)
  }

  /** Counted without a look at quotes, the marks of this shape match. */
  predicate Balanced(x: string, shape: Kind) {
    Walk(x, 0, shape) == Some(0)
  }

  /** The grammar of RFC 8259, with escape-free strings. */
  predicate Grammar(v: Value)
    decreases v
  {
    match v
    case Str(text) => '"' !in text
    case Num(shown, exp) => IsNumberText(shown, exp)
    case Lit(text) => IsLiteral(text)
    case Block(shape, ws, members) => (shape.JsObject? || shape.JsArray?) && IsBlank(ws) && GrammarMembers(members)
  }

  predicate GrammarMembers(ms: Members)
    decreases ms
  {
    ms.Cons? ==>
      && IsBlank(ms.w1) && IsBlank(ms.w2) && IsBlank(ms.w3) && IsBlank(ms.w4)
      && '"' !in ms.key && Grammar(ms.val) && GrammarMembers(ms.tail)
  }

  /**
   * A value the scanner can pass: in a nested object the braces match, strings included, and in an array the
   * brackets; in an object all the way down, in an array as a whole.
   */
  predicate WellFormed(v: Value)
    decreases v
  {
    match v
    case Block(shape, ws, members) =>
      && (shape.JsObject? || shape.JsArray?) && IsBlank(ws) && Balanced(InsideText(v), shape)
      && if shape.JsObject? then WellFormedMembers(members) else GrammarMembers(members)
    case _ => Grammar(v)
  }

  predicate WellFormedMembers(ms: Members)
    decreases ms
  {
    ms.Cons? ==>
      && IsBlank(ms.w1) && IsBlank(ms.w2) && IsBlank(ms.w3) && IsBlank(ms.w4)
      && '"' !in ms.key && WellFormed(ms.val) && WellFormedMembers(ms.tail)
  }

  /** A value the scanner takes whole: in an object or array the marks match, whatever is nested in it. */
  predicate Whole(v: Value) {
    match v
    case Block(shape, _, _) => (shape.JsObject? || shape.JsArray?) && Balanced(InsideText(v), shape)
    case _ => Grammar(v)
  }

  predicate WholeMembers(ms: Members)
    decreases ms
  {
    ms.Cons? ==>
      && IsBlank(ms.w1) && IsBlank(ms.w2) && IsBlank(ms.w3) && IsBlank(ms.w4)
      && '"' !in ms.key && Whole(ms.val) && WholeMembers(ms.tail)
  }

  lemma WellFormedIsWhole(v: Value)
    requires WellFormed(v)
    ensures Whole(v)
  {
    hide Balanced, Grammar, WellFormedMembers, GrammarMembers;
  }

  lemma {:induction false} WellFormedMembersAreWhole(ms: Members)
    requires WellFormedMembers(ms)
    ensures WholeMembers(ms)
  {
    hide WellFormed, Whole, IsBlank;
    if ms.Cons? {
      WellFormedIsWhole(ms.val);
      WellFormedMembersAreWhole(ms.tail);
    }
  }

  /** What stands between the marks of an object or array. */
  function InsideText(v: Value): string
    requires v.Block?
  {
    v.ws + MembersText(v.shape, v.members)
  }

  // ---- the end of a value ----

  /** One character of the walk, and of the depth counter. */
  lemma OneStep(s: string, p: nat, x: string, depth: nat, shape: Kind)
    requires p < |s| && x != "" && s[p] == x[0]
    ensures if x[0] == Closing(shape) then
              if depth == 0 then Walk(x, depth, shape) == None && CloseAt(s, p, depth, shape) == p
              else
                && Walk(x, depth, shape) == Walk(x[1..], depth - 1, shape)
                && CloseAt(s, p, depth, shape) == CloseAt(s, p + 1, depth - 1, shape)
            else
              var next := if x[0] == Opening(shape) then depth + 1 else depth;
              && Walk(x, depth, shape) == Walk(x[1..], next, shape)
              && CloseAt(s, p, depth, shape) == CloseAt(s, p + 1, next, shape)
  {
    hide Opening, Closing;
  }

  /** The scanner's depth counter on a text: it leaves with the depth of the walk, or stops inside. */
  lemma {:induction false} CloseAtWalk(s: string, p: nat, x: string, depth: nat, shape: Kind)
    requires p <= |s| && At(s, p, x)
    ensures match Walk(x, depth, shape)
            case Some(d) => CloseAt(s, p, depth, shape) == CloseAt(s, p + |x|, d, shape)
            case None => CloseAt(s, p, depth, shape) < p + |x|
    decreases |x|
  {
    if x == "" {
      assert Walk(x, depth, shape) == Some(depth);
    } else {
      assert x == [x[0]] + x[1..];
      AtSplit(s, p, [x[0]], x[1..]);
      AtChar(s, p, x[0]);
      hide At, Opening, Closing, Walk, CloseAt;
      OneStep(s, p, x, depth, shape);
      if x[0] != Closing(shape) || depth > 0 {
        var next := if x[0] == Closing(shape) then depth - 1 else if x[0] == Opening(shape) then depth + 1 else depth;
        CloseAtWalk(s, p + 1, x[1..], next, shape);
      }
    }
  }

  /** The whole of an object or array is taken for the value exactly when the marks inside match. */
  lemma BlockMeasured(s: string, p: nat, v: Value)
    requires p <= |s| && v.Block? && (v.shape.JsObject? || v.shape.JsArray?) && At(s, p, Text(v))
    ensures p < |s| && (ValueLen(s, p, v.shape) == |Text(v)| <==> Balanced(InsideText(v), v.shape))
  {
    hide At, Walk, Text, MembersText;
    BlockLayout(s, p, v);
    var x := InsideText(v);
    var e := p + 1 + |x|;
    CloseAtWalk(s, p + 1, x, 0, v.shape);
  }

  lemma {:induction false} CloseAtIsClosing(s: string, p: nat, depth: nat, shape: Kind)
    requires p <= |s|
    ensures var e := CloseAt(s, p, depth, shape); e < |s| ==> s[e] == Closing(shape)
    decreases |s| - p
  {
    if p < |s| && !(s[p] == Closing(shape) && depth == 0) {
      var next := if s[p] == Closing(shape) then depth - 1 else if s[p] == Opening(shape) then depth + 1 else depth;
      CloseAtIsClosing(s, p + 1, next, shape);
    }
  }

  /** Whatever is taken for an object or array has matching marks inside. */
  lemma MeasuredIsBalanced(s: string, p: nat, shape: Kind)
    requires p < |s| && (shape.JsObject? || shape.JsArray?) && ValueLen(s, p, shape) > 0
    ensures var n := ValueLen(s, p, shape); n >= 2 && Balanced(s[p + 1..p + n - 1], shape)
  {
    var e := CloseAt(s, p + 1, 0, shape);
    CloseAtIsClosing(s, p + 1, 0, shape);
    DeeperCloses(s, e, shape);
    hide CloseAt, Walk;
    assert At(s, p + 1, s[p + 1..e]);
    CloseAtWalk(s, p + 1, s[p + 1..e], 0, shape);
  }

  lemma DeeperCloses(s: string, e: nat, shape: Kind)
    requires e < |s| && s[e] == Closing(shape)
    ensures forall d: nat :: d > 0 ==> CloseAt(s, e, d, shape) > e
  {
  }

  /** A value whose end does not come has length 0 and is not reported. */
  lemma Unended(s: string, p: nat)
    requires p < |s|
    ensures (forall k :: p < k < |s| ==> '0' <= s[k] <= '9' || s[k] == '.') ==> ValueLen(s, p, JsNumber) == 0
    ensures !("true" <= s[p..]) && !("TRUE" <= s[p..]) && !("false" <= s[p..]) && !("FALSE" <= s[p..]) ==>
              ValueLen(s, p, JsBoolean) == 0
    ensures !("null" <= s[p..]) && !("NULL" <= s[p..]) ==> ValueLen(s, p, JsNull) == 0
    ensures (forall k :: p < k < |s| ==> s[k] != '"') ==> ValueLen(s, p + 1, JsString) == 0
    ensures (forall k :: p < k < |s| ==> s[k] != '}') ==> ValueLen(s, p, JsObject) == 0
    ensures (forall k :: p < k < |s| ==> s[k] != ']') ==> ValueLen(s, p, JsArray) == 0
  {
    if forall k :: p < k < |s| ==> '0' <= s[k] <= '9' || s[k] == '.' {
      NumberRunsOn(s, p + 1);
    }
    CloseAtIsClosing(s, p + 1, 0, JsString);
    CloseAtIsClosing(s, p + 1, 0, JsObject);
    CloseAtIsClosing(s, p + 1, 0, JsArray);
    forall x: string ensures At(s, p, x) <==> x <= s[p..] {
      AtIsPrefix(s, p, x);
    }
    hide CloseAt, NumberEnd, At;
  }

  lemma AtIsPrefix(s: string, p: nat, x: string)
    requires p <= |s|
    ensures At(s, p, x) <==> x <= s[p..]
  {
    if At(s, p, x) {
      assert x == s[p..][..|x|];
    }
    if x <= s[p..] {
      assert forall k :: 0 <= k < |x| ==> s[p..][k] == x[k];
    }
  }

  lemma {:induction false} NumberRunsOn(s: string, p: nat)
    requires p <= |s| && forall k :: p <= k < |s| ==> '0' <= s[k] <= '9' || s[k] == '.'
    ensures NumberEnd(s, p) == |s|
    decreases |s| - p
  {
    if p < |s| {
      NumberRunsOn(s, p + 1);
    }
  }

  // Where the pieces of a text are.

  function Inside(v: Value): nat
    requires v.Block?
  {
    1 + |v.ws|
  }

  lemma BlockLayout(s: string, p: nat, v: Value)
    requires p <= |s| && v.Block? && At(s, p, Text(v))
    ensures var q := p + Inside(v);
            var r := q + |MembersText(v.shape, v.members)|;
            && r + 1 == p + |Text(v)| <= |s|
            && s[p] == Opening(v.shape) && At(s, p + 1, v.ws)
            && At(s, q, MembersText(v.shape, v.members)) && At(s, p + 1, InsideText(v))
            && s[r] == Closing(v.shape)
  {
    hide At, MembersText;
    AtSplit4(s, p, [Opening(v.shape)], v.ws, MembersText(v.shape, v.members), [Closing(v.shape)]);
    assert Text(v) == [Opening(v.shape)] + InsideText(v) + [Closing(v.shape)];
    AtSplit3(s, p, [Opening(v.shape)], InsideText(v), [Closing(v.shape)]);
    AtChar(s, p, Opening(v.shape));
    AtChar(s, p + Inside(v) + |MembersText(v.shape, v.members)|, Closing(v.shape));
  }

  function ValueOffset(shape: Kind, ms: Members): nat
    requires ms.Cons?
  {
    |ms.w1| + |Label(shape, ms.key, ms.w2, ms.w3)|
  }

  function AfterValue(shape: Kind, ms: Members): nat
    requires ms.Cons?
  {
    ValueOffset(shape, ms) + |Text(ms.val)|
  }

  function TailOffset(shape: Kind, ms: Members): nat
    requires ms.Cons?
  {
    AfterValue(shape, ms) + |ms.w4 + Comma(ms.tail)|
  }

  lemma MembersLayout(s: string, p: nat, shape: Kind, ms: Members)
    requires p <= |s| && ms.Cons? && At(s, p, MembersText(shape, ms))
    ensures p + TailOffset(shape, ms) + |MembersText(shape, ms.tail)| == p + |MembersText(shape, ms)| <= |s|
    ensures At(s, p, ms.w1) && At(s, p + |ms.w1|, Label(shape, ms.key, ms.w2, ms.w3))
    ensures At(s, p + ValueOffset(shape, ms), Text(ms.val))
    ensures At(s, p + AfterValue(shape, ms), ms.w4 + Comma(ms.tail))
    ensures At(s, p + TailOffset(shape, ms), MembersText(shape, ms.tail))
  {
    hide At;
    var named := Label(shape, ms.key, ms.w2, ms.w3);
    AtSplit4(s, p, ms.w1 + named, Text(ms.val), ms.w4 + Comma(ms.tail), MembersText(shape, ms.tail));
    AtSplit(s, p, ms.w1, named);
  }

  // ---- texts without marks ----

  lemma {:induction false} WalkConcat(x: string, y: string, depth: nat, shape: Kind)
    ensures Walk(x + y, depth, shape) ==
            match Walk(x, depth, shape) case None => None case Some(d) => Walk(y, d, shape)
    decreases |x|
  {
    if x == "" {
      assert x + y == y;
    } else {
      assert (x + y)[0] == x[0] && (x + y)[1..] == x[1..] + y;
      hide Opening, Closing;
      WalkConcat(x[1..], y, depth, shape);
      WalkConcat(x[1..], y, depth + 1, shape);
      if depth > 0 {
        WalkConcat(x[1..], y, depth - 1, shape);
      }
    }
  }

  lemma {:induction false} WalkPlain(x: string, depth: nat, shape: Kind)
    requires NoMark(x, shape)
    ensures Walk(x, depth, shape) == Some(depth)
  {
    if x != "" {
      WalkPlain(x[1..], depth, shape);
    }
  }

  /** No string or key inside carries a mark of this shape. */
  predicate Clean(v: Value, shape: Kind) {
    match v
    case Str(text) => NoMark(text, shape)
    case Num(_, _) => true
    case Lit(_) => true
    case Block(_, _, members) => CleanMembers(members, shape)
  }

  predicate CleanMembers(ms: Members, shape: Kind) {
    ms.Cons? ==> NoMark(ms.key, shape) && Clean(ms.val, shape) && CleanMembers(ms.tail, shape)
  }

  lemma BlankHasNoMark(w: string, shape: Kind)
    requires IsBlank(w) && (shape.JsObject? || shape.JsArray?)
    ensures NoMark(w, shape)
  {
  }

  lemma LabelHasNoMark(outer: Kind, key: string, w2: string, w3: string, shape: Kind)
    requires shape.JsObject? || shape.JsArray?
    requires IsBlank(w2) && IsBlank(w3) && NoMark(key, shape)
    ensures NoMark(Label(outer, key, w2, w3), shape)
  {
    BlankHasNoMark(w2, shape);
    BlankHasNoMark(w3, shape);
  }

  lemma PlainValue(v: Value, shape: Kind)
    requires !v.Block? && Grammar(v) && Clean(v, shape)
    requires shape.JsObject? || shape.JsArray?
    ensures NoMark(Text(v), shape)
  {
    match v
    case Str(text) =>
      hide IsNumberText, IsLiteral;
    case Num(shown, exp) =>
      hide IsLiteral;
      NumberHasNoMark(shown, exp, shape);
    case Lit(text) =>
      hide IsNumberText;
      LiteralHasNoMark(text, shape);
  }

  lemma NumberHasNoMark(shown: string, exp: string, shape: Kind)
    requires IsNumberText(shown, exp) && (shape.JsObject? || shape.JsArray?)
    ensures NoMark(shown + exp, shape)
  {
    forall k | 0 <= k < |shown| ensures shown[k] != Opening(shape) && shown[k] != Closing(shape) {
      assert k > 0 ==> IsNumberChar(shown[k]);
    }
  }

  lemma LiteralHasNoMark(text: string, shape: Kind)
    requires IsLiteral(text) && (shape.JsObject? || shape.JsArray?)
    ensures NoMark(text, shape)
  {
  }

  /** A whole value without marks in its strings leaves the depth alone, however deeply it is nested. */
  lemma {:induction false} WalkValue(v: Value, depth: nat, shape: Kind)
    requires (shape.JsObject? || shape.JsArray?) && Grammar(v) && Clean(v, shape)
    ensures Walk(Text(v), depth, shape) == Some(depth)
    decreases v, 1
  {
    if !v.Block? {
      PlainValue(v, shape);
      WalkPlain(Text(v), depth, shape);
    } else {
      hide Walk, Text, InsideText;
      var inner := if v.shape == shape then depth + 1 else depth;
      WalkInside(v, inner, shape);
      WalkMarks(v.shape, InsideText(v), depth, shape);
      BlockText(v);
    }
  }

  lemma {:induction false} WalkInside(v: Value, depth: nat, shape: Kind)
    requires v.Block? && (shape.JsObject? || shape.JsArray?) && Grammar(v) && CleanMembers(v.members, shape)
    ensures Walk(InsideText(v), depth, shape) == Some(depth)
    decreases v, 0
  {
    hide Walk, MembersText;
    BlankHasNoMark(v.ws, shape);
    WalkPlain(v.ws, depth, shape);
    WalkMembers(v.shape, v.members, depth, shape);
    WalkConcat(v.ws, MembersText(v.shape, v.members), depth, shape);
  }

  lemma OneMark(mark: Kind, depth: nat, shape: Kind)
    requires (mark.JsObject? || mark.JsArray?) && (shape.JsObject? || shape.JsArray?)
    ensures var inner := if mark == shape then depth + 1 else depth;
            && Walk([Opening(mark)], depth, shape) == Some(inner)
            && Walk([Closing(mark)], inner, shape) == Some(depth)
  {
    var inner := if mark == shape then depth + 1 else depth;
    var open, close := [Opening(mark)], [Closing(mark)];
    assert Walk("", depth, shape) == Some(depth) && Walk("", inner, shape) == Some(inner);
    assert open[0] == Opening(mark) && open[1..] == "";
    assert close[0] == Closing(mark) && close[1..] == "";
  }

  lemma BlockText(v: Value)
    requires v.Block?
    ensures Text(v) == [Opening(v.shape)] + InsideText(v) + [Closing(v.shape)]
  {
    hide MembersText;
  }

  /** An opening mark goes one level down, a closing one back up. */
  lemma WalkMarks(mark: Kind, x: string, depth: nat, shape: Kind)
    requires (mark.JsObject? || mark.JsArray?) && (shape.JsObject? || shape.JsArray?)
    requires var inner := if mark == shape then depth + 1 else depth; Walk(x, inner, shape) == Some(inner)
    ensures Walk([Opening(mark)] + x + [Closing(mark)], depth, shape) == Some(depth)
  {
    hide Walk, Opening, Closing;
    var open, close := [Opening(mark)], [Closing(mark)];
    OneMark(mark, depth, shape);
    WalkConcat(open, x, depth, shape);
    WalkConcat(open + x, close, depth, shape);
  }

  lemma {:induction false} WalkMembers(outer: Kind, ms: Members, depth: nat, shape: Kind)
    requires (shape.JsObject? || shape.JsArray?) && GrammarMembers(ms) && CleanMembers(ms, shape)
    ensures Walk(MembersText(outer, ms), depth, shape) == Some(depth)
    decreases ms, 0
  {
    if ms.Cons? {
      hide Walk, NoMark, IsBlank, Grammar, Clean, Text, Label;
      var tag, text, gap := Label(outer, ms.key, ms.w2, ms.w3), Text(ms.val), ms.w4 + Comma(ms.tail);
      MemberHasNoMark(outer, ms, shape);
      WalkPlain(ms.w1, depth, shape);
      WalkPlain(tag, depth, shape);
      WalkValue(ms.val, depth, shape);
      WalkPlain(gap, depth, shape);
      WalkMembers(outer, ms.tail, depth, shape);
      WalkConcat(ms.w1, tag, depth, shape);
      WalkConcat(ms.w1 + tag, text, depth, shape);
      WalkConcat(ms.w1 + tag + text, gap, depth, shape);
      WalkConcat(ms.w1 + tag + text + gap, MembersText(outer, ms.tail), depth, shape);
    }
  }

  lemma MemberHasNoMark(outer: Kind, ms: Members, shape: Kind)
    requires shape.JsObject? || shape.JsArray?
    requires ms.Cons? && GrammarMembers(ms) && CleanMembers(ms, shape)
    ensures NoMark(ms.w1, shape) && NoMark(Label(outer, ms.key, ms.w2, ms.w3), shape)
    ensures NoMark(ms.w4 + Comma(ms.tail), shape)
  {
    BlankHasNoMark(ms.w1, shape);
    LabelHasNoMark(outer, ms.key, ms.w2, ms.w3, shape);
    BlankHasNoMark(ms.w4, shape);
  }

  /** Without braces in the strings of its objects and brackets in those of its arrays a value is well formed. */
  predicate CleanInside(v: Value) {
    match v
    case Block(shape, _, members) => CleanMembers(members, shape) && (shape.JsObject? ==> CleanInsideMembers(members))
    case _ => true
  }

  predicate CleanInsideMembers(ms: Members) {
    ms.Cons? ==> CleanInside(ms.val) && CleanInsideMembers(ms.tail)
  }

  lemma {:induction false} CleanIsWellFormed(v: Value)
    requires Grammar(v) && CleanInside(v)
    ensures WellFormed(v)
    decreases v, 1
  {
    if v.Block? {
      WalkInside(v, 0, v.shape);
      hide Walk, IsBlank;
      if v.shape.JsObject? {
        CleanMembersWellFormed(v.members);
      }
    }
  }

  lemma {:induction false} CleanMembersWellFormed(ms: Members)
    requires GrammarMembers(ms) && CleanInsideMembers(ms)
    ensures WellFormedMembers(ms)
    decreases ms, 0
  {
    if ms.Cons? {
      CleanIsWellFormed(ms.val);
      CleanMembersWellFormed(ms.tail);
    }
  }

  /** A brace inside a string ends the object early: {"a":"}"} is not passed as a whole. */
  lemma BraceInString(s: string, p: nat)
    requires p <= |s| && At(s, p, "{\"a\":\"}\"}")
    ensures var v := Block(JsObject, "", Cons("", "a", "", "", Str("}"), "", Nil));
            && Grammar(v) && Text(v) == "{\"a\":\"}\"}" && !WellFormed(v)
            && p < |s| && ValueLen(s, p, JsObject) != |Text(v)|
  {
    var v := Block(JsObject, "", Cons("", "a", "", "", Str("}"), "", Nil));
    BraceLayout();
    BraceUnbalanced();
    hide Walk, MembersText, Text, InsideText, At;
    BlockMeasured(s, p, v);
  }

  lemma BraceLayout()
    ensures var v := Block(JsObject, "", Cons("", "a", "", "", Str("}"), "", Nil));
            InsideText(v) == "\"a\":\"}\"" && Text(v) == "{\"a\":\"}\"}"
  {
    assert MembersText(JsObject, Nil) == "";
  }

  lemma BraceUnbalanced()
    ensures !Balanced("\"a\":\"}\"", JsObject)
  {
    WalkPlain("\"a\":\"", 0, JsObject);
    WalkConcat("\"a\":\"", "}\"", 0, JsObject);
    assert "\"a\":\"}\"" == "\"a\":\"" + "}\"";
  }
}
