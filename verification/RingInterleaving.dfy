/**
 * The ring between the receive interrupt (port/hal_at.c:37-50) and the parser: the push of one
 * byte is a single step; the pop is a test, an advance and a load; the flush resets one point, then the other, and
 * clears the slots one by one; with pushes in between.
 */
module RingInterleaving {
  import opened CStrings
  import opened RingBuffer

  /**
   * Where the reader is: in ring_buff_pop_data (ringbuff.c:80-99), or in ring_buff_flush (ringbuff.c:27-36) between
   * the two points or in its memset, which may take the slots in any order.
   */
  datatype Pc = Testing | Advancing | Loading | Resetting | Clearing(left: set<nat>)

  /**
   * `accepted` and `popped` record what went in and what came out since the points were last reset; the bytes
   * accepted whose numbers are in `spoiled` had their slots cleared under them.
   */
  datatype State = State(
    b: seq<char>, r: nat, w: nat, pc: Pc, accepted: seq<char>, popped: seq<char>, spoiled: set<nat>)

  /** The ring just after ring_buff_init. */
  predicate Init(s: State) {
    |s.b| > 0 && s.r == 0 && s.w == 0 && s.pc == Testing && s.accepted == [] && s.popped == [] && s.spoiled == {}
  }

  datatype Action =
    | Push(c: char)
    | Test
    | Advance
    | Load
    | ResetRead
    | ResetWrite
    | ClearSlot(k: nat)
    | EndFlush

  /** The interrupt pushes one byte, or finds the ring full. */
  function PushStep(s: State, c: char): State
    requires s.w < |s.b|
  {
    var w' := After(s.w, |s.b|);
    if w' == s.r then s
    else s.(b := s.b[w' := c], w := w', accepted := s.accepted + [c])
  }

  predicate Enabled(s: State, a: Action) {
    s.r < |s.b| && s.w < |s.b| &&
    match a
    case Push(_) => true
    case Test => s.pc == Testing
    case Advance => s.pc == Advancing
    case Load => s.pc == Loading
    case ResetRead => s.pc == Testing
    case ResetWrite => s.pc == Resetting
    case ClearSlot(k) => s.pc.Clearing? && k in s.pc.left && k < |s.b|
    case EndFlush => s.pc == Clearing({})
  }

  function Slots(n: nat): set<nat> {
    if n == 0 then {} else Slots(n - 1) + {n - 1}
  }

  function Next(s: State, a: Action): State
    requires Enabled(s, a)
  {
    match a
    case Push(c) => PushStep(s, c)
    case Test => if s.w == s.r then s else s.(pc := Advancing)
    case Advance => s.(r := After(s.r, |s.b|), pc := Loading)
    case Load => s.(popped := s.popped + [s.b[s.r]], pc := Testing)
    case ResetRead => s.(r := 0, pc := Resetting)
    case ResetWrite => s.(w := 0, pc := Clearing(Slots(|s.b|)), accepted := [], popped := [], spoiled := {})
    // since the reset, byte number i went to slot i + 1
    case ClearSlot(k) =>
      s.(b := s.b[k := NUL], pc := Clearing(s.pc.left - {k}),
         spoiled := if 1 <= k <= |s.accepted| then s.spoiled + {k - 1} else s.spoiled)
    case EndFlush => s.(pc := Testing)
  }

  /** What is still to be loaded: the byte under the read point first, when it was advanced to. */
  function Pending(s: State): seq<char>
    requires s.r < |s.b| && s.w < |s.b|
  {
    (if s.pc == Loading then [s.b[s.r]] else []) + Stored(s.b, s.r, s.w)
  }

  function Spoilt(accepted: seq<char>, spoiled: set<nat>): (given: seq<char>)
    ensures |given| == |accepted|
    ensures forall i :: 0 <= i < |given| ==> given[i] == if i in spoiled then NUL else accepted[i]
  {
    seq(|accepted|, i requires 0 <= i < |accepted| => if i in spoiled then NUL else accepted[i])
  }

  /** What the ring was given, as it stores it. */
  function Given(s: State): seq<char> {
    Spoilt(s.accepted, s.spoiled)
  }

  /** Between the two points the write point is on its way to 0, and what is stored is as good as gone. */
  ghost predicate Inv(s: State) {
    && s.r < |s.b| && s.w < |s.b|
    && (s.pc == Advancing ==> s.r != s.w)
    && (s.pc == Resetting ==> s.r == 0) && (s.pc.Clearing? ==> s.r == 0 && s.popped == [])
    && (forall i :: i in s.spoiled ==> i < |s.accepted|)
    && if s.pc == Resetting then s.popped <= Given(s) else s.popped + Pending(s) == Given(s)
  }

  lemma InvInit(s: State)
    requires Init(s)
    ensures Inv(s)
  {
  }

  /** Every step keeps it. */
  lemma InvNext(s: State, a: Action)
    requires Inv(s) && Enabled(s, a)
    ensures Inv(Next(s, a))
  {
    match a
    case Push(c) => InvPush(s, c);
    case Test =>
    case Advance => InvAdvance(s);
    case Load => InvLoad(s);
    case ResetRead => assert s.popped + Pending(s) == Given(s);
    case ResetWrite => InvReset(s);
    case ClearSlot(k) => InvClear(s, k);
    case EndFlush =>
  }

  lemma InvPush(s: State, c: char)
    requires Inv(s)
    ensures Inv(PushStep(s, c))
  {
    if After(s.w, |s.b|) != s.r {
      hide Stored;
      StoredPush(s.b, s.r, s.w, c);
      StoredSize(s.b, s.r, s.w);
      var s' := PushStep(s, c);
      StoredSize(s'.b, s'.r, s'.w);
      assert Given(s') == Given(s) + [c];
      if s.pc != Resetting {
        assert Pending(s') == Pending(s) + [c];
        hide Given, Pending;
        assert s.popped + (Pending(s) + [c]) == Given(s) + [c];
      }
    }
  }

  lemma InvAdvance(s: State)
    requires Inv(s) && s.pc == Advancing
    ensures Inv(Next(s, Advance))
  {
    hide Stored;
    StoredPop(s.b, s.r, s.w);
    var q := Stored(s.b, s.r, s.w);
    assert q == [q[0]] + q[1..];
  }

  lemma InvLoad(s: State)
    requires Inv(s) && s.pc == Loading
    ensures Inv(Next(s, Load))
  {
    hide Stored;
    var s' := Next(s, Load);
    assert Pending(s) == [s.b[s.r]] + Pending(s');
  }

  lemma InvReset(s: State)
    requires Inv(s) && s.pc == Resetting
    ensures Inv(Next(s, ResetWrite))
  {
    var t := Next(s, ResetWrite);
    assert t.popped + Pending(t) == [] == Given(t);
  }

  lemma InvClear(s: State, k: nat)
    requires Inv(s) && Enabled(s, ClearSlot(k))
    ensures Inv(Next(s, ClearSlot(k)))
  {
    hide Pending, Spoilt;
    var t := Next(s, ClearSlot(k));
    PendingInFlush(s);
    PendingInFlush(t);
    assert s.w == |s.accepted|;
    SlotCleared(s.b, k, s.accepted, s.spoiled);
  }

  lemma SlotCleared(b: seq<char>, k: nat, accepted: seq<char>, spoiled: set<nat>)
    requires |accepted| < |b| && k < |b| && b[1..|accepted| + 1] == Spoilt(accepted, spoiled)
    ensures b[k := NUL][1..|accepted| + 1] ==
            Spoilt(accepted, if 1 <= k <= |accepted| then spoiled + {k - 1} else spoiled)
  {
    var after := if 1 <= k <= |accepted| then spoiled + {k - 1} else spoiled;
    forall i | 0 <= i < |accepted| ensures b[k := NUL][i + 1] == Spoilt(accepted, after)[i] {
      assert b[i + 1] == b[1..|accepted| + 1][i];
    }
  }

  lemma PendingInFlush(s: State)
    requires s.pc.Clearing? && s.r == 0 && s.popped == [] && s.w < |s.b|
    ensures s.popped + Pending(s) == s.b[1..s.w + 1]
  {
  }

  /** The byte the reader stands on is never overwritten by the interrupt. */
  lemma ReadSlotKept(s: State, c: char)
    requires s.r < |s.b| && s.w < |s.b|
    ensures Next(s, Push(c)).b[s.r] == s.b[s.r]
  {
  }

  /** A run: each action enabled in the state before it. */
  ghost predicate IsRun(states: seq<State>, actions: seq<Action>) {
    && |states| == |actions| + 1 && Init(states[0])
    && forall k :: 0 <= k < |actions| ==> Enabled(states[k], actions[k]) && states[k + 1] == Next(states[k], actions[k])
  }

  lemma {:induction false} InvRun(states: seq<State>, actions: seq<Action>, k: nat)
    requires IsRun(states, actions) && k < |states|
    ensures Inv(states[k])
    decreases k
  {
    if k == 0 {
      InvInit(states[0]);
    } else {
      InvRun(states, actions, k - 1);
      InvNext(states[k - 1], actions[k - 1]);
    }
  }

  /**
   * In every state of every run the bytes popped since the last flush are the first of those accepted since,
   * in order, except that those whose slots the flush cleared after they had come read as NUL.
   */
  lemma PoppedIsPrefix(states: seq<State>, actions: seq<Action>, k: nat)
    requires IsRun(states, actions) && k < |states|
    ensures var s := states[k];
            && s.popped <= Given(s) && |Given(s)| == |s.accepted|
            && (forall i :: 0 <= i < |Given(s)| ==> Given(s)[i] == if i in s.spoiled then NUL else s.accepted[i])
            && (s.pc != Resetting ==> |s.accepted| - |s.popped| <= |s.b|)
  {
    InvRun(states, actions, k);
    StoredSize(states[k].b, states[k].r, states[k].w);
  }

  // ---- a byte that comes during a flush ----

  /** A ring of three flushed, with one byte before the slot it goes to is cleared, and popped afterwards. */
  function SpoilSteps(): seq<Action> {
    [ResetRead, ResetWrite, ClearSlot(0), Push('a'), ClearSlot(1), ClearSlot(2), EndFlush, Test, Advance, Load]
  }

  function SpoilStage(k: nat): State {
    var zeros := [NUL, NUL, NUL];
    if k == 0 then State(zeros, 0, 0, Testing, [], [], {})
    else if k == 1 then State(zeros, 0, 0, Resetting, [], [], {})
    else if k == 2 then State(zeros, 0, 0, Clearing({0, 1, 2}), [], [], {})
    else if k == 3 then State(zeros, 0, 0, Clearing({1, 2}), [], [], {})
    else if k == 4 then State([NUL, 'a', NUL], 0, 1, Clearing({1, 2}), ['a'], [], {})
    else if k == 5 then State(zeros, 0, 1, Clearing({2}), ['a'], [], {0})
    else if k == 6 then State(zeros, 0, 1, Clearing({}), ['a'], [], {0})
    else if k == 7 then State(zeros, 0, 1, Testing, ['a'], [], {0})
    else if k == 8 then State(zeros, 0, 1, Advancing, ['a'], [], {0})
    else if k == 9 then State(zeros, 1, 1, Loading, ['a'], [], {0})
    else State(zeros, 1, 1, Testing, ['a'], [NUL], {0})
  }

  lemma SpoilStep(k: nat)
    requires k < 10
    ensures Enabled(SpoilStage(k), SpoilSteps()[k]) && SpoilStage(k + 1) == Next(SpoilStage(k), SpoilSteps()[k])
  {
    if k == 2 || k == 4 || k == 5 {
      SpoilClear(k);
    } else {
      assert Slots(0) == {} && Slots(1) == {0} && Slots(2) == {0, 1} && Slots(3) == {0, 1, 2};
      assert [NUL, NUL, NUL][1 := 'a'] == [NUL, 'a', NUL];
    }
  }

  lemma SpoilClear(k: nat)
    requires k in {2, 4, 5}
    ensures Enabled(SpoilStage(k), SpoilSteps()[k]) && SpoilStage(k + 1) == Next(SpoilStage(k), SpoilSteps()[k])
  {
    var s, t := SpoilStage(k), SpoilStage(k + 1);
    var slot := SpoilSteps()[k].k;
    assert t.pc.left == s.pc.left - {slot};
    assert t.b == s.b[slot := NUL];
    assert k == 4 ==> t.spoiled == s.spoiled + {0};
  }

  /** A run in which the reader gets a NUL where the interrupt stored something else. */
  lemma SpoiledByte() returns (states: seq<State>, actions: seq<Action>)
    ensures IsRun(states, actions) && states[|actions|].popped == [NUL] && states[|actions|].accepted == ['a']
  {
    hide Enabled, Next;
    actions := SpoilSteps();
    states := seq(11, k requires 0 <= k < 11 => SpoilStage(k));
    forall k | 0 <= k < 10 ensures Enabled(states[k], actions[k]) && states[k + 1] == Next(states[k], actions[k]) {
      SpoilStep(k);
    }
    assert states[0] == SpoilStage(0) && states[10] == SpoilStage(10);
  }

  // ---- refusals ----

  /** A refused byte means the ring holds all it can: one slot always stays free. */
  lemma RefusedOnlyWhenFull(states: seq<State>, actions: seq<Action>, k: nat)
    requires IsRun(states, actions) && k < |actions| && actions[k].Push?
    ensures states[k + 1].accepted == states[k].accepted <==>
            |Stored(states[k].b, states[k].r, states[k].w)| == |states[k].b| - 1
  {
    InvRun(states, actions, k);
    StoredSize(states[k].b, states[k].r, states[k].w);
  }
}
