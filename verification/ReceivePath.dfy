/**
 * From the receive interrupt to the lines: the ring of RingInterleaving, popped byte by byte by at_client_getchar,
 * cut into lines as in LineFraming, and flushed by at_recv_readline after a line longer than the receive buffer.
 */
module ReceivePath {
  import opened LineFraming
  import Ring = RingInterleaving

  // ---- reading on ----

  /** Reading goes on where it stopped. */
  lemma {:induction false} ReadOn(c: Config, raw: string, a: seq<Event>, b: seq<Event>)
    ensures ReadFrom(c, raw, a + b) == match ReadFrom(c, raw, a)
                                       case Waiting(left) => ReadFrom(c, left, b)
                                       case Done(f, rest) => Done(f, rest + b)
    decreases |a|
  {
    hide Stops;
    if a == [] {
      assert a + b == b;
    } else {
      assert (a + b)[1..] == a[1..] + b;
      if a[0].Byte? {
        ReadOn(c, raw + [a[0].c], a[1..], b);
      }
    }
  }

  /** What at_recv_readline does with the next event. */
  function Fed(c: Config, raw: string, e: Event): (seq<Frame>, string) {
    if !e.Byte? then ([Dropped(raw)], "")
    else if Stops(c, raw + [e.c]) then ([FrameOf(c, raw + [e.c])], "")
    else ([], raw + [e.c])
  }

  lemma FedReads(c: Config, raw: string, e: Event)
    ensures var (fs, left) := Fed(c, raw, e);
            |fs| <= 1 && ReadFrom(c, raw, [e]) == if fs == [] then Waiting(left) else Done(fs[0], [])
    ensures Frames(c, []) == ([], "")
  {
    hide Stops;
    assert [e][1..] == [];
  }

  /** One more event never changes the lines already cut: at most one more is added. */
  lemma {:induction false} FramesPush(c: Config, events: seq<Event>, e: Event)
    ensures var (fs, left) := Frames(c, events);
            var (more, open) := Fed(c, left, e);
            Frames(c, events + [e]) == (fs + more, open)
    decreases |events|
  {
    ReadOn(c, "", events, [e]);
    match ReadFrom(c, "", events)
    case Waiting(left) =>
      FedReads(c, left, e);
      hide ReadFrom, Fed;
      var more := Fed(c, left, e).0;
      assert [] + more == more && (more != [] ==> [more[0]] + [] == more);
    case Done(f, rest) =>
      FramesPush(c, rest, e);
      hide ReadFrom, Fed;
      var (fs, left) := Frames(c, rest);
      assert [f] + (fs + Fed(c, left, e).0) == [f] + fs + Fed(c, left, e).0;
  }

  lemma {:induction false} PoppedPush(events: seq<Event>, e: Event)
    ensures Popped(events + [e]) == Popped(events) + if e.Quiet? then "" else [e.c]
  {
    if events == [] {
      assert events + [e] == [e] && [e][1..] == [];
    } else {
      assert (events + [e])[1..] == events[1..] + [e];
      PoppedPush(events[1..], e);
    }
  }

  // ---- timeouts ----

  function Timeouts(events: seq<Event>): nat {
    if events == [] then 0 else (if events[0].Byte? then 0 else 1) + Timeouts(events[1..])
  }

  function DroppedOnes(frames: seq<Frame>): nat {
    if frames == [] then 0 else (if frames[0].Dropped? then 1 else 0) + DroppedOnes(frames[1..])
  }

  lemma {:induction false} ReadTimeouts(c: Config, raw: string, events: seq<Event>)
    ensures Timeouts(events) == match ReadFrom(c, raw, events)
                                case Waiting(_) => 0
                                case Done(f, rest) => (if f.Dropped? then 1 else 0) + Timeouts(rest)
    decreases |events|
  {
    hide Stops;
    if events != [] && events[0].Byte? {
      ReadTimeouts(c, raw + [events[0].c], events[1..]);
    }
  }

  /** Each timeout drops the line under way, and nothing else does. */
  lemma {:induction false} DroppedAreTimeouts(c: Config, events: seq<Event>)
    ensures DroppedOnes(Frames(c, events).0) == Timeouts(events)
    decreases |events|
  {
    ReadTimeouts(c, "", events);
    hide ReadFrom, Timeouts;
    match ReadFrom(c, "", events)
    case Waiting(_) =>
    case Done(f, rest) =>
      DroppedAreTimeouts(c, rest);
      assert ([f] + Frames(c, rest).0)[1..] == Frames(c, rest).0;
  }

  // ---- interrupt and reader ----

  /** What happened between two flushes; `given` is what the interrupt stored then. */
  datatype Epoch = Epoch(events: seq<Event>, frames: seq<Frame>, popped: string, given: string)

  /**
   * `raw` holds what the running call of at_recv_readline popped, `overlong` that it is about to flush the ring.
   * `frames` and `events` record what happened since the last flush, `past` what happened before.
   */
  datatype State = State(
    ring: Ring.State, raw: string, overlong: bool, frames: seq<Frame>, events: seq<Event>, past: seq<Epoch>)

  /** The reader's load may come when the time is over; without a byte it may give up. */
  datatype Action =
    | Push(c: char)
    | Test
    | Advance
    | Load(late: bool)
    | GiveUp
    | ResetRead
    | ResetWrite
    | ClearSlot(k: nat)
    | EndFlush

  /** What happened since the last flush. */
  function Present(s: State): Epoch {
    Epoch(s.events, s.frames, s.ring.popped, Ring.Given(s.ring))
  }

  predicate Init(s: State) {
    Ring.Init(s.ring) && s.raw == "" && !s.overlong && s.frames == [] && s.events == [] && s.past == []
  }

  /** The step of the ring in this action. */
  function RingAction(a: Action): Ring.Action {
    match a
    case Push(ch) => Ring.Push(ch)
    case Test => Ring.Test
    case Advance => Ring.Advance
    case Load(_) => Ring.Load
    case GiveUp => Ring.Test
    case ResetRead => Ring.ResetRead
    case ResetWrite => Ring.ResetWrite
    case ClearSlot(k) => Ring.ClearSlot(k)
    case EndFlush => Ring.EndFlush
  }

  predicate Enabled(s: State, a: Action) {
    && Ring.Enabled(s.ring, RingAction(a))
    && (a.ResetRead? ==> s.overlong)
    && (a.Test? || a.GiveUp? ==> !s.overlong)
  }

  function Feed(c: Config, s: State, e: Event): State {
    var (more, left) := Fed(c, s.raw, e);
    s.(raw := left, overlong := more != [] && more[0].TooLong?, frames := s.frames + more, events := s.events + [e])
  }

  function Next(c: Config, s: State, a: Action): State
    requires Enabled(s, a)
  {
    match a
    case Load(late) =>
      var ch := s.ring.b[s.ring.r];
      Feed(c, s.(ring := Ring.Next(s.ring, Ring.Load)), if late then Late(ch) else Byte(ch))
    case GiveUp => Feed(c, s, Quiet)
    case ResetWrite =>
      s.(ring := Ring.Next(s.ring, Ring.ResetWrite), raw := "", overlong := false, frames := [], events := [],
         past := s.past + [Present(s)])
    case _ => s.(ring := Ring.Next(s.ring, RingAction(a)))
  }

  // ---- what every step keeps ----

  /** Only the last frame of `frames` may be overlong, and is so exactly if `overlong`. */
  predicate EndsOverlong(frames: seq<Frame>, overlong: bool) {
    && (forall i :: 0 <= i < |frames| - 1 ==> !frames[i].TooLong?)
    && overlong == (frames != [] && frames[|frames| - 1].TooLong?)
  }

  /** The lines are cut from the bytes popped, and these are the first of the bytes accepted. */
  ghost predicate Cut(c: Config, e: Epoch, raw: string) {
    Frames(c, e.events) == (e.frames, raw) && e.popped == Popped(e.events) && e.popped <= e.given
  }

  ghost predicate Ended(c: Config, e: Epoch) {
    Cut(c, e, "") && EndsOverlong(e.frames, true)
  }

  ghost predicate Inv(c: Config, s: State) {
    && Ring.Inv(s.ring)
    && Cut(c, Present(s), s.raw) && EndsOverlong(s.frames, s.overlong)
    && (s.overlong ==> s.raw == "" && s.ring.pc in {Ring.Testing, Ring.Resetting})
    && (s.ring.pc == Ring.Resetting ==> s.overlong)
    && (s.past == [] ==> s.ring.spoiled == {} && !s.ring.pc.Clearing?)
    && forall i :: 0 <= i < |s.past| ==> Ended(c, s.past[i])
  }

  lemma InvInit(c: Config, s: State)
    requires Init(s)
    ensures Inv(c, s)
  {
    Ring.InvInit(s.ring);
  }

  /** Feeding keeps the cut, for the bytes popped up to now. */
  lemma FeedKeeps(c: Config, s: State, e: Event)
    requires Frames(c, s.events) == (s.frames, s.raw) && EndsOverlong(s.frames, false)
    ensures var s' := Feed(c, s, e);
            && Frames(c, s'.events) == (s'.frames, s'.raw) && EndsOverlong(s'.frames, s'.overlong)
            && (s'.overlong ==> s'.raw == "")
            && Popped(s'.events) == Popped(s.events) + if e.Quiet? then "" else [e.c]
  {
    hide Frames, Popped, Stops;
    FramesPush(c, s.events, e);
    PoppedPush(s.events, e);
  }

  /** Every step keeps it. */
  lemma InvNext(c: Config, s: State, a: Action)
    requires Inv(c, s) && Enabled(s, a)
    ensures Inv(c, Next(c, s, a))
  {
    hide Frames, Popped, EndsOverlong, Fed, Ring.Given;
    Ring.InvNext(s.ring, RingAction(a));
    GivenFirst(Ring.Next(s.ring, RingAction(a)));
    hide Ring.Inv, Ring.Pending;
    if a.Load? {
      InvLoad(c, s, a.late);
    } else if a.GiveUp? {
      InvGiveUp(c, s);
    } else if a.ResetWrite? {
      EmptyCut(c);
    } else {
      hide Feed;
    }
  }

  lemma InvGiveUp(c: Config, s: State)
    requires Inv(c, s) && Enabled(s, GiveUp)
    ensures Inv(c, Next(c, s, GiveUp))
  {
    hide Frames, Popped, EndsOverlong, Fed, Ring.Given, Ring.Inv, Ring.Pending;
    assert Popped(s.events) + "" == Popped(s.events);
    FeedKeeps(c, s, Quiet);
  }

  lemma InvLoad(c: Config, s: State, late: bool)
    requires Inv(c, s) && Enabled(s, Load(late)) && Ring.Inv(Ring.Next(s.ring, Ring.Load))
    ensures Inv(c, Next(c, s, Load(late)))
  {
    hide Frames, Popped, EndsOverlong, Fed, Ring.Given;
    GivenFirst(Ring.Next(s.ring, Ring.Load));
    hide Ring.Inv, Ring.Pending;
    var ch := s.ring.b[s.ring.r];
    FeedKeeps(c, s.(ring := Ring.Next(s.ring, Ring.Load)), if late then Late(ch) else Byte(ch));
  }

  lemma GivenFirst(ring: Ring.State)
    requires Ring.Inv(ring)
    ensures ring.popped <= Ring.Given(ring)
  {
  }

  lemma EmptyCut(c: Config)
    ensures Frames(c, []) == ([], "") && Popped([]) == "" && EndsOverlong([], false)
  {
  }

  /** A run: each action enabled in the state before it. */
  ghost predicate IsRun(c: Config, states: seq<State>, actions: seq<Action>) {
    && |states| == |actions| + 1 && Init(states[0])
    && forall k :: 0 <= k < |actions| ==>
       Enabled(states[k], actions[k]) && states[k + 1] == Next(c, states[k], actions[k])
  }

  lemma {:induction false} InvRun(c: Config, states: seq<State>, actions: seq<Action>, k: nat)
    requires IsRun(c, states, actions) && k < |states|
    ensures Inv(c, states[k])
    decreases k
  {
    hide Inv, Enabled, Next, Init;
    if k == 0 {
      InvInit(c, states[0]);
    } else {
      InvRun(c, states, actions, k - 1);
      InvNext(c, states[k - 1], actions[k - 1]);
    }
  }

  // ---- what the parser can rely on ----

  /**
   * The frames are proper lines, dropped ones as many as there were timeouts, and with the bytes `raw` of the
   * running call they are a part of what the interrupt stored: of its first bytes, all that were popped in time.
   */
  ghost predicate Received(c: Config, e: Epoch, raw: string) {
    && (forall i :: 0 <= i < |e.frames| ==> IsFrame(c, e.frames[i])) && Open(c, raw)
    && DroppedOnes(e.frames) == Timeouts(e.events)
    && Joined(e.frames) + raw == Bytes(e.events)
    && Popped(e.events) <= e.given
    && (Joined(e.frames) + raw == Popped(e.events) <==> InTime(e.events))
  }

  lemma CutIsReceived(c: Config, e: Epoch, raw: string)
    requires Cut(c, e, raw)
    ensures Received(c, e, raw)
  {
    hide IsFrame, Open, Frames, Popped, Bytes, Joined, InTime, DroppedOnes, Timeouts;
    FramesPartition(c, e.events);
    DroppedAreTimeouts(c, e.events);
  }

  /**
   * In every run, with the interrupt between any two steps of the reader: between two flushes the lines cut and
   * the open rest are, in a row, the first bytes the interrupt stored, less those popped too late; and a
   * flush comes after an overlong line, after each of them, and at no other time.
   */
  lemma LinesAreReceived(c: Config, states: seq<State>, actions: seq<Action>, k: nat)
    requires IsRun(c, states, actions) && k < |states|
    ensures var s := states[k];
            && Received(c, Present(s), s.raw) && EndsOverlong(s.frames, s.overlong)
            && forall i :: 0 <= i < |s.past| ==> Received(c, s.past[i], "") && EndsOverlong(s.past[i].frames, true)
  {
    hide EndsOverlong, Received, Cut, Ring.Inv;
    InvRun(c, states, actions, k);
    var s := states[k];
    CutIsReceived(c, Present(s), s.raw);
    forall i | 0 <= i < |s.past|
      ensures Received(c, s.past[i], "") && EndsOverlong(s.past[i].frames, true)
    {
      assert Ended(c, s.past[i]);
      CutIsReceived(c, s.past[i], "");
    }
  }

  lemma FirstGiven(c: Config, s: State)
    requires Inv(c, s) && s.past == []
    ensures Ring.Given(s.ring) == s.ring.accepted
  {
    assert s.ring.spoiled == {};
  }

  /** Without late bytes and overlong lines nothing is lost: the lines in a row begin the bytes stored. */
  lemma NothingLost(c: Config, states: seq<State>, actions: seq<Action>, k: nat)
    requires IsRun(c, states, actions) && k < |states| && states[k].past == [] && InTime(states[k].events)
    ensures Joined(states[k].frames) + states[k].raw <= states[k].ring.accepted
  {
    hide Joined, IsRun, Inv;
    InvRun(c, states, actions, k);
    FirstGiven(c, states[k]);
    LinesAreReceived(c, states, actions, k);
  }
}
