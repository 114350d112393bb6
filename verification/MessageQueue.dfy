/**
 * The downstream message queue of src/data_template/data_template_client.c: messages arrive at the
 * head, while _handle_message walks from the tail with a live iterator and no lock.
 */
module MessageQueue {
  import opened CStrings

  type Message = string

  /** A list node; `id` is the position of its message among all arrivals. */
  datatype Node = Node(id: nat, msg: Message)

  /** Where _handle_message is: outside, before list_iterator_next, before deliver_message, before list_remove. */
  datatype Pc = Idle | Looping | Got(node: nat) | Delivered(node: nat)

  /**
   * `queue` is the list from head to tail, `next` the node the iterator will give. `arrivals` and `handed`
   * record what came in and what was delivered, `begun` how much had arrived when the pass began.
   */
  datatype State = State(
    queue: seq<Node>, next: Option<nat>, pc: Pc, arrivals: seq<Message>, handed: seq<Message>, begun: nat)

  datatype Action = Arrive(msg: Message) | Begin | NextNode | Deliver | Remove

  predicate Init(s: State) {
    s.queue == [] && s.pc == Idle && s.arrivals == [] && s.handed == [] && s.begun == 0
  }

  /** The position of a node in the list, or the length of the list. */
  function Position(queue: seq<Node>, id: nat): (k: nat)
    ensures k <= |queue| && (k < |queue| ==> queue[k].id == id)
  {
    if queue == [] then 0 else if queue[0].id == id then 0 else 1 + Position(queue[1..], id)
  }

  /** node->prev, as the list is now. */
  function Prev(queue: seq<Node>, id: nat): Option<nat> {
    var k := Position(queue, id);
    if 0 < k < |queue| then Some(queue[k - 1].id) else None
  }

  /** list_remove: the node goes, wherever it is. */
  function Removed(queue: seq<Node>, id: nat): seq<Node> {
    var k := Position(queue, id);
    if k < |queue| then queue[..k] + queue[k + 1..] else queue
  }

  predicate Enabled(s: State, a: Action) {
    match a
    case Arrive(_) => true
    case Begin => s.pc == Idle
    case NextNode => s.pc == Looping && (s.next.Some? ==> Position(s.queue, s.next.value) < |s.queue|)
    case Deliver => s.pc.Got? && Position(s.queue, s.pc.node) < |s.queue|
    case Remove => s.pc.Delivered? && Position(s.queue, s.pc.node) < |s.queue|
  }

  function Next(s: State, a: Action): State
    requires Enabled(s, a)
  {
    match a
    case Arrive(m) => s.(queue := [Node(|s.arrivals|, m)] + s.queue, arrivals := s.arrivals + [m])
    case Begin =>
      if s.queue == [] then s
      else s.(next := Some(s.queue[|s.queue| - 1].id), pc := Looping, begun := |s.arrivals|)
    case NextNode =>
      if s.next.None? then s.(pc := Idle)
      else s.(next := Prev(s.queue, s.next.value), pc := Got(s.next.value))
    case Deliver =>
      s.(pc := Delivered(s.pc.node), handed := s.handed + [s.queue[Position(s.queue, s.pc.node)].msg])
    case Remove => s.(queue := Removed(s.queue, s.pc.node), pc := Looping)
  }

  // ---- what every step keeps ----

  /** The list read from head to tail is the arrivals from the last one down to number `from`. */
  ghost predicate Mirrors(queue: seq<Node>, arrivals: seq<Message>, from: nat) {
    && |queue| + from == |arrivals|
    && forall k :: 0 <= k < |queue| ==> queue[k] == Node(|arrivals| - 1 - k, arrivals[|arrivals| - 1 - k])
  }

  /** How many messages have left the list. */
  function Left(s: State): int {
    if s.pc.Delivered? then |s.handed| - 1 else |s.handed|
  }

  /** The iterator points to the node with this number, or past the head as it was when that node came. */
  ghost predicate IterAt(s: State, n: nat) {
    (s.next == Some(n) && n < |s.arrivals|) || (s.next == None && n >= s.begun)
  }

  ghost predicate Inv(s: State) {
    && s.handed <= s.arrivals && s.begun <= |s.arrivals|
    && 0 <= Left(s) && Mirrors(s.queue, s.arrivals, Left(s))
    && match s.pc
       case Idle => true
       case Looping => IterAt(s, |s.handed|)
       case Got(n) => n == |s.handed| < |s.arrivals| && IterAt(s, n + 1)
       case Delivered(n) => n + 1 == |s.handed| && IterAt(s, n + 1)
  }

  lemma {:induction false} PositionIs(queue: seq<Node>, k: nat)
    requires k < |queue| && forall j :: 0 <= j < k ==> queue[j].id != queue[k].id
    ensures Position(queue, queue[k].id) == k
    decreases k
  {
    if k > 0 {
      assert queue[0].id != queue[k].id;
      PositionIs(queue[1..], k - 1);
    }
  }

  /** The oldest message in the list is the last node. */
  lemma LastNode(queue: seq<Node>, arrivals: seq<Message>, from: nat)
    requires Mirrors(queue, arrivals, from) && from < |arrivals|
    ensures queue != [] && queue[|queue| - 1] == Node(from, arrivals[from])
    ensures Position(queue, from) == |queue| - 1
    ensures Prev(queue, from) == if from + 1 < |arrivals| then Some(from + 1) else None
    ensures Removed(queue, from) == queue[..|queue| - 1] && Mirrors(Removed(queue, from), arrivals, from + 1)
  {
    PositionIs(queue, |queue| - 1);
  }

  lemma InvNext(s: State, a: Action)
    requires Inv(s) && Enabled(s, a)
    ensures Inv(Next(s, a))
  {
    hide Inv, Next, Enabled;
    match a
    case Arrive(m) => InvArrive(s, m);
    case Begin => InvBegin(s);
    case NextNode => InvNextNode(s);
    case Deliver => InvDeliver(s);
    case Remove => InvRemove(s);
  }

  lemma InvArrive(s: State, m: Message)
    requires Inv(s)
    ensures Inv(Next(s, Arrive(m)))
  {
    assert s.handed <= s.arrivals + [m];
  }

  lemma InvBegin(s: State)
    requires Inv(s) && Enabled(s, Begin)
    ensures Inv(Next(s, Begin))
  {
    if s.queue != [] {
      LastNode(s.queue, s.arrivals, |s.handed|);
    }
  }

  lemma InvNextNode(s: State)
    requires Inv(s) && Enabled(s, NextNode)
    ensures Inv(Next(s, NextNode))
  {
    hide Prev, Removed, Position;
    if s.next.Some? {
      LastNode(s.queue, s.arrivals, |s.handed|);
    }
  }

  lemma InvDeliver(s: State)
    requires Inv(s) && Enabled(s, Deliver)
    ensures Inv(Next(s, Deliver))
  {
    hide Prev, Removed, Position;
    LastNode(s.queue, s.arrivals, |s.handed|);
    assert s.handed + [s.arrivals[|s.handed|]] <= s.arrivals;
  }

  lemma InvRemove(s: State)
    requires Inv(s) && Enabled(s, Remove)
    ensures Inv(Next(s, Remove))
  {
    hide Prev, Removed, Position;
    LastNode(s.queue, s.arrivals, |s.handed| - 1);
  }

  ghost predicate IsRun(states: seq<State>, actions: seq<Action>) {
    && |states| == |actions| + 1 && Init(states[0])
    && forall k :: 0 <= k < |actions| ==> Enabled(states[k], actions[k]) && states[k + 1] == Next(states[k], actions[k])
  }

  lemma {:induction false} InvRun(states: seq<State>, actions: seq<Action>, k: nat)
    requires IsRun(states, actions) && k < |states|
    ensures Inv(states[k])
    decreases k
  {
    if k > 0 {
      InvRun(states, actions, k - 1);
      InvNext(states[k - 1], actions[k - 1]);
    }
  }

  /** The messages of a list, from tail to head. */
  function TailToHead(queue: seq<Node>): seq<Message> {
    if queue == [] then [] else TailToHead(queue[1..]) + [queue[0].msg]
  }

  lemma {:induction false} MirrorsReads(queue: seq<Node>, arrivals: seq<Message>, from: nat)
    requires Mirrors(queue, arrivals, from)
    ensures TailToHead(queue) == arrivals[from..]
    decreases |queue|
  {
    if queue != [] {
      var n := |arrivals| - 1;
      forall k | 0 <= k < |queue[1..]|
        ensures queue[1..][k] == Node(|arrivals[..n]| - 1 - k, arrivals[..n][|arrivals[..n]| - 1 - k])
      {
        assert queue[1..][k] == queue[k + 1];
      }
      MirrorsReads(queue[1..], arrivals[..n], from);
      assert arrivals[from..] == arrivals[..n][from..] + [arrivals[n]];
    }
  }

  /**
   * In every state of every run: messages reach the handler in arrival order and once, and the ones that
   * left the list, followed by the list from tail to head, are exactly the arrivals. The message being
   * delivered is still in the list.
   */
  lemma QueueConserves(states: seq<State>, actions: seq<Action>, k: nat)
    requires IsRun(states, actions) && k < |states|
    ensures var s := states[k];
            && s.handed <= s.arrivals
            && 0 <= Left(s) <= |s.handed|
            && s.handed[..Left(s)] + TailToHead(s.queue) == s.arrivals
  {
    InvRun(states, actions, k);
    var s := states[k];
    MirrorsReads(s.queue, s.arrivals, Left(s));
    assert s.handed[..Left(s)] == s.arrivals[..Left(s)];
  }

  /** The iterator never gives a node that has left the list, and the node it gave is there to be removed. */
  lemma NoStaleNode(states: seq<State>, actions: seq<Action>, k: nat)
    requires IsRun(states, actions) && k < |states|
    ensures states[k].pc == Looping && states[k].next.Some? ==> Enabled(states[k], NextNode)
    ensures states[k].pc.Got? ==> Enabled(states[k], Deliver)
    ensures states[k].pc.Delivered? ==> Enabled(states[k], Remove)
  {
    hide Prev, Removed, Position;
    InvRun(states, actions, k);
    var s := states[k];
    if s.pc.Got? || (s.pc == Looping && s.next.Some?) {
      LastNode(s.queue, s.arrivals, |s.handed|);
    } else if s.pc.Delivered? {
      LastNode(s.queue, s.arrivals, |s.handed| - 1);
    }
  }

  /** When a pass ends, everything that had arrived before it began has been handed over. */
  lemma PassDelivers(states: seq<State>, actions: seq<Action>, k: nat)
    requires IsRun(states, actions) && k < |actions| && states[k].pc == Looping && states[k + 1].pc == Idle
    ensures states[k].begun <= |states[k].arrivals| && states[k].arrivals[..states[k].begun] <= states[k].handed
  {
    InvRun(states, actions, k);
    assert actions[k] == NextNode && states[k].next.None?;
  }
}
