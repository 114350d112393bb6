/**
 * The lists of pending requests (src/data_template/data_template_client_manager.c) and of pending
 * events (src/data_template/data_template_event.c): who waits, who leaves, whose callback runs, and
 * what the callbacks themselves submit while a pass is under way.
 */
module PendingList {
  import opened LinkedList
  import opened Tokens
  import C = CStrings

  const MAX_WAITING: nat := 10

  datatype Ack = TIMEOUT | ACCEPTED | REJECTED | EVENT_REPLY

  /** A request brings the token of its document; an event is given one from the counter. */
  datatype Source = Given(token: string) | Issued

  /**
   * A request or an event to be added, with what its callback will submit in its turn; or a document that takes
   * a token from the same counter and waits in no list (data_template_client_json.c:268-274).
   */
  datatype Order =
    | Order(source: Source, deadline: nat, hasCallback: bool, further: seq<Order>)
    | Document

  /** A request or an event that waits for its reply; `id` counts the accepted ones. */
  datatype Waiter = Waiter(id: nat, token: string, deadline: nat, hasCallback: bool, further: seq<Order>)

  /** A callback that ran. */
  datatype Report = Report(id: nat, ack: Ack)

  /** The handlers of the two traversals. */
  datatype Handler =
    | RequestExpired(now: nat)
    | RequestReply(token: string, code: C.Option<int>)
    | EventExpired(now: nat)
    | EventReply(token: string)

  /** The handler takes the waiter off the list. */
  predicate Takes(h: Handler, w: Waiter) {
    match h
    case RequestExpired(now) => now > w.deadline
    case RequestReply(token, _) => w.token == token
    case EventExpired(now) => now > w.deadline
    case EventReply(token) => w.token == token && w.hasCallback
  }

  /** The callback it runs for a waiter it takes, if any. */
  function Reports(h: Handler, w: Waiter): seq<Report> {
    if !w.hasCallback then []
    else match h
      case RequestExpired(_) => [Report(w.id, TIMEOUT)]
      case RequestReply(_, code) =>
        if code.None? then [] else [Report(w.id, if code.value == 0 then ACCEPTED else REJECTED)]
      case EventExpired(_) => []
      case EventReply(_) => [Report(w.id, EVENT_REPLY)]
  }

  function Stays(h: Handler): Waiter -> bool {
    w => !Takes(h, w)
  }

  // ---- the list with its history ----

  /** A waiter that left, and the handler that took it. */
  datatype Departure = Departure(h: Handler, w: Waiter)

  /**
   * Who waits, who was accepted, who left, which callbacks ran; `issued` counts the tokens given out and
   * `numbers` holds its value when each accepted one came.
   */
  datatype System = System(
    productId: string, issued: nat, pending: seq<Waiter>,
    accepted: seq<Waiter>, numbers: seq<nat>, left: seq<Departure>, reported: seq<Report>)

  /** _add_request_to_template_list and _create_event_add_to_list: refused when ten wait. */
  function Submit(s: System, o: Order): System {
    if o.Document? then s.(issued := s.issued + 1)
    else if |s.pending| >= MAX_WAITING then s
    else
      var token := if o.source.Issued? then Token(s.productId, s.issued) else o.source.token;
      var w := Waiter(|s.accepted|, token, o.deadline, o.hasCallback, o.further);
      Enlisted(s, w, if o.source.Issued? then s.issued + 1 else s.issued)
  }

  /** The new waiter is the last of the list. */
  function Enlisted(s: System, w: Waiter, issued: nat): System {
    s.(issued := issued,
       pending := s.pending + [w], accepted := s.accepted + [w], numbers := s.numbers + [s.issued])
  }

  function SubmitAll(s: System, orders: seq<Order>): (t: System)
    ensures |s.pending| <= |t.pending| && t.pending[..|s.pending|] == s.pending
    ensures t.left == s.left && t.reported == s.reported
  {
    if orders == [] then s
    else
      var t := SubmitAll(s, orders[..|orders| - 1]);
      Submit(t, orders[|orders| - 1])
  }

  /** The callback of a waiter runs and may submit; the waiter is still in the list. */
  function Called(s: System, h: Handler, w: Waiter): (t: System)
    ensures |s.pending| <= |t.pending| && t.pending[..|s.pending|] == s.pending
    ensures t.left == s.left && t.reported == s.reported + Reports(h, w)
  {
    if Reports(h, w) == [] then s else SubmitAll(s.(reported := s.reported + Reports(h, w)), w.further)
  }

  /** One node of a pass: its callback, then its removal. */
  function Turn(s: System, j: nat, h: Handler): (t: System)
    requires j < |s.pending|
    ensures j <= |t.pending| && t.pending[..j] == s.pending[..j]
  {
    var w := s.pending[j];
    if !Takes(h, w) then s
    else
      var t := Called(s, h, w);
      assert t.pending[..j] == t.pending[..|s.pending|][..j];
      t.(pending := t.pending[..j] + t.pending[j + 1..], left := t.left + [Departure(h, w)])
  }

  /** A pass after `t` turns: it goes from the tail it began at to the head, whatever comes behind. */
  function After(s: System, h: Handler, t: nat): (u: System)
    requires t <= |s.pending|
    ensures var k := |s.pending| - t; k <= |u.pending| && u.pending[..k] == s.pending[..k]
  {
    if t == 0 then s
    else
      var k := |s.pending| - t;
      var before := After(s, h, t - 1);
      assert before.pending[..k] == before.pending[..k + 1][..k] == s.pending[..k];
      Turn(before, k, h)
  }

  datatype Action = Place(order: Order) | Pass(h: Handler)

  function Step(s: System, a: Action): System {
    match a
    case Place(o) => Submit(s, o)
    case Pass(h) => After(s, h, |s.pending|)
  }

  function Start(productId: string): System {
    System(productId, 0, [], [], [], [], [])
  }

  function Run(productId: string, actions: seq<Action>): System {
    if actions == [] then Start(productId)
    else Step(Run(productId, actions[..|actions| - 1]), actions[|actions| - 1])
  }

  // ---- the code ----

  class Waiting {
    const list: List<Waiter>
    const productId: string
    var issued: nat
    var accepted: nat
    var reported: seq<Report>
    ghost var history: System

    ghost predicate Valid()
      reads this, list, list.Nodes()
    {
      && list.Valid() && list.len <= MAX_WAITING
      && history.pending == Values(list.nodes) && |history.accepted| == accepted && history.reported == reported
      && history.issued == issued && history.productId == productId
    }

    constructor (productId: string)
      ensures Valid() && history == Start(productId) && fresh(list)
      ensures issued == 0 && accepted == 0 && reported == [] && list.nodes == []
    {
      list := new List<Waiter>();
      this.productId, issued, accepted, reported := productId, 0, 0, [];
      history := Start(productId);
    }

    /** list_rpush of a new node. */
    method PushWaiter(w: Waiter)
      requires list.Valid()
      modifies list, list.Nodes()
      ensures list.Valid() && list.len == old(list.len) + 1
      ensures old(list.nodes) <= list.nodes && Values(list.nodes) == Values(old(list.nodes)) + [w]
      ensures fresh(list.Nodes() - old(list.Nodes()))
    {
      hide Distinct, Linked, Values;
      var node := new ListNode(w);
      ValuesSnoc(list.nodes, node);
      list.RPush(node);
    }

    /** _add_request_to_template_list and _create_event_add_to_list. */
    method Add(o: Order) returns (ok: bool)
      requires Valid() && o.Order?
      modifies this, list, list.Nodes()
      ensures Valid() && history == Submit(old(history), o) && ok == (|old(history.pending)| < 10)
      ensures !ok ==> history == old(history)
      ensures ok ==>
                var token := if o.source.Issued? then Token(productId, old(issued)) else o.source.token;
                var w := Waiter(old(accepted), token, o.deadline, o.hasCallback, o.further);
                && history.pending == old(history).pending + [w] && accepted == old(accepted) + 1
                && issued == if o.source.Issued? then old(issued) + 1 else old(issued)
      ensures old(list.nodes) <= list.nodes && fresh(list.Nodes() - old(list.Nodes()))
    {
      hide Token, List.Valid, Submit;
      list.Size();
      Submitted(history, o);
      if list.len >= MAX_WAITING {
        return false;
      }
      var token := if o.source.Issued? then Token(productId, issued) else o.source.token;
      Enlist(Waiter(accepted, token, o.deadline, o.hasCallback, o.further), o.source.Issued?);
      ok := true;
    }

    /** The new node, with the token it may have taken from the counter. */
    method Enlist(w: Waiter, counted: bool)
      requires Valid() && list.len < MAX_WAITING
      modifies this, list, list.Nodes()
      ensures Valid()
      ensures history ==
              Enlisted(old(history), w, if counted then old(history).issued + 1 else old(history).issued)
      ensures old(list.nodes) <= list.nodes && fresh(list.Nodes() - old(list.Nodes()))
    {
      hide List.Valid;
      PushWaiter(w);
      if counted {
        issued := issued + 1;
      }
      accepted := accepted + 1;
      history := Enlisted(history, w, issued);
    }

    /** A document takes its token from the counter. */
    method TakeToken() returns (token: string)
      requires Valid()
      modifies this
      ensures Valid() && history == Submit(old(history), Document) && token == Token(productId, old(issued))
      ensures issued == old(issued) + 1 && accepted == old(accepted) && history.pending == old(history).pending
    {
      token := Token(productId, issued);
      issued := issued + 1;
      history := history.(issued := issued);
    }

    /** The submissions of a callback, one after the other. */
    method AddAll(orders: seq<Order>)
      requires Valid()
      modifies this, list, list.Nodes()
      ensures Valid() && history == SubmitAll(old(history), orders)
      ensures old(list.nodes) <= list.nodes && fresh(list.Nodes() - old(list.Nodes()))
    {
      hide Valid, Submit, SubmitAll;
      ghost var base := history;
      SubmitNone(base);
      assert orders[..0] == [];
      for i := 0 to |orders|
        invariant Valid() && history == SubmitAll(base, orders[..i])
        invariant old(list.nodes) <= list.nodes && fresh(list.Nodes() - old(list.Nodes()))
      {
        SubmitNext(base, orders, i);
        if orders[i].Document? {
          var token := TakeToken();
        } else {
          var ok := Add(orders[i]);
        }
      }
      assert orders[..|orders|] == orders;
    }

    /** The callback of a taken waiter: it runs, and submits what it submits, before the node is removed. */
    method RunCallback(h: Handler, w: Waiter)
      requires Valid()
      modifies this, list, list.Nodes()
      ensures Valid() && history == Called(old(history), h, w)
      ensures old(list.nodes) <= list.nodes && fresh(list.Nodes() - old(list.Nodes()))
    {
      hide List.Valid, SubmitAll, Reports;
      if Reports(h, w) == [] {
        return;
      }
      reported := reported + Reports(h, w);
      history := history.(reported := reported);
      AddAll(w.further);
    }

    /** list_remove of the node in hand. */
    method DropWaiter(node: ListNode<Waiter>, ghost k: nat)
      requires list.Valid() && k < |list.nodes| && list.nodes[k] == node
      modifies list, list.Nodes()
      ensures list.Valid() && list.len + 1 == old(list.len)
      ensures k <= |list.nodes| && list.nodes[..k] == old(list.nodes[..k])
      ensures var vals := Values(old(list.nodes)); Values(list.nodes) == vals[..k] + vals[k + 1..]
      ensures list.Nodes() <= old(list.Nodes())
    {
      hide Distinct, Linked, Values, Without;
      ValuesWithout(list.nodes, k);
      list.Remove(node, k);
    }

    /** The handler of one node: its callback, then its removal. */
    method HandleNode(h: Handler, node: ListNode<Waiter>, ghost k: nat)
      requires Valid() && k < |list.nodes| && list.nodes[k] == node
      modifies this, list, list.Nodes()
      ensures Valid() && history == Turn(old(history), k, h)
      ensures
        var leaves := match h
          case RequestExpired(now) => node.val.deadline < now
          case EventExpired(now) => node.val.deadline < now
          case RequestReply(token, _) => node.val.token == token
          case EventReply(token) => node.val.token == token && node.val.hasCallback;
        history.left == if leaves then old(history.left) + [Departure(h, node.val)] else old(history.left)
      ensures k <= |list.nodes| && list.nodes[..k] == old(list.nodes[..k])
      ensures fresh(list.Nodes() - old(list.Nodes()))
    {
      hide Called, List.Valid, Reports, Values;
      assert history.pending[k] == node.val by {
        ValueAt(list.nodes, k);
      }
      if Takes(h, node.val) {
        ghost var was := list.nodes;
        RunCallback(h, node.val);
        PrefixAt(was, list.nodes, k);
        list.Size();
        DropWaiter(node, k);
        history := history.(pending := history.pending[..k] + history.pending[k + 1..],
                            left := history.left + [Departure(h, node.val)]);
      }
    }

    lemma Begin()
      requires Valid()
      ensures list.tail == At(list.nodes, |list.nodes| - 1) && |list.nodes| == |history.pending|
    {
      list.Ends();
    }

    /** One turn of the loop: the iterator has moved on before the node is handled. */
    method VisitOne(h: Handler, iter: ListIterator<Waiter>, ghost k: nat)
      requires Valid() && k < |list.nodes| && iter.direction == FromTail && iter.next == At(list.nodes, k)
      modifies this, list, list.Nodes(), iter
      ensures Valid() && history == Turn(old(history), k, h)
      ensures k <= |list.nodes| && iter.next == At(list.nodes, k - 1)
      ensures fresh(list.Nodes() - old(list.Nodes()))
    {
      hide Turn, List.Valid;
      list.Links(k);
      var node := iter.Next();
      ghost var before := list.nodes;
      HandleNode(h, node, k);
      SameBefore(before, list.nodes, k);
    }

    /**
     * _traverse_template_list and _traverse_event_list: the live iterator goes from the tail to the head while
     * callbacks push at the tail and nodes are removed.
     */
    method Traverse(h: Handler)
      requires Valid()
      modifies this, list, list.Nodes()
      ensures Valid() && history == Step(old(history), Pass(h))
      ensures PassDoes(old(history), history, h)
    {
      hide Turn, After, Valid, PassDoes;
      PassDoesIt(history, h);
      Begin();
      ghost var was := history;
      ghost var n := |was.pending|;
      ghost var t := 0;
      AfterStart(was, h);
      var iter := new ListIterator(list.tail, FromTail);
      while iter.next != null
        invariant t <= n && fresh(iter) && iter.direction == FromTail
        invariant n - t <= |list.nodes| && iter.next == At(list.nodes, n - t - 1)
        invariant Valid() && history == After(was, h, t)
        invariant fresh(list.Nodes() - old(list.Nodes()))
        decreases n - t
      {
        AfterTurn(was, h, t);
        VisitOne(h, iter, n - t - 1);
        t := t + 1;
      }
    }
  }

  lemma Submitted(s: System, o: Order)
    requires o.Order?
    ensures |s.pending| >= MAX_WAITING ==> Submit(s, o) == s
    ensures |s.pending| < MAX_WAITING ==>
              var token := if o.source.Issued? then Token(s.productId, s.issued) else o.source.token;
              var w := Waiter(|s.accepted|, token, o.deadline, o.hasCallback, o.further);
              Submit(s, o) == Enlisted(s, w, if o.source.Issued? then s.issued + 1 else s.issued)
  {
    hide Token, Enlisted;
  }

  lemma SubmitNone(s: System)
    ensures SubmitAll(s, []) == s
  {
  }

  lemma SubmitNext(s: System, orders: seq<Order>, i: nat)
    requires i < |orders|
    ensures SubmitAll(s, orders[..i + 1]) == Submit(SubmitAll(s, orders[..i]), orders[i])
  {
    assert orders[..i + 1][..i] == orders[..i];
    hide Submit;
  }

  lemma SameBefore(before: seq<ListNode<Waiter>>, now: seq<ListNode<Waiter>>, k: nat)
    requires k <= |before| && k <= |now| && now[..k] == before[..k]
    ensures At(now, k - 1) == At(before, k - 1)
  {
    assert k > 0 ==> now[..k][k - 1] == before[..k][k - 1];
  }

  lemma ValueAt(nodes: seq<ListNode<Waiter>>, k: nat)
    requires k < |nodes|
    ensures Values(nodes)[k] == nodes[k].val
  {
  }

  lemma PrefixAt(was: seq<ListNode<Waiter>>, now: seq<ListNode<Waiter>>, k: nat)
    requires k < |was| && was <= now
    ensures now[k] == was[k] && now[..k] == was[..k]
  {
  }

  lemma AfterStart(s: System, h: Handler)
    ensures After(s, h, 0) == s
  {
  }

  lemma AfterTurn(s: System, h: Handler, t: nat)
    requires t < |s.pending|
    ensures var k := |s.pending| - t - 1;
            k < |After(s, h, t).pending| && After(s, h, t + 1) == Turn(After(s, h, t), k, h)
  {
    hide Turn;
  }

  lemma ValuesWithout(nodes: seq<ListNode<Waiter>>, k: nat)
    requires k < |nodes|
    ensures Values(Without(nodes, k)) == Values(nodes)[..k] + Values(nodes)[k + 1..]
    ensures Without(nodes, k)[..k] == nodes[..k] && |Without(nodes, k)| == |nodes| - 1
    ensures forall x :: x in Without(nodes, k) ==> x in nodes
  {
    var rest, vals := Without(nodes, k), Values(nodes);
    var shorter := vals[..k] + vals[k + 1..];
    forall i | 0 <= i < |rest| ensures Values(rest)[i] == shorter[i] {
      assert rest[i] == nodes[if i < k then i else i + 1];
      assert shorter[i] == vals[if i < k then i else i + 1];
    }
  }

  // ---- what every run keeps ----

  function Waiters(ds: seq<Departure>): (ws: seq<Waiter>)
    ensures |ws| == |ds| && forall i :: 0 <= i < |ds| ==> ws[i] == ds[i].w
  {
    if ds == [] then [] else Waiters(ds[..|ds| - 1]) + [ds[|ds| - 1].w]
  }

  /** The callbacks of a list of departures. */
  function Calls(ds: seq<Departure>): seq<Report> {
    if ds == [] then [] else Calls(ds[..|ds| - 1]) + Reports(ds[|ds| - 1].h, ds[|ds| - 1].w)
  }

  lemma DeparturesPush(ds: seq<Departure>, d: Departure)
    ensures Waiters(ds + [d]) == Waiters(ds) + [d.w] && Calls(ds + [d]) == Calls(ds) + Reports(d.h, d.w)
  {
    assert (ds + [d])[..|ds|] == ds;
  }

  ghost predicate Inv(s: System) {
    && |s.pending| <= MAX_WAITING && |s.numbers| == |s.accepted|
    && (forall i :: 0 <= i < |s.accepted| ==> s.accepted[i].id == i)
    && multiset(s.pending) + multiset(Waiters(s.left)) == multiset(s.accepted)
    && s.reported == Calls(s.left)
  }

  lemma InvSubmit(s: System, o: Order)
    requires Inv(s)
    ensures Inv(Submit(s, o))
  {
    hide Waiters, Calls;
    var t := Submit(s, o);
    if t.accepted != s.accepted {
      var w := t.accepted[|s.accepted|];
      assert multiset(s.pending + [w]) == multiset(s.pending) + multiset{w};
      assert multiset(s.accepted + [w]) == multiset(s.accepted) + multiset{w};
    }
  }

  /** Inv, but for the report of a callback that is running. */
  ghost predicate Calling(s: System, running: seq<Report>) {
    Inv(s.(reported := Calls(s.left))) && s.reported == Calls(s.left) + running
  }

  lemma {:induction false} CallingAll(s: System, orders: seq<Order>, running: seq<Report>)
    requires Calling(s, running)
    ensures Calling(SubmitAll(s, orders), running)
  {
    hide Inv, Calls, Submit;
    if orders != [] {
      var n := |orders| - 1;
      CallingAll(s, orders[..n], running);
      SubmitOtherReports(SubmitAll(s, orders[..n]), orders[n]);
      InvSubmit(SubmitAll(s, orders[..n]).(reported := Calls(SubmitAll(s, orders[..n]).left)), orders[n]);
    }
  }

  lemma SubmitOtherReports(s: System, o: Order)
    ensures forall r :: Submit(s.(reported := r), o) == Submit(s, o).(reported := r)
    ensures Submit(s, o).left == s.left && Submit(s, o).reported == s.reported
  {
  }

  lemma InvTurn(s: System, j: nat, h: Handler)
    requires Inv(s) && j < |s.pending|
    ensures Inv(Turn(s, j, h))
  {
    hide Calls, Waiters, Reports, Takes, SubmitAll;
    var w := s.pending[j];
    if Takes(h, w) {
      var running := Reports(h, w);
      if running != [] {
        CallingAll(s.(reported := s.reported + running), w.further, running);
      }
      var t := Called(s, h, w);
      assert Calling(t, running);
      TurnRemoves(t, j, h, w);
    }
  }

  lemma TurnRemoves(t: System, j: nat, h: Handler, w: Waiter)
    requires Calling(t, Reports(h, w)) && j < |t.pending| && t.pending[j] == w
    ensures Inv(t.(pending := t.pending[..j] + t.pending[j + 1..], left := t.left + [Departure(h, w)]))
  {
    DeparturesPush(t.left, Departure(h, w));
    hide Calls, Waiters, Reports;
    var front, back := t.pending[..j], t.pending[j + 1..];
    assert t.pending == front + [w] + back;
    assert multiset(t.pending) == multiset(front + back) + multiset{w};
    assert multiset(Waiters(t.left) + [w]) == multiset(Waiters(t.left)) + multiset{w};
  }

  /** At every point of every pass, between any two nodes, too. */
  lemma {:induction false} InvAfter(s: System, h: Handler, t: nat)
    requires Inv(s) && t <= |s.pending|
    ensures Inv(After(s, h, t))
  {
    hide Inv, Turn;
    if t > 0 {
      InvAfter(s, h, t - 1);
      AfterTurn(s, h, t - 1);
      InvTurn(After(s, h, t - 1), |s.pending| - t, h);
    }
  }

  lemma InvStep(s: System, a: Action)
    requires Inv(s)
    ensures Inv(Step(s, a))
  {
    hide After, Submit, Waiters, Calls;
    match a
    case Place(o) => InvSubmit(s, o);
    case Pass(h) => InvAfter(s, h, |s.pending|);
  }

  lemma {:induction false} InvRun(productId: string, actions: seq<Action>)
    ensures Inv(Run(productId, actions))
  {
    if actions != [] {
      hide Inv, Step;
      InvRun(productId, actions[..|actions| - 1]);
      InvStep(Run(productId, actions[..|actions| - 1]), actions[|actions| - 1]);
    }
  }

  /** The places of those who left at an expiry, and of the others. */
  function Expired(ds: seq<Departure>): set<nat> {
    set i: nat | i < |ds| && (ds[i].h.RequestExpired? || ds[i].h.EventExpired?)
  }

  function Answered(ds: seq<Departure>): set<nat> {
    set i: nat | i < |ds| && (ds[i].h.RequestReply? || ds[i].h.EventReply?)
  }

  function Places(n: nat): (places: set<nat>)
    ensures |places| == n && forall i: nat :: i in places <==> i < n
  {
    if n == 0 then {} else Places(n - 1) + {n - 1}
  }

  lemma CountBoth(ds: seq<Departure>)
    ensures |Answered(ds)| + |Expired(ds)| == |ds|
  {
    assert Answered(ds) + Expired(ds) == Places(|ds|);
    assert Answered(ds) * Expired(ds) == {};
  }

  /**
   * In every run, callbacks submitting in the middle of a pass included: at most ten wait, and the accepted ones are
   * those that wait, were answered or timed out.
   */
  lemma Conservation(productId: string, actions: seq<Action>)
    ensures var s := Run(productId, actions);
            && |s.pending| <= 10
            && |s.accepted| == |s.pending| + |Answered(s.left)| + |Expired(s.left)|
  {
    var s := Run(productId, actions);
    InvRun(productId, actions);
    hide Run;
    CountBoth(s.left);
    assert |multiset(s.accepted)| == |multiset(s.pending)| + |multiset(Waiters(s.left))|;
  }

  /** The same in the middle of the next pass, after any number of turns. */
  lemma ConservationInPass(productId: string, actions: seq<Action>, h: Handler, t: nat)
    requires t <= |Run(productId, actions).pending|
    ensures var s := After(Run(productId, actions), h, t);
            && |s.pending| <= 10
            && |s.accepted| == |s.pending| + |Answered(s.left)| + |Expired(s.left)|
  {
    InvRun(productId, actions);
    InvAfter(Run(productId, actions), h, t);
    var s := After(Run(productId, actions), h, t);
    hide Run, After;
    CountBoth(s.left);
    assert |multiset(s.accepted)| == |multiset(s.pending)| + |multiset(Waiters(s.left))|;
  }

  /** Every accepted waiter is in one place: still pending, or gone once. */
  lemma LeavesOnce(productId: string, actions: seq<Action>, w: Waiter)
    requires w in Run(productId, actions).accepted
    ensures var s := Run(productId, actions); multiset(s.pending)[w] + multiset(Waiters(s.left))[w] == 1
  {
    InvRun(productId, actions);
    var s := Run(productId, actions);
    hide Run, Waiters, Calls;
    OnceInAccepted(s.accepted, w);
    assert (multiset(s.pending) + multiset(Waiters(s.left)))[w] ==
        multiset(s.pending)[w] + multiset(Waiters(s.left))[w];
  }

  lemma OnceInAccepted(ws: seq<Waiter>, w: Waiter)
    requires w in ws && forall i :: 0 <= i < |ws| ==> ws[i].id == i
    ensures multiset(ws)[w] == 1
  {
    var i :| 0 <= i < |ws| && ws[i] == w;
    assert ws == ws[..i] + [w] + ws[i + 1..];
    assert w !in ws[..i] && w !in ws[i + 1..];
  }

  /** No two pending waiters have the same number. */
  lemma PendingDistinct(s: System)
    requires Inv(s)
    ensures forall i, j :: 0 <= i < j < |s.pending| ==> s.pending[i].id != s.pending[j].id
    ensures forall w :: w in s.pending ==> w.id < |s.accepted| && s.accepted[w.id] == w
  {
    hide Waiters, Calls;
    assert multiset(s.pending) <= multiset(s.accepted);
    forall w | w in s.pending ensures w.id < |s.accepted| && s.accepted[w.id] == w {
      assert w in multiset(s.pending) && w in multiset(s.accepted);
    }
    forall i, j | 0 <= i < j < |s.pending| ensures s.pending[i].id != s.pending[j].id {
      var v, w := s.pending[i], s.pending[j];
      if v.id == w.id {
        TwiceInLeft(s.pending, i, j);
        OnceInAccepted(s.accepted, v);
        assert false;
      }
    }
  }

  // ---- callbacks ----

  /** A callback belongs to a departure, and different departures have different numbers. */
  lemma {:induction false} CallsDistinct(ds: seq<Departure>)
    requires forall i, j :: 0 <= i < j < |ds| ==> ds[i].w.id != ds[j].w.id
    ensures forall r :: r in Calls(ds) ==> exists i :: 0 <= i < |ds| && ds[i].w.id == r.id
    ensures forall i, j :: 0 <= i < j < |Calls(ds)| ==> Calls(ds)[i].id != Calls(ds)[j].id
  {
    if ds != [] {
      var n := |ds| - 1;
      CallsDistinct(ds[..n]);
    }
  }

  lemma LeftDistinct(productId: string, actions: seq<Action>)
    ensures var ds := Run(productId, actions).left; forall i, j :: 0 <= i < j < |ds| ==> ds[i].w.id != ds[j].w.id
  {
    InvRun(productId, actions);
    var s := Run(productId, actions);
    var ws := Waiters(s.left);
    forall i, j | 0 <= i < j < |ws| ensures ws[i].id != ws[j].id {
      assert ws[i] in multiset(s.accepted) && ws[j] in multiset(s.accepted);
      if ws[i].id == ws[j].id {
        TwiceInLeft(ws, i, j);
        LeavesOnce(productId, actions, ws[i]);
        assert false;
      }
    }
  }

  lemma TwiceInLeft(ws: seq<Waiter>, i: nat, j: nat)
    requires i < j < |ws| && ws[i] == ws[j]
    ensures multiset(ws)[ws[i]] >= 2
  {
    assert ws == ws[..i] + [ws[i]] + ws[i + 1..];
    assert ws[j] in ws[i + 1..];
  }

  /** In every run each callback runs at most once. */
  lemma CallbackOnce(productId: string, actions: seq<Action>)
    ensures var rs := Run(productId, actions).reported; forall i, j :: 0 <= i < j < |rs| ==> rs[i].id != rs[j].id
  {
    InvRun(productId, actions);
    LeftDistinct(productId, actions);
    CallsDistinct(Run(productId, actions).left);
  }

  // ---- what one pass does ----

  function AllReports(h: Handler, taken: seq<Waiter>): seq<Report> {
    if taken == [] then [] else AllReports(h, taken[..|taken| - 1]) + Reports(h, taken[|taken| - 1])
  }

  function Departures(h: Handler, ws: seq<Waiter>): (ds: seq<Departure>)
    ensures |ds| == |ws| && forall i :: 0 <= i < |ws| ==> ds[i] == Departure(h, ws[i])
  {
    if ws == [] then [] else Departures(h, ws[..|ws| - 1]) + [Departure(h, ws[|ws| - 1])]
  }

  /** Nothing but new waiters at the tail. */
  ghost predicate Grown(s: System, t: System) {
    s.accepted <= t.accepted && t.pending == s.pending + t.accepted[|s.accepted|..]
  }

  lemma {:induction false} SubmitAllGrows(s: System, orders: seq<Order>)
    ensures Grown(s, SubmitAll(s, orders))
  {
    if orders == [] {
      assert s.pending + [] == s.pending;
    } else {
      var before := SubmitAll(s, orders[..|orders| - 1]);
      SubmitAllGrows(s, orders[..|orders| - 1]);
      GrownMore(s, before, orders[|orders| - 1]);
    }
  }

  lemma GrownMore(s: System, t: System, o: Order)
    requires Grown(s, t)
    ensures Grown(s, Submit(t, o))
  {
    hide Token;
    var u := Submit(t, o);
    if u.accepted != t.accepted {
      var w := u.accepted[|t.accepted|];
      assert u.accepted[|s.accepted|..] == t.accepted[|s.accepted|..] + [w];
      assert s.pending + t.accepted[|s.accepted|..] + [w] == s.pending + (t.accepted[|s.accepted|..] + [w]);
    }
  }

  lemma CalledGrows(s: System, h: Handler, w: Waiter)
    ensures Grown(s, Called(s, h, w))
  {
    if Reports(h, w) == [] {
      assert s.pending + [] == s.pending;
    } else {
      SubmitAllGrows(s.(reported := s.reported + Reports(h, w)), w.further);
    }
  }

  lemma FilterSnoc(ws: seq<Waiter>, x: Waiter, keep: Waiter -> bool)
    ensures Filter(ws + [x], keep) == Filter(ws, keep) + if keep(x) then [x] else []
    ensures Dropped(ws + [x], keep) == (if keep(x) then [] else [x]) + Dropped(ws, keep)
  {
    assert (ws + [x])[..|ws|] == ws;
  }

  lemma FilterNone(keep: Waiter -> bool)
    ensures Filter<Waiter>([], keep) == [] && Dropped<Waiter>([], keep) == []
  {
  }

  lemma {:induction false} FilterCons(x: Waiter, ws: seq<Waiter>, keep: Waiter -> bool)
    ensures Filter([x] + ws, keep) == (if keep(x) then [x] else []) + Filter(ws, keep)
    ensures Dropped([x] + ws, keep) == Dropped(ws, keep) + if keep(x) then [] else [x]
  {
    hide Filter, Dropped;
    var one, none := if keep(x) then [x] else [], if keep(x) then [] else [x];
    if ws == [] {
      FilterNone(keep);
      FilterSnoc([], x, keep);
      assert [] + [x] == [x] && [x] + [] == [x] && [] + one == one == one + [] && [] + none == none == none + [];
    } else {
      var n := |ws| - 1;
      var y := ws[n];
      FilterCons(x, ws[..n], keep);
      FilterSnoc(ws[..n], y, keep);
      FilterSnoc([x] + ws[..n], y, keep);
      assert ws == ws[..n] + [y];
      Joined([x], ws[..n], [y]);
      Joined(one, Filter(ws[..n], keep), if keep(y) then [y] else []);
      Joined(if keep(y) then [] else [y], Dropped(ws[..n], keep), none);
    }
  }

  lemma Take(h: Handler, taken: seq<Waiter>, w: Waiter)
    ensures AllReports(h, taken + [w]) == AllReports(h, taken) + Reports(h, w)
    ensures Departures(h, taken + [w]) == Departures(h, taken) + [Departure(h, w)]
  {
    assert (taken + [w])[..|taken|] == taken;
  }

  /** What a pass has done after `t` turns, told from the list at its start. */
  ghost predicate PassShape(s: System, h: Handler, t: nat, u: System)
    requires t <= |s.pending|
  {
    var k := |s.pending| - t;
    var gone := Dropped(s.pending[k..], Stays(h));
    && s.accepted <= u.accepted
    && u.pending == s.pending[..k] + Filter(s.pending[k..], Stays(h)) + u.accepted[|s.accepted|..]
    && u.left == s.left + Departures(h, gone) && u.reported == s.reported + AllReports(h, gone)
  }

  lemma TurnKeeps(s: System, h: Handler, k: nat, kept: seq<Waiter>, t: System)
    requires k < |s.pending| && t.pending == s.pending[..k + 1] + kept && !Takes(h, s.pending[k])
    ensures Turn(t, k, h) == t && t.pending == s.pending[..k] + ([s.pending[k]] + kept)
  {
    assert s.pending[..k + 1] == s.pending[..k] + [s.pending[k]];
  }

  lemma TurnTakes(s: System, h: Handler, k: nat, kept: seq<Waiter>, t: System)
    requires k < |s.pending| && s.accepted <= t.accepted && Takes(h, s.pending[k])
    requires t.pending == s.pending[..k + 1] + kept + t.accepted[|s.accepted|..]
    ensures var u := Turn(t, k, h);
            && s.accepted <= u.accepted && u.pending == s.pending[..k] + kept + u.accepted[|s.accepted|..]
            && u.left == t.left + [Departure(h, s.pending[k])] && u.reported == t.reported + Reports(h, s.pending[k])
  {
    hide Takes, Reports, Called;
    var w := s.pending[k];
    var news := t.accepted[|s.accepted|..];
    assert t.pending[k] == w;
    CalledGrows(t, h, w);
    var c := Called(t, h, w);
    var more := c.accepted[|t.accepted|..];
    assert c.accepted == t.accepted + more;
    assert c.accepted[|s.accepted|..] == news + more;
    assert s.pending[..k + 1] == s.pending[..k] + [w];
    assert c.pending == s.pending[..k] + [w] + (kept + (news + more));
    CutAt(s.pending[..k], w, kept + (news + more), k);
    assert s.pending[..k] + (kept + (news + more)) == s.pending[..k] + kept + (news + more);
  }

  lemma CutAt(front: seq<Waiter>, w: Waiter, back: seq<Waiter>, k: nat)
    requires k == |front|
    ensures (front + [w] + back)[..k] == front && (front + [w] + back)[k + 1..] == back
  {
  }

  lemma {:induction false} AfterShape(s: System, h: Handler, t: nat)
    requires t <= |s.pending|
    ensures PassShape(s, h, t, After(s, h, t))
  {
    hide Filter, Dropped, AllReports, Departures, Turn, Takes, Stays, PassShape, After;
    if t == 0 {
      AfterStart(s, h);
      ShapeStart(s, h);
    } else {
      AfterShape(s, h, t - 1);
      AfterTurn(s, h, t - 1);
      TurnShape(s, h, t, After(s, h, t - 1));
    }
  }

  lemma ShapeStart(s: System, h: Handler)
    ensures PassShape(s, h, 0, s)
  {
    FilterNone(Stays(h));
    NoneTaken(h);
    hide Filter, Dropped, AllReports, Departures, Stays;
    var n := |s.pending|;
    assert s.pending[n..] == [] && s.accepted[|s.accepted|..] == [];
    assert s.pending[..n] + [] + [] == s.pending;
    assert s.left + [] == s.left && s.reported + [] == s.reported;
  }

  lemma NoneTaken(h: Handler)
    ensures AllReports(h, []) == [] && Departures(h, []) == []
  {
  }

  lemma TurnShape(s: System, h: Handler, t: nat, before: System)
    requires 0 < t <= |s.pending| && PassShape(s, h, t - 1, before) && |s.pending| - t < |before.pending|
    ensures PassShape(s, h, t, Turn(before, |s.pending| - t, h))
  {
    hide Filter, Dropped, AllReports, Departures, Turn, Takes, Stays;
    var k := |s.pending| - t;
    var w, rest := s.pending[k], s.pending[k + 1..];
    var kept, gone := Filter(rest, Stays(h)), Dropped(rest, Stays(h));
    assert s.pending[k..] == [w] + rest;
    FilterCons(w, rest, Stays(h));
    StaysUnlessTaken(h, w);
    if Takes(h, w) {
      TurnTakes(s, h, k, kept, before);
      Take(h, gone, w);
      assert [] + kept == kept;
      Joined(s.left, Departures(h, gone), [Departure(h, w)]);
      Joined(s.reported, AllReports(h, gone), Reports(h, w));
    } else {
      var news := before.accepted[|s.accepted|..];
      Joined(s.pending[..k + 1], kept, news);
      TurnKeeps(s, h, k, kept + news, before);
      Joined([w], kept, news);
      Joined(s.pending[..k], [w] + kept, news);
      assert gone + [] == gone;
    }
  }

  lemma Joined<T>(x: seq<T>, y: seq<T>, z: seq<T>)
    ensures (x + y) + z == x + (y + z)
  {
  }

  lemma StaysUnlessTaken(h: Handler, w: Waiter)
    ensures Stays(h)(w) == !Takes(h, w)
  {
  }

  /**
   * A pass takes exactly those of the waiters at its start that its handler takes, each once and from the tail on,
   * and runs exactly their callbacks; it leaves the others in order, and behind them what the callbacks added.
   */
  lemma PassExact(s: System, h: Handler, w: Waiter)
    ensures var u := Step(s, Pass(h));
            var taken := Dropped(s.pending, Stays(h));
            && s.accepted <= u.accepted
            && u.pending == Filter(s.pending, Stays(h)) + u.accepted[|s.accepted|..]
            && u.left == s.left + Departures(h, taken) && u.reported == s.reported + AllReports(h, taken)
            && (w in taken <==> w in s.pending && Takes(h, w))
            && (w in Filter(s.pending, Stays(h)) <==> w in s.pending && !Takes(h, w))
            && multiset(taken) + multiset(Filter(s.pending, Stays(h))) == multiset(s.pending)
  {
    hide Filter, Dropped, After, AllReports, Departures, Takes, Stays, PassShape;
    AfterShape(s, h, |s.pending|);
    ShapeEnd(s, h, After(s, h, |s.pending|));
    FilterHas(s.pending, Stays(h));
    DroppedHas(s.pending, Stays(h));
    FilterSplits(s.pending, Stays(h));
    StaysUnlessTaken(h, w);
  }

  // ---- who leaves and who is told, handler by handler ----

  /** Those who left between two states, and the callbacks that ran. */
  function Gone(s: System, u: System): seq<Departure> {
    if |s.left| <= |u.left| then u.left[|s.left|..] else []
  }

  function Told(s: System, u: System): seq<Report> {
    if |s.reported| <= |u.reported| then u.reported[|s.reported|..] else []
  }

  ghost predicate Continues(s: System, u: System, h: Handler) {
    s.left <= u.left && s.reported <= u.reported && forall d :: d in Gone(s, u) ==> d.h == h && d.w in s.pending
  }

  /** An expiry pass over requests: exactly the overdue leave, and those of them with a callback are told TIMEOUT. */
  ghost predicate RequestsExpired(s: System, u: System, now: nat) {
    var h := RequestExpired(now);
    && Continues(s, u, h)
    && (forall w :: w in s.pending && w.deadline < now ==> Departure(h, w) in Gone(s, u))
    && (forall w :: w in s.pending && now <= w.deadline ==> w in u.pending && Departure(h, w) !in Gone(s, u))
    && (forall r :: r in Told(s, u) <==>
          exists w :: w in s.pending && w.deadline < now && w.hasCallback && r == Report(w.id, TIMEOUT))
  }

  /** An expiry pass over the events: exactly the overdue leave, and nobody is told. */
  ghost predicate EventsExpired(s: System, u: System, now: nat) {
    var h := EventExpired(now);
    && Continues(s, u, h)
    && (forall w :: w in s.pending && w.deadline < now ==> Departure(h, w) in Gone(s, u))
    && (forall w :: w in s.pending && now <= w.deadline ==> w in u.pending && Departure(h, w) !in Gone(s, u))
    && Told(s, u) == []
  }

  /** A reply to requests: exactly those with its token leave, told by its code, if it has one. */
  ghost predicate RequestsAnswered(s: System, u: System, token: string, code: C.Option<int>) {
    var h := RequestReply(token, code);
    && Continues(s, u, h)
    && (forall w :: w in s.pending && w.token == token ==> Departure(h, w) in Gone(s, u))
    && (forall w :: w in s.pending && w.token != token ==> w in u.pending && Departure(h, w) !in Gone(s, u))
    && (code.None? ==> Told(s, u) == [])
    && (code.Some? ==> forall r :: r in Told(s, u) <==>
          exists w :: w in s.pending && w.token == token && w.hasCallback &&
                      r == Report(w.id, if code.value == 0 then ACCEPTED else REJECTED))
  }

  /** A reply to events: exactly those with its token and a callback leave, and their callbacks run. */
  ghost predicate EventsAnswered(s: System, u: System, token: string) {
    var h := EventReply(token);
    && Continues(s, u, h)
    && (forall w :: w in s.pending && w.token == token && w.hasCallback ==> Departure(h, w) in Gone(s, u))
    && (forall w :: w in s.pending && !(w.token == token && w.hasCallback) ==>
          w in u.pending && Departure(h, w) !in Gone(s, u))
    && (forall r :: r in Told(s, u) <==>
          exists w :: w in s.pending && w.token == token && w.hasCallback && r == Report(w.id, EVENT_REPLY))
  }

  ghost predicate PassDoes(s: System, u: System, h: Handler) {
    match h
    case RequestExpired(now) => RequestsExpired(s, u, now)
    case EventExpired(now) => EventsExpired(s, u, now)
    case RequestReply(token, code) => RequestsAnswered(s, u, token, code)
    case EventReply(token) => EventsAnswered(s, u, token)
  }

  lemma {:induction false} AllReportsHas(h: Handler, taken: seq<Waiter>)
    ensures forall r :: r in AllReports(h, taken) <==> exists w :: w in taken && r in Reports(h, w)
  {
    if taken != [] {
      var n := |taken| - 1;
      AllReportsHas(h, taken[..n]);
      assert taken == taken[..n] + [taken[n]];
      hide Reports;
    }
  }

  lemma PassMembers(s: System, h: Handler)
    ensures var u := Step(s, Pass(h));
            && Continues(s, u, h)
            && (forall w :: w in s.pending && Takes(h, w) ==> Departure(h, w) in Gone(s, u))
            && (forall w :: w in s.pending && !Takes(h, w) ==> w in u.pending && Departure(h, w) !in Gone(s, u))
            && (forall r :: r in Told(s, u) <==> exists w :: w in s.pending && Takes(h, w) && r in Reports(h, w))
  {
    hide Filter, Dropped, After, AllReports, Takes, Reports, Stays, PassShape, Step;
    var taken := Dropped(s.pending, Stays(h));
    PassExact(s, h, Waiter(0, "", 0, false, []));
    FilterHas(s.pending, Stays(h));
    DroppedHas(s.pending, Stays(h));
    AllReportsHas(h, taken);
    forall w ensures Stays(h)(w) == !Takes(h, w) {
      StaysUnlessTaken(h, w);
    }
    DeparturesHave(h, taken);
    var u := Step(s, Pass(h));
    assert Gone(s, u) == Departures(h, taken) && Told(s, u) == AllReports(h, taken);
    hide Departures, Gone, Told;
  }

  lemma DeparturesHave(h: Handler, ws: seq<Waiter>)
    ensures forall d :: d in Departures(h, ws) <==> d.h == h && d.w in ws
  {
    var ds := Departures(h, ws);
    forall d: Departure | d.h == h && d.w in ws ensures d in ds {
      var i :| 0 <= i < |ws| && ws[i] == d.w;
      assert ds[i] == d;
    }
  }

  /** A pass does, to requests and events, what its handler is for. */
  lemma PassDoesIt(s: System, h: Handler)
    ensures PassDoes(s, Step(s, Pass(h)), h)
  {
    hide Step, PassDoes;
    match h
    case RequestExpired(now) => RequestsExpire(s, now);
    case EventExpired(now) => EventsExpire(s, now);
    case RequestReply(token, code) => RequestsReplied(s, token, code);
    case EventReply(token) => EventsReplied(s, token);
  }

  lemma FirstOf<T>(xs: seq<T>)
    ensures xs != [] ==> exists x :: x in xs
  {
    if xs != [] {
      assert xs[0] in xs;
    }
  }

  lemma RequestsExpire(s: System, now: nat)
    ensures PassDoes(s, Step(s, Pass(RequestExpired(now))), RequestExpired(now))
  {
    PassMembers(s, RequestExpired(now));
    hide Step, Continues, Gone, Told;
  }

  lemma EventsExpire(s: System, now: nat)
    ensures PassDoes(s, Step(s, Pass(EventExpired(now))), EventExpired(now))
  {
    hide Step, Continues, Gone, Told;
    FirstOf(Told(s, Step(s, Pass(EventExpired(now)))));
    PassMembers(s, EventExpired(now));
  }

  lemma RequestsReplied(s: System, token: string, code: C.Option<int>)
    ensures PassDoes(s, Step(s, Pass(RequestReply(token, code))), RequestReply(token, code))
  {
    var h := RequestReply(token, code);
    hide Step, Continues, Gone, Told;
    FirstOf(Told(s, Step(s, Pass(h))));
    PassMembers(s, h);
    if code.Some? {
      var ack := if code.value == 0 then ACCEPTED else REJECTED;
      forall w: Waiter ensures Reports(h, w) == if w.hasCallback then [Report(w.id, ack)] else [] {
      }
    }
  }

  lemma EventsReplied(s: System, token: string)
    ensures PassDoes(s, Step(s, Pass(EventReply(token))), EventReply(token))
  {
    PassMembers(s, EventReply(token));
    hide Step, Continues, Gone, Told;
  }

  /** Who leaves in a pass of a run does not wait after it. */
  lemma GoneForGood(productId: string, actions: seq<Action>, h: Handler, w: Waiter)
    requires var s := Run(productId, actions);
             w in s.pending && Departure(h, w) in Gone(s, Step(s, Pass(h)))
    ensures w !in Run(productId, actions + [Pass(h)]).pending
  {
    var s := Run(productId, actions);
    var u := Step(s, Pass(h));
    assert (actions + [Pass(h)])[..|actions|] == actions;
    assert Run(productId, actions + [Pass(h)]) == u;
    PassDoesIt(s, h);
    InvRun(productId, actions + [Pass(h)]);
    assert Departure(h, w) in u.left;
    WaitersHave(u.left, Departure(h, w));
    InvRun(productId, actions);
    PendingDistinct(s);
    PassExact(s, h, w);
    assert w in u.accepted;
    LeavesOnce(productId, actions + [Pass(h)], w);
    hide Run, Step, Waiters;
    assert multiset(Waiters(u.left))[w] > 0;
  }

  lemma WaitersHave(ds: seq<Departure>, d: Departure)
    requires d in ds
    ensures d.w in multiset(Waiters(ds))
  {
    var i :| 0 <= i < |ds| && ds[i] == d;
    assert Waiters(ds)[i] == d.w;
  }

  lemma ShapeEnd(s: System, h: Handler, u: System)
    requires PassShape(s, h, |s.pending|, u)
    ensures var taken := Dropped(s.pending, Stays(h));
            && s.accepted <= u.accepted
            && u.pending == Filter(s.pending, Stays(h)) + u.accepted[|s.accepted|..]
            && u.left == s.left + Departures(h, taken) && u.reported == s.reported + AllReports(h, taken)
  {
    hide Filter, Dropped, AllReports, Departures, Stays;
    assert s.pending[0..] == s.pending && s.pending[..0] == [];
    assert [] + Filter(s.pending, Stays(h)) == Filter(s.pending, Stays(h));
  }

  // ---- a pass is a traversal by a visitor that pushes ----

  /** What the callbacks add at turn `t`. */
  function NewAt(s: System, h: Handler, t: nat): seq<Waiter> {
    if t < |s.pending| then
      var was, now := After(s, h, t).accepted, After(s, h, t + 1).accepted;
      if |was| <= |now| then now[|was|..] else []
    else []
  }

  /** The visitor of this pass, for TraverseFromTail of LinkedList. */
  function PassScript(s: System, h: Handler): Script<Waiter> {
    (t: nat, w: Waiter) => Visit(NewAt(s, h, t), Takes(h, w))
  }

  lemma {:induction false} KeptIsFilter(s: System, h: Handler, nodes: seq<ListNode<Waiter>>, t: nat)
    ensures Values(Kept(nodes, PassScript(s, h), t)) == Filter(Values(nodes), Stays(h))
  {
    if nodes != [] {
      var n := |nodes| - 1;
      var script := PassScript(s, h);
      KeptIsFilter(s, h, nodes[..n], t + 1);
      assert nodes == nodes[..n] + [nodes[n]];
      ValuesSnoc(nodes[..n], nodes[n]);
      FilterSnoc(Values(nodes[..n]), nodes[n].val, Stays(h));
      var rest := Kept(nodes[..n], script, t + 1);
      ValuesSnoc(rest, nodes[n]);
      assert rest + [] == rest && Filter(Values(nodes[..n]), Stays(h)) + [] == Filter(Values(nodes[..n]), Stays(h));
      hide Filter, NewAt, After, Values;
    }
  }

  lemma TurnGrows(s: System, h: Handler, t: nat)
    requires t < |s.pending|
    ensures After(s, h, t).accepted <= After(s, h, t + 1).accepted
    ensures After(s, h, t + 1).accepted == After(s, h, t).accepted + NewAt(s, h, t)
  {
    AfterTurn(s, h, t);
    hide After;
    var before := After(s, h, t);
    CalledGrows(before, h, before.pending[|s.pending| - t - 1]);
  }

  lemma PushedTurn(s: System, h: Handler, nodes: seq<ListNode<Waiter>>, t: nat)
    requires nodes != []
    ensures Pushed(nodes, PassScript(s, h), t) == NewAt(s, h, t) + Pushed(nodes[..|nodes| - 1], PassScript(s, h), t + 1)
  {
    hide NewAt, Takes;
  }

  lemma {:induction false} PushedIsNew(s: System, h: Handler, nodes: seq<ListNode<Waiter>>, t: nat)
    requires |nodes| + t == |s.pending|
    ensures After(s, h, t).accepted + Pushed(nodes, PassScript(s, h), t) == After(s, h, |s.pending|).accepted
    decreases |nodes|
  {
    hide After, NewAt;
    if nodes == [] {
      assert After(s, h, t).accepted + [] == After(s, h, t).accepted;
    } else {
      var n := |nodes| - 1;
      TurnGrows(s, h, t);
      PushedTurn(s, h, nodes, t);
      hide Pushed, PassScript;
      PushedIsNew(s, h, nodes[..n], t + 1);
      Joined(After(s, h, t).accepted, NewAt(s, h, t), Pushed(nodes[..n], PassScript(s, h), t + 1));
    }
  }

  /** The list after a pass is the one TraverseFromTail leaves for that visitor. */
  lemma PassIsTraversal(s: System, h: Handler, nodes: seq<ListNode<Waiter>>)
    requires Values(nodes) == s.pending
    ensures Step(s, Pass(h)).pending ==
            Values(Kept(nodes, PassScript(s, h), 0)) + Pushed(nodes, PassScript(s, h), 0)
  {
    hide After, Filter, Kept, Pushed, PassScript, PassShape;
    AfterStart(s, h);
    AfterShape(s, h, |s.pending|);
    ShapeEnd(s, h, After(s, h, |s.pending|));
    KeptIsFilter(s, h, nodes, 0);
    PushedIsNew(s, h, nodes, 0);
  }
}
