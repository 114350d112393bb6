/** The doubly linked list and its live iterator of src/utils/utils_list.c. */
module LinkedList {
  datatype Direction = FromHead | FromTail

  class ListNode<T> {
    var prev: ListNode?<T>
    var next: ListNode?<T>
    const val: T

    /** list_node_new */
    constructor (val: T)
      ensures this.val == val && prev == null && next == null
    {
      this.val := val;
      prev, next := null, null;
    }
  }

  ghost predicate Distinct<T>(nodes: seq<ListNode<T>>) {
    forall i, j :: 0 <= i < j < |nodes| ==> nodes[i] != nodes[j]
  }

  function At<T>(nodes: seq<ListNode<T>>, i: int): ListNode?<T> {
    if 0 <= i < |nodes| then nodes[i] else null
  }

  /** Each node points to its neighbours in the sequence. */
  ghost predicate Linked<T>(nodes: seq<ListNode<T>>)
    reads nodes
  {
    && (forall i {:trigger nodes[i].prev} :: 0 <= i < |nodes| ==> nodes[i].prev == At(nodes, i - 1))
    && (forall i {:trigger nodes[i].next} :: 0 <= i < |nodes| ==> nodes[i].next == At(nodes, i + 1))
  }

  function Without<T>(nodes: seq<ListNode<T>>, k: nat): seq<ListNode<T>>
    requires k < |nodes|
  {
    nodes[..k] + nodes[k + 1..]
  }

  ghost predicate NoneMatches<T>(nodes: seq<ListNode<T>>, val: T, matches: (T, T) -> bool) {
    forall i :: 0 <= i < |nodes| ==> !matches(val, nodes[i].val)
  }

  lemma WithoutAt<T>(nodes: seq<ListNode<T>>, k: nat)
    requires k < |nodes| && Distinct(nodes)
    ensures var rest := Without(nodes, k);
            && |rest| == |nodes| - 1 && Distinct(rest) && nodes[k] !in rest
            && (forall i {:trigger At(rest, i)} :: At(rest, i) == At(nodes, if i < k then i else i + 1))
  {
  }

  /** Past the node at `k` its neighbours point to each other. */
  ghost predicate PastNode<T>(nodes: seq<ListNode<T>>, k: nat)
    reads nodes
  {
    && (forall i {:trigger nodes[i].prev} :: 0 <= i < |nodes| ==>
          nodes[i].prev == At(nodes, if i == k + 1 then k - 1 else i - 1))
    && (forall i {:trigger nodes[i].next} :: 0 <= i < |nodes| ==>
          nodes[i].next == At(nodes, if i == k - 1 then k + 1 else i + 1))
  }

  lemma Relinked<T>(nodes: seq<ListNode<T>>, k: nat)
    requires k < |nodes| && Distinct(nodes) && PastNode(nodes, k)
    ensures Linked(Without(nodes, k))
  {
    var rest := Without(nodes, k);
    WithoutAt(nodes, k);
    hide Distinct, Without;
    forall i | 0 <= i < |rest| ensures rest[i].prev == At(rest, i - 1) {
      var j := if i < k then i else i + 1;
      assert At(rest, i) == nodes[j];
      assert At(rest, i - 1) == nodes[j].prev;
    }
    forall i | 0 <= i < |rest| ensures rest[i].next == At(rest, i + 1) {
      var j := if i < k then i else i + 1;
      assert At(rest, i) == nodes[j];
      assert At(rest, i + 1) == nodes[j].next;
    }
  }

  class List<T(==)> {
    var head: ListNode?<T>
    var tail: ListNode?<T>
    var len: nat
    /** The nodes from head to tail. */
    ghost var nodes: seq<ListNode<T>>

    lemma Ends()
      requires Valid()
      ensures head == At(nodes, 0) && tail == At(nodes, |nodes| - 1)
    {
    }

    lemma Size()
      requires Valid()
      ensures len == |nodes|
    {
    }

    lemma Links(k: nat)
      requires Valid() && k < |nodes|
      ensures nodes[k].prev == At(nodes, k - 1) && nodes[k].next == At(nodes, k + 1)
    {
    }

    /** The nodes as a set of objects. */
    ghost function Nodes(): set<object>
      reads this
    {
      set x | x in nodes
    }

    ghost predicate Valid()
      reads this, Nodes()
    {
      && len == |nodes| && head == At(nodes, 0) && tail == At(nodes, |nodes| - 1)
      && Distinct(nodes) && Linked(nodes)
    }

    /** list_new */
    constructor ()
      ensures Valid() && nodes == []
    {
      head, tail, len := null, null, 0;
      nodes := [];
    }

    /** list_rpush */
    method RPush(node: ListNode<T>)
      requires Valid() && node !in nodes
      modifies this, Nodes(), node
      ensures Valid() && nodes == old(nodes) + [node]
    {
      if len != 0 {
        node.prev := tail;
        node.next := null;
        tail.next := node;
        tail := node;
      } else {
        head, tail := node, node;
        node.prev, node.next := null, null;
      }
      len := len + 1;
      nodes := nodes + [node];
    }

    /** list_lpush */
    method LPush(node: ListNode<T>)
      requires Valid() && node !in nodes
      modifies this, Nodes(), node
      ensures Valid() && nodes == [node] + old(nodes)
    {
      if len != 0 {
        node.next := head;
        node.prev := null;
        head.prev := node;
        head := node;
      } else {
        head, tail := node, node;
        node.prev, node.next := null, null;
      }
      len := len + 1;
      nodes := [node] + nodes;
    }

    /** list_rpop */
    method RPop() returns (node: ListNode?<T>)
      requires Valid()
      modifies this, Nodes()
      ensures Valid()
      ensures old(nodes) == [] ==> node == null && nodes == []
      ensures old(nodes) != [] ==> old(nodes) == nodes + [node] && node.prev == null && node.next == null
    {
      if len == 0 {
        return null;
      }
      node := tail;
      ghost var n := |nodes| - 1;
      ghost var rest := nodes[..n];
      assert nodes == rest + [node] && node.prev == At(nodes, n - 1);
      assert forall i :: 0 <= i < n ==> rest[i] == nodes[i];
      len := len - 1;
      if len != 0 {
        tail := node.prev;
        tail.next := null;
      } else {
        head, tail := null, null;
      }
      node.next, node.prev := null, null;
      nodes := rest;
    }

    /** list_lpop */
    method LPop() returns (node: ListNode?<T>)
      requires Valid()
      modifies this, Nodes()
      ensures Valid()
      ensures old(nodes) == [] ==> node == null && nodes == []
      ensures old(nodes) != [] ==> old(nodes) == [node] + nodes && node.prev == null && node.next == null
    {
      if len == 0 {
        return null;
      }
      node := head;
      len := len - 1;
      if len != 0 {
        head := node.next;
        head.prev := null;
      } else {
        head, tail := null, null;
      }
      node.next, node.prev := null, null;
      nodes := nodes[1..];
    }

    /** list_remove; the node leaves the list with its own links as they were. */
    method Remove(node: ListNode<T>, ghost k: nat)
      requires Valid() && k < |nodes| && nodes[k] == node
      modifies this, Nodes()
      ensures Valid() && nodes == Without(old(nodes), k)
      ensures node.prev == old(node.prev) && node.next == old(node.next)
    {
      Unlink(node, k);
      Relinked(nodes, k);
      WithoutAt(nodes, k);
      len := len - 1;
      nodes := Without(nodes, k);
    }

    /** The two pointer updates of list_remove: the neighbours point past the node. */
    method Unlink(node: ListNode<T>, ghost k: nat)
      requires Valid() && k < |nodes| && nodes[k] == node
      modifies `head, `tail, Nodes()
      ensures PastNode(nodes, k)
      ensures head == At(nodes, if k == 0 then 1 else 0)
      ensures tail == At(nodes, if k == |nodes| - 1 then k - 1 else |nodes| - 1)
    {
      assert node.prev == At(nodes, k - 1) && node.next == At(nodes, k + 1);
      if node.prev != null {
        node.prev.next := node.next;
      } else {
        head := node.next;
      }
      if node.next != null {
        node.next.prev := node.prev;
      } else {
        tail := node.prev;
      }
    }

    /** list_find: the first node from the head that matches. */
    method Find(val: T, matches: (T, T) -> bool) returns (node: ListNode?<T>)
      requires Valid()
      ensures node == null ==> NoneMatches(nodes, val, matches)
      ensures node != null ==>
                exists k :: 0 <= k < |nodes| && nodes[k] == node && matches(val, node.val) &&
                    NoneMatches(nodes[..k], val, matches)
    {
      var it := new ListIterator(head, FromHead);
      node := it.Next();
      ghost var k := 0;
      while node != null
        invariant 0 <= k <= |nodes| && node == At(nodes, k) && it.next == At(nodes, k + 1) && it.direction == FromHead
        invariant NoneMatches(nodes[..k], val, matches)
        decreases |nodes| - k
      {
        if matches(val, node.val) {
          return node;
        }
        k := k + 1;
        node := it.Next();
      }
      assert nodes[..k] == nodes;
    }

    /** list_at: a negative index counts from the tail. */
    method NodeAt(index: int) returns (node: ListNode?<T>)
      requires Valid()
      ensures node == At(nodes, if index < 0 then |nodes| + index else index)
    {
      var direction := if index < 0 then FromTail else FromHead;
      var left := if index < 0 then -index - 1 else index;
      if left >= len {
        return null;
      }
      var it := new ListIterator(if direction == FromHead then head else tail, direction);
      node := it.Next();
      ghost var k := if direction == FromHead then 0 else |nodes| - 1;
      while left > 0
        invariant 0 <= left && node == At(nodes, k) && it.direction == direction
        invariant direction == FromHead ==> index == k + left && k + left < |nodes| && it.next == At(nodes, k + 1)
        invariant direction == FromTail ==>
                  |nodes| + index == k - left >= 0 && k < |nodes| && it.next == At(nodes, k - 1)
        invariant 0 <= k
      {
        node := it.Next();
        k := if direction == FromHead then k + 1 else k - 1;
        left := left - 1;
      }
    }
  }

  class ListIterator<T> {
    var next: ListNode?<T>
    const direction: Direction

    /** list_iterator_new_from_node */
    constructor (node: ListNode?<T>, direction: Direction)
      ensures next == node && this.direction == direction
    {
      next := node;
      this.direction := direction;
    }

    /** list_iterator_next: the link is read before the caller gets the node, so the caller may remove it. */
    method Next() returns (curr: ListNode?<T>)
      modifies this
      ensures curr == old(next)
      ensures curr == null ==> next == null
      ensures curr != null ==> next == old(if direction == FromHead then next.next else next.prev)
    {
      curr := next;
      if curr != null {
        next := if direction == FromHead then curr.next else curr.prev;
      }
    }
  }

  // ---- a traversal from tail to head while the visitor changes the list ----

  /** What a visitor does to the list: values pushed at the tail, then the visited node removed or not. */
  datatype Visit<T> = Visit(pushes: seq<T>, drop: bool)

  /** A visitor: what it does at step `t` to a node with this value. */
  type Script<!T> = (nat, T) -> Visit<T>

  /** The nodes that stay, when the last one is visited at step `t` and the walk goes to the front. */
  function Kept<T>(nodes: seq<ListNode<T>>, script: Script<T>, t: nat): seq<ListNode<T>> {
    if nodes == [] then []
    else
      var n := |nodes| - 1;
      Kept(nodes[..n], script, t + 1) + if script(t, nodes[n].val).drop then [] else [nodes[n]]
  }

  /** The values pushed on the way. */
  function Pushed<T>(nodes: seq<ListNode<T>>, script: Script<T>, t: nat): seq<T> {
    if nodes == [] then []
    else var n := |nodes| - 1; script(t, nodes[n].val).pushes + Pushed(nodes[..n], script, t + 1)
  }

  function Reverse<T>(s: seq<T>): seq<T> {
    if s == [] then [] else [s[|s| - 1]] + Reverse(s[..|s| - 1])
  }

  function Values<T>(nodes: seq<ListNode<T>>): (vals: seq<T>)
    ensures |vals| == |nodes| && forall i :: 0 <= i < |nodes| ==> vals[i] == nodes[i].val
  {
    if nodes == [] then [] else Values(nodes[..|nodes| - 1]) + [nodes[|nodes| - 1].val]
  }

  lemma ValuesSnoc<T>(nodes: seq<ListNode<T>>, node: ListNode<T>)
    ensures Values(nodes + [node]) == Values(nodes) + [node.val]
  {
    assert (nodes + [node])[..|nodes|] == nodes;
  }

  lemma ValuesConcat<T>(a: seq<ListNode<T>>, b: seq<ListNode<T>>)
    ensures Values(a + b) == Values(a) + Values(b)
  {
  }

  method PushAll<T>(list: List<T>, vals: seq<T>) returns (ghost added: seq<ListNode<T>>)
    requires list.Valid()
    modifies list, list.Nodes()
    ensures list.Valid() && list.nodes == old(list.nodes) + added && Values(added) == vals
    ensures forall x :: x in added ==> fresh(x)
  {
    ghost var was := list.nodes;
    added := [];
    for i := 0 to |vals|
      invariant list.Valid() && list.nodes == was + added && Values(added) == vals[..i]
      invariant forall x :: x in added ==> fresh(x)
      invariant fresh(list.Nodes() - old(list.Nodes()))
    {
      var node := new ListNode(vals[i]);
      list.RPush(node);
      ValuesSnoc(added, node);
      added := added + [node];
    }
  }

  lemma WithoutConcat<T>(was: seq<ListNode<T>>, added: seq<ListNode<T>>, k: nat)
    requires k < |was|
    ensures Without(was + added, k) == Without(was, k) + added
  {
  }

  /** One turn of a traversal: the visitor pushes at the tail and may then remove the visited node. */
  method VisitNode<T>(list: List<T>, node: ListNode<T>, visit: Visit<T>, ghost k: nat)
    returns (ghost added: seq<ListNode<T>>)
    requires list.Valid() && k < |list.nodes| && list.nodes[k] == node
    modifies list, list.Nodes()
    ensures list.Valid()
    ensures list.nodes == (if visit.drop then Without(old(list.nodes), k) else old(list.nodes)) + added
    ensures Values(added) == visit.pushes && (forall x :: x in added ==> fresh(x))
    ensures fresh(list.Nodes() - old(list.Nodes()))
  {
    hide Linked, Distinct, Values;
    ghost var was := list.nodes;
    added := PushAll(list, visit.pushes);
    if visit.drop {
      assert fresh(list.Nodes() - old(list.Nodes()));
      list.Remove(node, k);
      WithoutConcat(was, added, k);
    }
  }

  /** What the loop has done when it stands before position `j`. */
  ghost predicate Progress<T>(was: seq<ListNode<T>>, now: seq<ListNode<T>>, script: Script<T>, j: nat,
                              visited: seq<ListNode<T>>, kept: seq<ListNode<T>>, added: seq<ListNode<T>>)
  {
    && j <= |was| && now == was[..j] + kept + added
    && Kept(was, script, 0) == Kept(was[..j], script, |was| - j) + kept
    && Reverse(was) == visited + Reverse(was[..j])
    && Pushed(was, script, 0) == Values(added) + Pushed(was[..j], script, |was| - j)
  }

  lemma ProgressStep<T>(was: seq<ListNode<T>>, now: seq<ListNode<T>>, script: Script<T>, j: nat,
                        visited: seq<ListNode<T>>, kept: seq<ListNode<T>>, added: seq<ListNode<T>>,
                        more: seq<ListNode<T>>)
    requires j > 0 && Progress(was, now, script, j, visited, kept, added) &&
             Values(more) == script(|was| - j, was[j - 1].val).pushes
    ensures j - 1 < |now| && now[j - 1] == was[j - 1]
    ensures var drop := script(|was| - j, was[j - 1].val).drop;
            Progress(was, (if drop then Without(now, j - 1) else now) + more, script, j - 1,
                     visited + [was[j - 1]], if drop then kept else [was[j - 1]] + kept, added + more)
  {
    hide Kept, Reverse, Pushed, Values;
    KeptStep(was, script, j);
    ReverseStep(was, j);
    ValuesConcat(added, more);
    PushedStep(was, script, j);
    NodesStep(was, j, kept, added, more);
    var node := was[j - 1];
    var drop := script(|was| - j, was[j - 1].val).drop;
    assert (visited + [node]) + Reverse(was[..j - 1]) == visited + ([node] + Reverse(was[..j - 1]));
    var one := if drop then [] else [node];
    assert (Kept(was[..j - 1], script, |was| - j + 1) + one) + kept ==
        Kept(was[..j - 1], script, |was| - j + 1) + (one + kept);
    assert [] + kept == kept;
  }

  lemma KeptStep<T>(was: seq<ListNode<T>>, script: Script<T>, j: nat)
    requires 0 < j <= |was|
    ensures Kept(was[..j], script, |was| - j) ==
            Kept(was[..j - 1], script, |was| - j + 1) +
            if script(|was| - j, was[j - 1].val).drop then [] else [was[j - 1]]
  {
    assert was[..j][..j - 1] == was[..j - 1];
  }

  lemma ReverseStep<T>(was: seq<T>, j: nat)
    requires 0 < j <= |was|
    ensures Reverse(was[..j]) == [was[j - 1]] + Reverse(was[..j - 1])
  {
    assert was[..j][..j - 1] == was[..j - 1];
  }

  lemma PushedStep<T>(was: seq<ListNode<T>>, script: Script<T>, j: nat)
    requires 0 < j <= |was|
    ensures Pushed(was[..j], script, |was| - j) ==
            script(|was| - j, was[j - 1].val).pushes + Pushed(was[..j - 1], script, |was| - j + 1)
  {
    assert was[..j][..j - 1] == was[..j - 1];
  }

  lemma NodesStep<T>(was: seq<ListNode<T>>, j: nat, kept: seq<ListNode<T>>, added: seq<ListNode<T>>,
      more: seq<ListNode<T>>)
    requires 0 < j <= |was|
    ensures var now := was[..j] + kept + added;
            var node := was[j - 1];
            && now[j - 1] == node
            && Without(now, j - 1) + more == was[..j - 1] + kept + (added + more)
            && now + more == was[..j - 1] + ([node] + kept) + (added + more)
  {
    var now := was[..j] + kept + added;
    assert was[..j] == was[..j - 1] + [was[j - 1]];
    assert now[..j - 1] == was[..j - 1];
    assert now[j..] == kept + added;
  }

  lemma ProgressStart<T>(was: seq<ListNode<T>>, script: Script<T>)
    ensures Progress(was, was, script, |was|, [], [], [])
  {
    assert was[..|was|] == was;
    assert was + [] + [] == was;
  }

  /** One turn of the loop: the iterator has moved on before the visit. */
  method TakeTurn<T>(list: List<T>, iter: ListIterator<T>, script: Script<T>, t: nat, ghost k: nat)
    returns (node: ListNode<T>, ghost more: seq<ListNode<T>>)
    requires list.Valid() && k < |list.nodes| && iter.direction == FromTail && iter.next == At(list.nodes, k)
    modifies list, list.Nodes(), iter
    ensures list.Valid() && node == old(list.nodes)[k] && iter.next == At(old(list.nodes), k - 1)
    ensures var was := old(list.nodes);
            list.nodes == (if script(t, node.val).drop then Without(was, k) else was) + more
    ensures Values(more) == script(t, node.val).pushes && (forall x :: x in more ==> fresh(x))
    ensures fresh(list.Nodes() - old(list.Nodes()))
  {
    hide List.Valid, Values, Without;
    list.Links(k);
    node := iter.Next();
    more := VisitNode(list, node, script(t, node.val), k);
  }

  /**
   * The loop of _traverse_template_list and _traverse_event_list, whose visitors push at the tail only: every node
   * present at the start is visited once, from tail to head, and no node pushed on the way is.
   */
  method TraverseFromTail<T>(list: List<T>, script: Script<T>)
    returns (visited: seq<ListNode<T>>, ghost added: seq<ListNode<T>>)
    requires list.Valid()
    modifies list, list.Nodes()
    ensures list.Valid() && visited == Reverse(old(list.nodes))
    ensures list.nodes == Kept(old(list.nodes), script, 0) + added
    ensures Values(added) == Pushed(old(list.nodes), script, 0) && forall x :: x in added ==> fresh(x)
  {
    hide Kept, Reverse, Pushed, Values, Progress, Without, List.Valid;
    list.Ends();
    visited, added := [], [];
    ghost var was := list.nodes;
    ghost var j: nat := |was|;
    ghost var kept: seq<ListNode<T>> := [];
    ProgressStart(was, script);
    var t := 0;
    var iter := new ListIterator(list.tail, FromTail);
    while iter.next != null
      invariant t == |was| - j && fresh(iter) && iter.direction == FromTail && iter.next == At(was, j - 1)
      invariant list.Valid() && Progress(was, list.nodes, script, j, visited, kept, added)
      invariant fresh(list.Nodes() - old(list.Nodes()))
      invariant forall x :: x in added ==> fresh(x)
      decreases j
    {
      ghost var now := list.nodes;
      ProgressAt(was, now, script, j, visited, kept, added);
      var node: ListNode<T>;
      ghost var more: seq<ListNode<T>>;
      node, more := TakeTurn(list, iter, script, t, j - 1);
      ProgressStep(was, now, script, j, visited, kept, added, more);
      visited := visited + [node];
      kept := if script(t, node.val).drop then kept else [node] + kept;
      added := added + more;
      j := j - 1;
      t := t + 1;
    }
    ProgressEnd(was, list.nodes, script, visited, kept, added);
  }

  lemma ProgressAt<T>(was: seq<ListNode<T>>, now: seq<ListNode<T>>, script: Script<T>, j: nat,
                      visited: seq<ListNode<T>>, kept: seq<ListNode<T>>, added: seq<ListNode<T>>)
    requires j > 0 && Progress(was, now, script, j, visited, kept, added)
    ensures j - 1 < |now| && At(now, j - 2) == At(was, j - 2) && now[j - 1] == was[j - 1]
  {
  }

  lemma ProgressEnd<T>(was: seq<ListNode<T>>, now: seq<ListNode<T>>, script: Script<T>,
                       visited: seq<ListNode<T>>, kept: seq<ListNode<T>>, added: seq<ListNode<T>>)
    requires Progress(was, now, script, 0, visited, kept, added)
    ensures visited == Reverse(was) && now == Kept(was, script, 0) + added && Values(added) == Pushed(was, script, 0)
  {
    assert was[..0] == [];
    assert Reverse(was[..0]) == [] && Kept(was[..0], script, |was|) == [] && Pushed(was[..0], script, |was|) == [];
  }

  // ---- a traversal that only removes ----

  function Filter<T>(s: seq<T>, keep: T -> bool): seq<T> {
    if s == [] then []
    else var n := |s| - 1; Filter(s[..n], keep) + if keep(s[n]) then [s[n]] else []
  }

  /** What a filter leaves out, in the order of a walk from the tail. */
  function Dropped<T>(s: seq<T>, keep: T -> bool): seq<T> {
    if s == [] then []
    else var n := |s| - 1; (if keep(s[n]) then [] else [s[n]]) + Dropped(s[..n], keep)
  }

  lemma {:induction false} FilterSplits<T>(s: seq<T>, keep: T -> bool)
    ensures multiset(Filter(s, keep)) + multiset(Dropped(s, keep)) == multiset(s)
  {
    if s != [] {
      var n := |s| - 1;
      FilterSplits(s[..n], keep);
      FilterLast(s, keep);
      hide Filter, Dropped;
      FilterSplitsSnoc(Filter(s[..n], keep), Dropped(s[..n], keep), s[..n], s[n]);
      assert s == s[..n] + [s[n]];
    }
  }

  lemma FilterLast<T>(s: seq<T>, keep: T -> bool)
    requires s != []
    ensures var n := |s| - 1;
            && Filter(s, keep) == (if keep(s[n]) then Filter(s[..n], keep) + [s[n]] else Filter(s[..n], keep))
            && Dropped(s, keep) == (if keep(s[n]) then Dropped(s[..n], keep) else [s[n]] + Dropped(s[..n], keep))
  {
    var n := |s| - 1;
    assert Filter(s[..n], keep) + [] == Filter(s[..n], keep);
    assert [] + Dropped(s[..n], keep) == Dropped(s[..n], keep);
  }

  lemma {:induction false} DroppedHas<T>(s: seq<T>, keep: T -> bool)
    ensures forall x :: x in Dropped(s, keep) <==> x in s && !keep(x)
    ensures |Filter(s, keep)| + |Dropped(s, keep)| == |s|
  {
    if s != [] {
      var n := |s| - 1;
      DroppedHas(s[..n], keep);
      assert s == s[..n] + [s[n]];
    }
  }

  lemma FilterSplitsSnoc<T>(kept: seq<T>, dropped: seq<T>, s: seq<T>, x: T)
    requires multiset(kept) + multiset(dropped) == multiset(s)
    ensures multiset(kept + [x]) + multiset(dropped) == multiset(s + [x])
    ensures multiset(kept) + multiset([x] + dropped) == multiset(s + [x])
  {
  }

  lemma {:induction false} FilterHas<T>(s: seq<T>, keep: T -> bool)
    ensures forall x :: x in Filter(s, keep) <==> x in s && keep(x)
    ensures |Filter(s, keep)| <= |s|
  {
    if s != [] {
      var n := |s| - 1;
      FilterHas(s[..n], keep);
      assert s == s[..n] + [s[n]];
    }
  }
}
