/** The tokens of posted events (src/data_template/data_template_event.c), over the runs of PendingList. */
module EventTokens {
  import opened LinkedList
  import opened PendingList
  import opened Tokens

  /** An event, and so is all that its callback posts; or a document that takes a token. */
  predicate IsEvent(o: Order) {
    o.Order? ==> o.source.Issued? && forall k :: 0 <= k < |o.further| ==> IsEvent(o.further[k])
  }

  predicate AllEvents(orders: seq<Order>) {
    forall k :: 0 <= k < |orders| ==> IsEvent(orders[k])
  }

  /** A run of the event list; documents take tokens from the same counter, inside a pass, too. */
  predicate IsEventRun(actions: seq<Action>) {
    forall k :: 0 <= k < |actions| && actions[k].Place? ==> IsEvent(actions[k].order)
  }

  /** Every accepted event has the token of its issue number, and the numbers ascend. */
  ghost predicate Numbered(s: System) {
    && |s.numbers| == |s.accepted|
    && (forall i, j :: 0 <= i < j < |s.numbers| ==> s.numbers[i] < s.numbers[j])
    && (forall i :: 0 <= i < |s.numbers| ==> s.numbers[i] < s.issued)
    && (forall i :: 0 <= i < |s.accepted| ==>
          s.accepted[i].token == Token(s.productId, s.numbers[i]) && AllEvents(s.accepted[i].further))
  }

  lemma NumberedSubmit(s: System, o: Order)
    requires Numbered(s) && IsEvent(o)
    ensures Numbered(Submit(s, o))
  {
    hide Token;
  }

  lemma {:induction false} NumberedAll(s: System, orders: seq<Order>)
    requires Numbered(s) && AllEvents(orders)
    ensures Numbered(SubmitAll(s, orders))
  {
    hide Submit, IsEvent, Numbered;
    if orders != [] {
      var n := |orders| - 1;
      NumberedAll(s, orders[..n]);
      NumberedSubmit(SubmitAll(s, orders[..n]), orders[n]);
    }
  }

  lemma NumberedTurn(s: System, j: nat, h: Handler)
    requires Numbered(s) && Inv(s) && j < |s.pending|
    ensures Numbered(Turn(s, j, h))
  {
    hide Token, AllEvents, SubmitAll, Inv;
    var w := s.pending[j];
    PendingDistinct(s);
    assert AllEvents(w.further);
    if Takes(h, w) && Reports(h, w) != [] {
      NumberedAll(s.(reported := s.reported + Reports(h, w)), w.further);
    }
  }

  lemma {:induction false} NumberedAfter(s: System, h: Handler, t: nat)
    requires Numbered(s) && Inv(s) && t <= |s.pending|
    ensures Numbered(After(s, h, t))
  {
    hide Turn, Inv, Numbered;
    if t > 0 {
      NumberedAfter(s, h, t - 1);
      InvAfter(s, h, t - 1);
      AfterTurn(s, h, t - 1);
      NumberedTurn(After(s, h, t - 1), |s.pending| - t, h);
    }
  }

  lemma {:induction false} NumberedRun(productId: string, actions: seq<Action>)
    requires IsEventRun(actions)
    ensures Numbered(Run(productId, actions)) && Run(productId, actions).productId == productId
  {
    if actions != [] {
      var n := |actions| - 1;
      var s := Run(productId, actions[..n]);
      NumberedRun(productId, actions[..n]);
      InvRun(productId, actions[..n]);
      hide Inv, IsEvent, After, Submit;
      match actions[n]
      case Place(o) =>
        NumberedSubmit(s, o);
        SubmitKeepsId(s, o);
      case Pass(h) =>
        hide Numbered;
        NumberedAfter(s, h, |s.pending|);
        PassKeepsId(s, h, |s.pending|);
    }
  }

  lemma SubmitKeepsId(s: System, o: Order)
    ensures Submit(s, o).productId == s.productId
  {
  }

  lemma {:induction false} AllKeepId(s: System, orders: seq<Order>)
    ensures SubmitAll(s, orders).productId == s.productId
  {
    if orders != [] {
      AllKeepId(s, orders[..|orders| - 1]);
    }
  }

  lemma {:induction false} PassKeepsId(s: System, h: Handler, t: nat)
    requires t <= |s.pending|
    ensures After(s, h, t).productId == s.productId
  {
    hide After, Turn;
    if t > 0 {
      PassKeepsId(s, h, t - 1);
      AfterTurn(s, h, t - 1);
      TurnKeepsId(After(s, h, t - 1), |s.pending| - t, h);
    } else {
      AfterStart(s, h);
    }
  }

  lemma TurnKeepsId(s: System, j: nat, h: Handler)
    requires j < |s.pending|
    ensures Turn(s, j, h).productId == s.productId
  {
    hide Takes, Reports, SubmitAll;
    var w := s.pending[j];
    AllKeepId(s.(reported := s.reported + Reports(h, w)), w.further);
  }

  /** The issue number of a pending event, and how many tokens have been issued since, its own included. */
  function NumberOf(s: System, i: nat): nat
    requires i < |s.pending|
  {
    if s.pending[i].id < |s.numbers| then s.numbers[s.pending[i].id] else 0
  }

  function Age(s: System, i: nat): int
    requires i < |s.pending|
  {
    s.issued - NumberOf(s, i)
  }

  lemma PendingToken(productId: string, actions: seq<Action>, i: nat)
    requires IsEventRun(actions) && i < |Run(productId, actions).pending|
    ensures var s := Run(productId, actions);
            s.pending[i].id < |s.numbers| && s.pending[i].token == Token(productId, NumberOf(s, i)) &&
                NumberOf(s, i) < s.issued
  {
    NumberedRun(productId, actions);
    InvRun(productId, actions);
    hide Run, Token;
    PendingDistinct(Run(productId, actions));
    assert Run(productId, actions).pending[i] in Run(productId, actions).pending;
  }

  /** In every run two pending events share a token exactly when their issue numbers are whole rounds apart. */
  lemma SharedToken(productId: string, actions: seq<Action>, i: nat, j: nat)
    requires IsEventRun(actions) && i < j < |Run(productId, actions).pending|
    ensures var s := Run(productId, actions);
            && NumberOf(s, i) != NumberOf(s, j)
            && (s.pending[i].token == s.pending[j].token <==> (NumberOf(s, j) - NumberOf(s, i)) % TOKEN_SPACE == 0)
  {
    hide Run, Token, NumberOf, Numbered, Inv;
    PendingToken(productId, actions, i);
    PendingToken(productId, actions, j);
    NumberedRun(productId, actions);
    InvRun(productId, actions);
    var s := Run(productId, actions);
    NumbersDiffer(s, i, j);
    TokenEqual(productId, NumberOf(s, i), NumberOf(s, j));
    SameResidue(NumberOf(s, i), NumberOf(s, j));
  }

  lemma NumbersDiffer(s: System, i: nat, j: nat)
    requires Numbered(s) && Inv(s) && i < j < |s.pending|
    ensures NumberOf(s, i) != NumberOf(s, j)
  {
    PendingDistinct(s);
    hide Inv, Token;
    assert s.pending[i] in s.pending && s.pending[j] in s.pending;
  }

  predicate DistinctTokens(ws: seq<Waiter>) {
    forall i, j :: 0 <= i < j < |ws| ==> ws[i].token != ws[j].token
  }

  /** While no more than 2^32 tokens are issued during the life of a pending event, no other has its token. */
  lemma TokensDistinct(productId: string, actions: seq<Action>)
    requires IsEventRun(actions)
    requires var s := Run(productId, actions); forall i :: 0 <= i < |s.pending| ==> Age(s, i) <= TOKEN_SPACE
    ensures DistinctTokens(Run(productId, actions).pending)
  {
    hide Run, Token, NumberOf, IsEventRun;
    var s := Run(productId, actions);
    forall i, j | 0 <= i < j < |s.pending| ensures s.pending[i].token != s.pending[j].token {
      SharedToken(productId, actions, i, j);
      PendingToken(productId, actions, i);
      PendingToken(productId, actions, j);
      assert Age(s, i) <= TOKEN_SPACE && Age(s, j) <= TOKEN_SPACE;
      NotARound(NumberOf(s, i), NumberOf(s, j));
    }
  }

  lemma NotARound(m: nat, n: nat)
    requires m != n && m < n + TOKEN_SPACE && n < m + TOKEN_SPACE
    ensures (n - m) % TOKEN_SPACE != 0
  {
  }

  lemma {:induction false} OneTaken(ws: seq<Waiter>, token: string)
    requires DistinctTokens(ws)
    ensures |Dropped(ws, Stays(EventReply(token)))| <= 1
  {
    if ws != [] {
      var n := |ws| - 1;
      OneTaken(ws[..n], token);
      DroppedHas(ws[..n], Stays(EventReply(token)));
      var rest := Dropped(ws[..n], Stays(EventReply(token)));
      hide Dropped, Filter;
      LastDropped(ws, Stays(EventReply(token)));
      if rest != [] {
        assert rest[0] in rest && rest[0] in ws[..n];
        var k :| 0 <= k < n && ws[..n][k] == rest[0];
        assert ws[k].token != ws[n].token;
      }
    }
  }

  lemma LastDropped(ws: seq<Waiter>, keep: Waiter -> bool)
    requires ws != []
    ensures var n := |ws| - 1; Dropped(ws, keep) == (if keep(ws[n]) then [] else [ws[n]]) + Dropped(ws[..n], keep)
  {
  }

  /** Then a reply takes at most one event and runs at most one callback, even when that callback posts events. */
  lemma ReplyReachesOne(productId: string, actions: seq<Action>, token: string)
    requires IsEventRun(actions)
    requires var s := Run(productId, actions); forall i :: 0 <= i < |s.pending| ==> Age(s, i) <= TOKEN_SPACE
    ensures var before := Run(productId, actions);
            var after := Run(productId, actions + [Pass(EventReply(token))]);
            && |before.reported| <= |after.reported| <= |before.reported| + 1
            && |before.left| <= |after.left| <= |before.left| + 1
  {
    var h := EventReply(token);
    var s := Run(productId, actions);
    TokensDistinct(productId, actions);
    assert (actions + [Pass(h)])[..|actions|] == actions;
    assert Run(productId, actions + [Pass(h)]) == Step(s, Pass(h));
    OneTaken(s.pending, token);
    hide Run, Step, Filter, Dropped, Stays, DistinctTokens;
    PassExact(s, h, Waiter(0, token, 0, true, []));
    OneReport(h, Dropped(s.pending, Stays(h)));
  }

  lemma OneReport(h: Handler, taken: seq<Waiter>)
    requires |taken| <= 1
    ensures |AllReports(h, taken)| <= 1
  {
    if |taken| == 1 {
      assert taken[..0] == [];
    }
  }
}
