/**
 * What a timed-out wait does to the commands after it, in the system of CommandRuns: the parser's locals and the
 * module's late lines outlive the command that gave up (src/module_at/at_client.c:364-375, 705-707).
 */
module CommandTimeouts {
  import opened CStrings
  import L = LineFraming
  import opened ResponseStore
  import opened CommandRuns

  /** What holds in every run, timeouts or not. */
  ghost predicate Loose(s: State, table: seq<L.Urc>) {
    && |s.objects| == |s.blocks| == |s.requests|
    && |s.results| + (if s.lock.Some? then 1 else 0) == |s.requests|
    && (s.caller == Idle <==> s.lock.None?)
    && (s.resp == None ||
       (s.resp == Some(Last(s)) && (s.caller == Installed || s.caller == Awaiting || s.caller.Leaving?)))
    && (s.pc == Ended && s.resp == None ==> s.caller != Installed && s.caller != Awaiting && !s.caller.Leaving?)
    && s.asked == (if s.caller in {Idle, Locked, Installed} then |s.results| else |s.requests|)
    && Accounted(s, table)
  }

  lemma LooseInit(s: State, table: seq<L.Urc>)
    requires Init(s)
    ensures Loose(s, table)
  {
  }

  lemma LooseNext(s: State, table: seq<L.Urc>, a: Action)
    requires Loose(s, table) && Enabled(s, table, a)
    ensures Loose(Next(s, table, a), table)
  {
    if a.Handle? {
      LooseHandle(s, table);
    } else if a.Answer? || a.Unsolicited? {
      LooseSent(s, table, a);
    } else if a.Read? {
      hide Loose, Next, Enabled, IsUrc, Calls;
      LooseRead(s, table);
    } else {
      hide Judge, Kept, L.UrcOf, IsUrc, Complete, Calls, Handled;
      assert Pending(Next(s, table, a)) == Pending(s);
    }
  }

  lemma LooseRead(s: State, table: seq<L.Urc>)
    requires Loose(s, table) && Enabled(s, table, Read)
    ensures Loose(Next(s, table, Read), table)
  {
    hide Next, Enabled, IsUrc, Calls;
    NextRead(s, table);
    assert [s.wire[0]] + s.wire[1..] == s.wire;
    assert Pending(Next(s, table, Read)) == Pending(s);
  }

  lemma LooseSent(s: State, table: seq<L.Urc>, a: Action)
    requires Loose(s, table) && Enabled(s, table, a) && (a.Answer? || a.Unsolicited?)
    ensures Loose(Next(s, table, a), table)
  {
    hide Judge, Kept, L.UrcOf, IsUrc, Complete, Calls, Handled;
    PendingPush(s, a.line);
    var t := Next(s, table, a);
    assert Pending(t) == Pending(s) + [a.line];
    assert s.judged + Pending(s) + [a.line] == s.judged + Pending(t);
  }

  lemma LooseHandle(s: State, table: seq<L.Urc>)
    requires Loose(s, table) && Enabled(s, table, Handle)
    ensures Loose(Next(s, table, Handle), table)
  {
    hide Next, Enabled, Handled, IsUrc, L.UrcOf, Calls, Answers, Accounted, Pending;
    NextHandle(s, table);
    HandledBooks(s, table, s.pc.line);
    AccountsMove(table, s, Next(s, table, Handle), s.pc.line);
  }

  lemma HandledBooks(s: State, table: seq<L.Urc>, line: string)
    requires s.resp.Some? ==> s.resp.value < |s.requests| && s.resp.value < |s.objects|
    ensures var t := Handled(s, table, line);
            && t.requests == s.requests && t.blocks == s.blocks && t.results == s.results && t.lock == s.lock
            && t.caller == s.caller && t.resp == s.resp && t.asked == s.asked && |t.objects| == |s.objects|
            && t.sent == s.sent && t.judged == s.judged + [line] && Pending(t) == s.wire
            && (t.pc == Ended ==> t.resp.Some?)
            && t.calls == s.calls + if IsUrc(table, line) then [(L.UrcOf(table, line), line)] else []
  {
    hide IsUrc, L.UrcOf, Judge, Layout;
  }

  lemma {:induction false} LooseRun(table: seq<L.Urc>, states: seq<State>, actions: seq<Action>, k: nat)
    requires IsTimedRun(table, states, actions) && k < |states|
    ensures Loose(states[k], table)
    decreases k
  {
    if k == 0 {
      LooseInit(states[0], table);
    } else {
      hide Loose, Enabled, Next, Init;
      LooseRun(table, states, actions, k - 1);
      LooseNext(states[k - 1], table, actions[k - 1]);
    }
  }

  // ---- when the next command is safe ----

  /**
   * Nobody holds the lock, the parser's locals are empty or about to be reset, it has not told anybody, and no
   * answer is on its way to it.
   */
  predicate Quiet(s: State, table: seq<L.Urc>) {
    s.caller == Idle && AtRest(s) && !s.notice && Answers(table, Pending(s)) == []
  }

  lemma QuietInv(s: State, table: seq<L.Urc>)
    requires Loose(s, table) && Quiet(s, table) && |s.results| > 0
    ensures Inv(s, table, |s.results|)
  {
    hide Answers, Calls, Complete, Outcome, Growing;
  }

  lemma {:induction false} InvFrom(table: seq<L.Urc>, states: seq<State>, actions: seq<Action>, m: nat, k: nat)
    requires IsTimedRun(table, states, actions) && m <= k < |states| && |states[m].results| > 0 &&
             Quiet(states[m], table)
    requires forall i :: m <= i < k ==>
               !actions[i].Expire? && (actions[i].Answer? ==> states[i].asked > |states[m].results|)
    ensures Inv(states[k], table, |states[m].results|)
    decreases k
  {
    hide Inv, Quiet, Enabled, Next, Init;
    if k == m {
      LooseRun(table, states, actions, m);
      QuietInv(states[m], table);
    } else {
      InvFrom(table, states, actions, m, k - 1);
      InvNext(states[k - 1], table, |states[m].results|, actions[k - 1]);
    }
  }

  /**
   * After any timeouts: once the client is quiet, and while nothing more comes of the commands before, each further
   * command returns the verdict on its own block and exactly the lines of it that fit.
   */
  lemma ResumesAfterTimeout(table: seq<L.Urc>, states: seq<State>, actions: seq<Action>, m: nat, k: nat, j: nat)
    requires IsTimedRun(table, states, actions) && m <= k < |states| && |states[m].results| > 0 &&
             Quiet(states[m], table)
    requires forall i :: m <= i < k ==>
               !actions[i].Expire? && (actions[i].Answer? ==> states[i].asked > |states[m].results|)
    requires |states[m].results| <= j < |states[k].results|
    ensures var s := states[k];
            && j < |s.requests| && j < |s.blocks|
            && Complete(s.requests[j], s.blocks[j])
            && s.results[j] == Outcome(s.requests[j], s.blocks[j])
  {
    hide Phase, Orderly, Accounted, Complete, Outcome, Quiet, Enabled, Next, Init, Filed;
    InvFrom(table, states, actions, m, k);
  }

  // ---- and when it is not ----

  /**
   * The state after these steps, if each is possible, none is a timeout and every answer belongs to a command
   * from number `base` on.
   */
  function Exec(table: seq<L.Urc>, base: nat, s: State, acts: seq<Action>): Option<State> {
    if acts == [] then Some(s)
    else
      var a := acts[|acts| - 1];
      match Exec(table, base, s, acts[..|acts| - 1])
      case None => None
      case Some(m) =>
        if Enabled(m, table, a) && !a.Expire? && (a.Answer? ==> m.asked > base) then Some(Next(m, table, a)) else None
  }

  lemma ExecPush(table: seq<L.Urc>, base: nat, s: State, acts: seq<Action>, a: Action, m: State)
    requires Exec(table, base, s, acts) == Some(m)
    requires Enabled(m, table, a) && !a.Expire? && (a.Answer? ==> m.asked > base)
    ensures Exec(table, base, s, acts + [a]) == Some(Next(m, table, a))
  {
    hide Enabled, Next;
    assert (acts + [a])[..|acts|] == acts;
  }

  lemma {:induction false} ExecConcat(table: seq<L.Urc>, base: nat, s: State, a: seq<Action>, m: State, b: seq<Action>)
    requires Exec(table, base, s, a) == Some(m)
    ensures Exec(table, base, s, a + b) == Exec(table, base, m, b)
    decreases |b|
  {
    hide Enabled, Next;
    if b == [] {
      assert a + b == a;
    } else {
      var n := |b| - 1;
      assert (a + b)[..|a + b| - 1] == a + b[..n] && (a + b)[|a + b| - 1] == b[n];
      ExecConcat(table, base, s, a, m, b[..n]);
    }
  }

  lemma {:induction false} ExecInv(table: seq<L.Urc>, base: nat, s: State, acts: seq<Action>)
    requires Inv(s, table, base)
    ensures Exec(table, base, s, acts).Some? ==> Inv(Exec(table, base, s, acts).value, table, base)
    decreases |acts|
  {
    hide Inv, Enabled, Next;
    if acts != [] && Exec(table, base, s, acts).Some? {
      var n := |acts| - 1;
      ExecInv(table, base, s, acts[..n]);
      InvNext(Exec(table, base, s, acts[..n]).value, table, base, acts[n]);
    }
  }

  /** The next command, if these steps finish it, returns what its own block calls for. */
  ghost predicate NextIsRight(table: seq<L.Urc>, s: State, acts: seq<Action>) {
    var b := |s.results|;
    var t := Exec(table, b, s, acts);
    t.Some? && b < |t.value.results| ==>
      && b < |t.value.requests| && b < |t.value.blocks|
      && t.value.results[b] == Outcome(t.value.requests[b], t.value.blocks[b])
  }

  lemma QuietIsRight(table: seq<L.Urc>, s: State, acts: seq<Action>)
    requires Loose(s, table) && Quiet(s, table) && |s.results| > 0
    ensures NextIsRight(table, s, acts)
  {
    QuietInv(s, table);
    ExecInv(table, |s.results|, s, acts);
    hide Phase, Orderly, Accounted, Complete, Outcome, Exec, Filed;
  }

  // A run that goes wrong, from any state that is not quiet.

  /** The next caller takes the lock and installs a response of this size. */
  function Entered(s: State, size: nat): State {
    var j := |s.requests|;
    s.(lock := Some(0), caller := Installed, requests := s.requests + [Request(size, 0)],
       objects := s.objects + [Object([], 0)], blocks := s.blocks + [[]],
       taken := [], status := RespOk, resp := Some(j))
  }

  lemma Enter(table: seq<L.Urc>, base: nat, s: State, size: nat) returns (acts: seq<Action>)
    requires Loose(s, table) && s.caller == Idle
    ensures Exec(table, base, s, acts) == Some(Entered(s, size))
  {
    hide Exec, Accounted;
    var first := Lock(0, Request(size, 0), Object([], 0));
    ExecPush(table, base, s, [], first, s) by {
      ExecNone(table, base, s);
    }
    var m := Next(s, table, first);
    assert m.objects[|s.objects|] == Object([], 0);
    assert m.objects[|s.objects| := Object([], 0)] == m.objects;
    ExecPush(table, base, s, [] + [first], Install, m);
    acts := [] + [first] + [Install];
  }

  lemma ExecNone(table: seq<L.Urc>, base: nat, s: State)
    ensures Exec(table, base, s, []) == Some(s)
  {
  }

  /** Command number `b` is under way, with a response of this size that ends at "OK". */
  predicate UnderWay(m: State, b: nat, size: nat) {
    && |m.objects| == |m.blocks| == |m.requests| == b + 1 && |m.results| == b
    && m.lock.Some? && m.requests[b] == Request(size, 0)
  }

  /** The told caller leaves. */
  lemma Leave(table: seq<L.Urc>, base: nat, s: State, acts: seq<Action>, m: State, b: nat, size: nat)
    returns (more: seq<Action>, t: State)
    requires Exec(table, base, s, acts) == Some(m) && UnderWay(m, b, size) && m.caller == Awaiting && m.notice
    ensures Exec(table, base, s, more) == Some(t)
    ensures |t.results| == b + 1 && t.results[b] == Result(m.status == RespOk, Readable(m.objects, b))
    ensures t.requests == m.requests && t.blocks == m.blocks
  {
    hide Exec, Readable, IsUrc, Complete, Handled;
    ExecPush(table, base, s, acts, Observe, m);
    var m1 := Next(m, table, Observe);
    ExecPush(table, base, s, acts + [Observe], DropResp, m1);
    var m2 := Next(m1, table, DropResp);
    ExecPush(table, base, s, acts + [Observe] + [DropResp], ClearNotice, m2);
    var m3 := Next(m2, table, ClearNotice);
    ExecPush(table, base, s, acts + [Observe] + [DropResp] + [ClearNotice], Unlock, m3);
    more := acts + [Observe] + [DropResp] + [ClearNotice] + [Unlock];
    t := Next(m3, table, Unlock);
  }

  /** What the parser does next after a last line. */
  function ClosingStep(m: State): Action {
    match m.pc
    case Ended => StoreCount
    case Counted => Release
    case _ => Tell
  }

  lemma Closes(table: seq<L.Urc>, base: nat, s: State, acts: seq<Action>, m: State, b: nat, size: nat)
    returns (t: State)
    requires Exec(table, base, s, acts) == Some(m) && UnderWay(m, b, size)
    requires (m.pc == Ended && m.resp == Some(b)) || m.pc == Counted || m.pc == Cleared
    ensures Exec(table, base, s, acts + [ClosingStep(m)]) == Some(t) && UnderWay(t, b, size)
    ensures t.pc == match m.pc case Ended => Counted case Counted => Cleared case _ => Told
    ensures (t.notice <==> m.notice || m.pc == Cleared)
    ensures t.caller == m.caller && t.requests == m.requests && t.blocks == m.blocks && t.status == m.status
  {
    hide Exec, IsUrc, Complete, Handled;
    ExecPush(table, base, s, acts, ClosingStep(m), m);
    t := Next(m, table, ClosingStep(m));
  }

  /** The parser tells although nothing has come in. */
  lemma Tells(table: seq<L.Urc>, base: nat, s: State, acts: seq<Action>, m: State, b: nat, size: nat)
    returns (more: seq<Action>, t: State)
    requires Exec(table, base, s, acts) == Some(m) && UnderWay(m, b, size)
    requires m.notice || (m.pc == Ended && m.resp == Some(b)) || m.pc == Counted || m.pc == Cleared
    ensures Exec(table, base, s, more) == Some(t) && UnderWay(t, b, size) && t.notice
    ensures t.caller == m.caller && t.requests == m.requests && t.blocks == m.blocks && t.status == m.status
    decreases match m.pc case Ended => 3 case Counted => 2 case Cleared => 1 case _ => 0
  {
    hide Exec, Enabled, Next, UnderWay, ClosingStep;
    if m.notice {
      more, t := acts, m;
    } else {
      var next := Closes(table, base, s, acts, m, b, size);
      if next.notice {
        more, t := acts + [ClosingStep(m)], next;
      } else {
        more, t := Tells(table, base, s, acts + [ClosingStep(m)], next, b, size);
      }
    }
  }

  /** The caller sends its command and is told at once. */
  lemma Premature(table: seq<L.Urc>, base: nat, s: State, acts: seq<Action>, m: State, b: nat, size: nat)
    returns (more: seq<Action>, t: State)
    requires Exec(table, base, s, acts) == Some(m) && UnderWay(m, b, size) && m.caller == Installed &&
             m.status == RespOk
    requires m.notice || (m.pc == Ended && m.resp == Some(b)) || m.pc == Counted || m.pc == Cleared
    ensures Exec(table, base, s, more) == Some(t)
    ensures |t.results| == b + 1 && t.results[b].ok && t.requests == m.requests && t.blocks == m.blocks
  {
    hide Exec, IsUrc, Complete, Handled, Readable;
    var acts1, m1 := Tells(table, base, s, acts, m, b, size);
    ExecPush(table, base, s, acts1, Send, m1);
    more, t := Leave(table, base, s, acts1 + [Send], Next(m1, table, Send), b, size);
  }

  /** The parser has judged the last line: it closes the response and the caller leaves with it. */
  lemma Finish(table: seq<L.Urc>, base: nat, s: State, acts: seq<Action>, m: State, b: nat, size: nat)
    returns (more: seq<Action>, t: State)
    requires Exec(table, base, s, acts) == Some(m) && UnderWay(m, b, size) && m.caller == Awaiting
    requires m.pc == Ended && m.resp == Some(b) && m.objects[b].lines == m.local
    ensures Exec(table, base, s, more) == Some(t)
    ensures |t.results| == b + 1 && t.results[b].lines == m.local && t.requests == m.requests && t.blocks == m.blocks
  {
    hide Exec, IsUrc, Complete, Handled;
    ExecPush(table, base, s, acts, StoreCount, m);
    var m1 := Next(m, table, StoreCount);
    ExecPush(table, base, s, acts + [StoreCount], Release, m1);
    var m2 := Next(m1, table, Release);
    ExecPush(table, base, s, acts + [StoreCount] + [Release], Tell, m2);
    var m3 := Next(m2, table, Tell);
    assert Readable(m3.objects, b) == m.local[..|m.local|] == m.local;
    hide Readable;
    more, t := Leave(table, base, s, acts + [StoreCount] + [Release] + [Tell], m3, b, size);
  }

  function Total(lines: seq<string>): nat {
    if lines == [] then 0 else |lines[0]| + 1 + Total(lines[1..])
  }

  lemma LayoutGrows(lines: seq<string>, line: string)
    ensures |Layout(lines + [line])| <= |Layout(lines)| + |line| + 1
  {
    assert (lines + [line])[..|lines|] == lines;
  }

  /** The command is sent, nothing of its own block has come, and everything pending fits. */
  predicate Draining(m: State, b: nat, size: nat) {
    && UnderWay(m, b, size) && m.caller == Awaiting && !m.notice && m.resp == Some(b) && m.asked == b + 1
    && (m.pc == Reading || m.pc.Holding?) && m.blocks[b] == []
    && |Layout(m.local)| + Total(Pending(m)) + 5 < size
  }

  lemma DrainHandle(table: seq<L.Urc>, m: State, b: nat, size: nat)
    requires Draining(m, b, size) && m.pc.Holding?
    ensures Enabled(m, table, Handle)
    ensures var t := Next(m, table, Handle);
            && UnderWay(t, b, size) && t.caller == Awaiting && t.resp == Some(b) && t.blocks == m.blocks
            && t.local == (if IsUrc(table, m.pc.line) then m.local else m.local + [m.pc.line])
            && (t.pc == Ended ==> t.local != [] && t.objects[b].lines == t.local)
            && (t.pc != Ended ==> Draining(t, b, size) && t.pc == Reading && t.wire == m.wire)
  {
    hide IsUrc, L.UrcOf, Judge, Layout;
    var line := m.pc.line;
    LayoutGrows(m.local, line);
    assert Pending(m)[1..] == m.wire && Pending(m)[0] == line;
    assert Total(Pending(m)) == |line| + 1 + Total(m.wire);
    assert [] + m.wire == m.wire;
  }

  /** Reads whatever is on its way, until that ends the response or runs out. */
  lemma {:induction false} Drain(table: seq<L.Urc>, base: nat, s: State, acts: seq<Action>, m: State, b: nat, size: nat)
    returns (more: seq<Action>, t: State)
    requires Exec(table, base, s, acts) == Some(m) && Draining(m, b, size)
    ensures Exec(table, base, s, more) == Some(t) && UnderWay(t, b, size) && t.caller == Awaiting && t.resp == Some(b)
    ensures t.requests == m.requests && t.blocks == m.blocks
    ensures if t.pc == Ended then t.local != [] && t.objects[b].lines == t.local
            else Draining(t, b, size) && t.pc == Reading && t.wire == [] &&
                 (t.local == [] <==> m.local == [] && Answers(table, Pending(m)) == [])
    decreases |m.wire|, m.pc.Holding?
  {
    hide Exec, Next, Enabled, IsUrc, Layout, Answers, Draining;
    DrainShape(m, b, size);
    if m.pc.Holding? {
      AnswersFirst(table, m.pc.line, m.wire);
      DrainHandle(table, m, b, size);
      ExecPush(table, base, s, acts, Handle, m);
      var n := Next(m, table, Handle);
      HandleSame(table, m);
      assert Pending(m) == [m.pc.line] + m.wire && [] + Answers(table, m.wire) == Answers(table, m.wire);
      if n.pc == Ended {
        return acts + [Handle], n;
      }
      DrainShape(n, b, size);
      assert Pending(n) == m.wire;
      more, t := Drain(table, base, s, acts + [Handle], n, b, size);
    } else if m.wire == [] {
      AnswersOfNone(table);
      return acts, m;
    } else {
      ReadOne(table, m, b, size);
      ExecPush(table, base, s, acts, Read, m);
      more, t := Drain(table, base, s, acts + [Read], Next(m, table, Read), b, size);
    }
  }

  lemma AnswersOfNone(table: seq<L.Urc>)
    ensures Answers(table, []) == []
  {
  }

  lemma DrainShape(m: State, b: nat, size: nat)
    requires Draining(m, b, size)
    ensures UnderWay(m, b, size) && m.caller == Awaiting && m.resp == Some(b) && (m.pc == Reading || m.pc.Holding?)
    ensures Pending(m) == (if m.pc.Holding? then [m.pc.line] else []) + m.wire
    ensures m.pc == Reading && m.wire == [] ==> Pending(m) == []
  {
    hide Layout;
  }

  lemma HandleSame(table: seq<L.Urc>, m: State)
    requires Enabled(m, table, Handle)
    ensures Next(m, table, Handle).requests == m.requests
  {
    hide IsUrc, L.UrcOf, Judge, Layout;
  }

  lemma ReadOne(table: seq<L.Urc>, m: State, b: nat, size: nat)
    requires Draining(m, b, size) && m.pc == Reading && m.wire != []
    ensures Enabled(m, table, Read)
    ensures var t := Next(m, table, Read);
            && Draining(t, b, size) && t.pc.Holding? && |t.wire| < |m.wire| && t.local == m.local
            && t.requests == m.requests && t.blocks == m.blocks && Pending(t) == Pending(m)
  {
    hide Layout, IsUrc, Complete;
    NextRead(m, table);
    assert [m.wire[0]] + m.wire[1..] == m.wire;
    assert Pending(Next(m, table, Read)) == Pending(m);
  }

  lemma OkEnds(count: nat)
    ensures Judge(0, count, OK_LINE) == Success && Cut(OK_LINE) == "OK\r" && |OK_LINE| == 4
  {
  }

  lemma NotYet(size: nat)
    ensures !Complete(Request(size, 0), []) && Outcome(Request(size, 0), []).lines == [] &&
            !Outcome(Request(size, 0), []).ok
  {
  }

  lemma OneLine(size: nat, line: string)
    ensures |Outcome(Request(size, 0), [line]).lines| <= 1
  {
    KeptPush(size, [], line);
    assert [] + [line] == [line] && Kept(size, []) == [];
  }

  /** The module answers "OK" to a parser that has nothing to read. */
  lemma OkSent(table: seq<L.Urc>, base: nat, s: State, acts: seq<Action>, m: State, b: nat, size: nat)
    returns (more: seq<Action>, t: State)
    requires Exec(table, base, s, acts) == Some(m) && Draining(m, b, size) && m.pc == Reading && m.wire == []
    requires base <= b && !IsUrc(table, OK_LINE)
    ensures Exec(table, base, s, more) == Some(t)
    ensures t == m.(pc := Holding(OK_LINE), sent := m.sent + [OK_LINE], blocks := m.blocks[b := [OK_LINE]])
  {
    hide Exec, IsUrc, L.UrcOf, Judge, Layout, Complete, Handled;
    NotYet(size);
    var m1 := m.(wire := [OK_LINE], sent := m.sent + [OK_LINE], blocks := m.blocks[b := [OK_LINE]]);
    assert [] + [OK_LINE] == [OK_LINE];
    assert Enabled(m, table, Answer(OK_LINE)) && Next(m, table, Answer(OK_LINE)) == m1;
    ExecPush(table, base, s, acts, Answer(OK_LINE), m);
    t := m1.(pc := Holding(OK_LINE), wire := []);
    assert Enabled(m1, table, Read) && Next(m1, table, Read) == t;
    ExecPush(table, base, s, acts + [Answer(OK_LINE)], Read, m1);
    more := acts + [Answer(OK_LINE)] + [Read];
  }

  /** It may already count a line. */
  lemma Late(table: seq<L.Urc>, base: nat, s: State, acts: seq<Action>, m: State, b: nat, size: nat)
    returns (more: seq<Action>, t: State)
    requires Exec(table, base, s, acts) == Some(m) && Draining(m, b, size) && m.pc == Reading && m.wire == []
    requires base <= b && !IsUrc(table, OK_LINE)
    ensures Exec(table, base, s, more) == Some(t) && UnderWay(t, b, size) && t.caller == Awaiting && t.resp == Some(b)
    ensures t.pc == Ended && t.local == m.local + [OK_LINE] && t.objects[b].lines == t.local
    ensures t.requests == m.requests && t.blocks[b] == [OK_LINE]
  {
    hide Exec, IsUrc, L.UrcOf, Judge, Layout, Complete;
    OkEnds(|m.local| + 1);
    var acts1, m1 := OkSent(table, base, s, acts, m, b, size);
    ExecPush(table, base, s, acts1, Handle, m1);
    more := acts1 + [Handle];
    t := Next(m1, table, Handle);
  }

  /**
   * The command is under way with a line, its own or not, already in the locals or on its way: it ends with
   * too many.
   */
  lemma TooMany(table: seq<L.Urc>, base: nat, s: State, acts: seq<Action>, m: State, b: nat, size: nat)
    returns (more: seq<Action>, t: State)
    requires Exec(table, base, s, acts) == Some(m) && Draining(m, b, size) && base <= b && !IsUrc(table, OK_LINE)
    requires m.local != [] || Answers(table, Pending(m)) != []
    ensures Exec(table, base, s, more) == Some(t) && |t.results| == b + 1 && b < |t.requests| && b < |t.blocks|
    ensures t.results[b] != Outcome(t.requests[b], t.blocks[b])
  {
    hide Exec, IsUrc, Complete, Draining, Outcome, Answers;
    DrainShape(m, b, size);
    BlockEmpty(m, b, size);
    NotYet(size);
    OneLine(size, OK_LINE);
    var acts1, m1 := Drain(table, base, s, acts, m, b, size);
    if m1.pc != Ended {
      acts1, m1 := Late(table, base, s, acts1, m1, b, size);
    }
    more, t := Finish(table, base, s, acts1, m1, b, size);
  }

  lemma BlockEmpty(m: State, b: nat, size: nat)
    requires Draining(m, b, size)
    ensures b < |m.blocks| && m.blocks[b] == []
  {
    hide Layout;
  }

  /** From a state that is not quiet the next command can go wrong, with nothing late from the module and no timeout. */
  lemma NotQuietGoesWrong(table: seq<L.Urc>, s: State) returns (acts: seq<Action>)
    requires Loose(s, table) && s.caller == Idle && !Quiet(s, table) && !IsUrc(table, OK_LINE)
    ensures !NextIsRight(table, s, acts)
  {
    hide Exec, IsUrc, Complete, Outcome, Answers, Accounted, Layout;
    var b := |s.results|;
    var size := |Layout(s.local)| + |Layout([])| + Total(Pending(s)) + 6;
    NotYet(size);
    acts := Enter(table, b, s, size);
    var m := Entered(s, size);
    var t: State;
    if m.notice || m.pc == Ended || m.pc == Counted || m.pc == Cleared {
      acts, t := Premature(table, b, s, acts, m, b, size);
    } else {
      acts, m := GoOn(table, b, s, acts, size);
      acts, t := TooMany(table, b, s, acts, m, b, size);
    }
  }

  /** The next command is sent while the parser reads. */
  lemma GoOn(table: seq<L.Urc>, b: nat, s: State, acts: seq<Action>, size: nat) returns (more: seq<Action>, t: State)
    requires Loose(s, table) && s.caller == Idle && !Quiet(s, table) && b == |s.results|
    requires size == |Layout(s.local)| + |Layout([])| + Total(Pending(s)) + 6
    requires var m := Entered(s, size);
             Exec(table, b, s, acts) == Some(m) && !m.notice && m.pc != Ended && m.pc != Counted && m.pc != Cleared
    ensures Exec(table, b, s, more) == Some(t) && Draining(t, b, size)
    ensures t.local != [] || Answers(table, Pending(t)) != []
  {
    hide Exec, IsUrc, Complete, Outcome, Answers, Accounted, Layout, Handled;
    var m := Entered(s, size);
    more := acts;
    assert Pending(m) == Pending(s);
    if m.pc == Told {
      ExecPush(table, b, s, more, Reset, m);
      more, m := more + [Reset], m.(pc := Reading, local := []);
      assert Pending(m) == Pending(s);
    }
    ExecPush(table, b, s, more, Send, m);
    more, t := more + [Send], m.(caller := Awaiting, asked := |m.requests|);
    assert Pending(t) == Pending(s);
  }

  /**
   * After a timeout, exactly: whatever happens next, short of another timeout and of more answers to the commands
   * before, the next command returns what its own block calls for if and only if the client is quiet.
   */
  lemma QuietExactly(table: seq<L.Urc>, s: State)
    requires Loose(s, table) && s.caller == Idle && |s.results| > 0 && !IsUrc(table, OK_LINE)
    ensures (forall acts :: NextIsRight(table, s, acts)) <==> Quiet(s, table)
  {
    hide Loose, Quiet, NextIsRight, IsUrc;
    if Quiet(s, table) {
      forall acts ensures NextIsRight(table, s, acts) {
        QuietIsRight(table, s, acts);
      }
    } else {
      var acts := NotQuietGoesWrong(table, s);
    }
  }

  // ---- such a state is reached ----

  const FIRST_LINE: string := "A\r\n"

  lemma FirstLineGoesOn()
    ensures Judge(0, 1, FIRST_LINE) == More && |FIRST_LINE| == 3 && Layout([]) == ""
  {
    var t := Cut(FIRST_LINE) + [NUL];
    assert t == ['A', '\r', NUL];
    assert StrChr(t, 2, NUL) == 2 && StrChr(t, 1, NUL) == 2 && StrChr(t, 0, NUL) == 2;
    assert t[..2] == ['A', '\r'];
    assert ['A', '\r'][1..] == ['\r'] && ['\r'][1..] == [];
    assert !Contains([], "ERROR") && !Contains(['\r'], "ERROR") && !Contains(['A', '\r'], "ERROR");
  }

  /** A command is sent, takes one line of its answer, its wait times out, and it leaves. */
  function Steps(line: string): seq<Action> {
    [Lock(1, Request(64, 0), Object([], 0)), Install, Send, Answer(line), Read, Handle,
     Expire, DropResp, ClearNotice, Unlock]
  }

  function SentOut(): State {
    Begun().(lock := Some(1), caller := Awaiting, requests := [Request(64, 0)], objects := [Object([], 0)],
             blocks := [[]], resp := Some(0), asked := 1)
  }

  /** The parser has stored the line and goes on, or has found that it ends the response. */
  function Taking(line: string, pc: Pc): State {
    SentOut().(sent := [line], blocks := [[line]], judged := [line], local := [line],
               objects := [Object([line], 0)], taken := [line], pc := pc)
  }

  function GivenUp(line: string, pc: Pc): State {
    Taking(line, pc).(lock := None, caller := Idle, results := [Result(false, [])], resp := None, status := RespTimeout)
  }

  function Stage(line: string, pc: Pc, k: nat): State {
    if k == 0 then Begun()
    else if k == 1 then
      Begun().(lock := Some(1), caller := Locked, requests := [Request(64, 0)], objects := [Object([], 0)],
               blocks := [[]])
    else if k == 2 then SentOut().(caller := Installed, asked := 0)
    else if k == 3 then SentOut()
    else if k == 4 then SentOut().(wire := [line], sent := [line], blocks := [[line]])
    else if k == 5 then SentOut().(pc := Holding(line), sent := [line], blocks := [[line]])
    else if k == 6 then Taking(line, pc)
    else if k == 7 then Taking(line, pc).(caller := Leaving(false), status := RespTimeout)
    else if k == 8 then Taking(line, pc).(caller := Dropping(false), status := RespTimeout, resp := None)
    else if k == 9 then Taking(line, pc).(caller := Unlocking(false), status := RespTimeout, resp := None)
    else GivenUp(line, pc)
  }

  /** The line is stored; it ends the response exactly if the parser stands at Ended. */
  predicate Stored(line: string, pc: Pc) {
    && line != "" && |line| < 64 && Layout([]) == ""
    && (pc == Ended || pc == Reading) && Judge(0, 1, line) == if pc == Ended then Success else More
  }

  predicate Leads(line: string, pc: Pc, k: nat)
    requires k < 10
  {
    && Enabled(Stage(line, pc, k), [], Steps(line)[k])
    && Stage(line, pc, k + 1) == Next(Stage(line, pc, k), [], Steps(line)[k])
  }

  lemma StageEnter(line: string, pc: Pc, k: nat)
    requires k < 3
    ensures Leads(line, pc, k)
  {
    hide IsUrc, Complete, Handled, Readable;
    assert [Object([], 0)][0 := Object([], 0)] == [Object([], 0)];
  }

  lemma StageAnswer(line: string, pc: Pc)
    requires line != ""
    ensures Leads(line, pc, 3)
  {
    NotYet(64);
    NoUrc();
    hide IsUrc, Complete, Readable, Handled;
    assert [[]][0 := [line]] == [[line]] && [] + [line] == [line];
  }

  lemma StageRead(line: string, pc: Pc)
    ensures Leads(line, pc, 4)
  {
    hide IsUrc, Complete, Readable, Handled;
    assert [line][1..] == [];
  }

  lemma StageHandle(line: string, pc: Pc)
    requires Stored(line, pc)
    ensures Leads(line, pc, 5)
  {
    NoUrc();
    hide IsUrc, Complete, Readable, Judge, Layout;
    assert [] + [line] == [line] && [Object([], 0)][0 := Object([line], 0)] == [Object([line], 0)];
  }

  lemma StageLeave(line: string, pc: Pc, k: nat)
    requires 6 <= k < 9
    ensures Leads(line, pc, k)
  {
    hide IsUrc, Complete, Handled, Readable;
  }

  lemma StageUnlock(line: string, pc: Pc)
    ensures Leads(line, pc, 9)
  {
    hide IsUrc, Complete, Handled;
    assert Readable([Object([line], 0)], 0) == [line][..0] == [];
  }

  lemma StageLeads(line: string, pc: Pc, k: nat)
    requires k < 10 && Stored(line, pc)
    ensures Leads(line, pc, k)
  {
    hide Leads;
    if k < 3 {
      StageEnter(line, pc, k);
    } else if k == 3 {
      StageAnswer(line, pc);
    } else if k == 4 {
      StageRead(line, pc);
    } else if k == 5 {
      StageHandle(line, pc);
    } else if k < 9 {
      StageLeave(line, pc, k);
    } else {
      StageUnlock(line, pc);
    }
  }

  lemma StageRun(line: string, pc: Pc, n: nat) returns (states: seq<State>, actions: seq<Action>)
    requires n <= 10 && Stored(line, pc)
    ensures IsTimedRun([], states, actions) && |actions| == n && |states| == n + 1 && states[n] == Stage(line, pc, n)
  {
    hide Enabled, Next;
    actions := Steps(line)[..n];
    states := seq(n + 1, k requires 0 <= k < n + 1 => Stage(line, pc, k));
    forall k | 0 <= k < n
      ensures Enabled(states[k], [], actions[k]) && states[k + 1] == Next(states[k], [], actions[k])
    {
      StageLeads(line, pc, k);
    }
    assert states[0] == Begun();
  }

  /** A run in which a command takes a line and times out, after which the next one can go wrong. */
  lemma TimeoutLeaks() returns (states: seq<State>, actions: seq<Action>)
    ensures IsTimedRun([], states, actions) && |actions| == 10 && states[10].caller == Idle && |states[10].results| == 1
    ensures !Quiet(states[10], []) && exists acts :: !NextIsRight([], states[10], acts)
  {
    FirstLineGoesOn();
    hide IsTimedRun, NextIsRight, IsUrc, Loose, Judge, Layout;
    states, actions := StageRun(FIRST_LINE, Reading, 10);
    LooseRun([], states, actions, 10);
    NoUrc();
    QuietExactly([], states[10]);
  }

  // ---- a response dropped before its lines are counted ----

  /**
   * The parser counts the lines through a null response (at_client.c:770) in exactly those states where it has found
   * the end of a response, the caller has dropped that response, and no next one has installed its own.
   */
  lemma CountThroughNull(table: seq<L.Urc>, states: seq<State>, actions: seq<Action>, k: nat)
    requires IsTimedRun(table, states, actions) && k < |states| && states[k].pc == Ended
    ensures var s := states[k];
            && (s.resp == None <==> s.caller != Installed && s.caller != Awaiting && !s.caller.Leaving?)
            && (s.resp == None <==> !Enabled(s, table, StoreCount))
  {
    hide IsTimedRun, Accounted, IsUrc, Complete;
    LooseRun(table, states, actions, k);
  }

  /** Without timeouts it never does. */
  lemma CountFindsResponse(table: seq<L.Urc>, states: seq<State>, actions: seq<Action>, k: nat)
    requires IsRun(table, states, actions) && k < |states| && states[k].pc == Ended
    ensures Enabled(states[k], table, StoreCount)
  {
    hide IsRun, Accounted, IsUrc, Complete, Settled, Orderly, Filed, Arrived, Answers, Kept;
    InvRun(table, states, actions, k);
  }

  /** A run in which a wait times out between verdict and count. */
  lemma NullReached() returns (states: seq<State>, actions: seq<Action>)
    ensures IsTimedRun([], states, actions) && |actions| == 8
    ensures states[8].pc == Ended && states[8].resp == None && !Enabled(states[8], [], StoreCount)
  {
    OkEnds(1);
    FirstLineGoesOn();
    hide IsTimedRun, Judge, Layout;
    states, actions := StageRun(OK_LINE, Ended, 8);
  }
}
