/**
 * Commands and their responses in src/module_at/at_client.c: several callers of at_obj_exec_cmd behind one
 * lock, the parser thread, and a module that answers in order and sends unsolicited lines at any time.
 * A wait may time out; what that does to the commands after it is told in CommandTimeouts.
 */
module CommandRuns {
  import opened CStrings
  import opened LineFraming
  import opened ResponseStore

  /** What a caller asks for: the size of the response buffer and the number of lines to wait for. */
  datatype Request = Request(size: nat, lineNum: nat)

  /** Where the lock holder is in at_obj_exec_cmd; Idle when nobody holds the lock. */
  datatype Caller =
    | Idle
    | Locked
    | Installed
    | Awaiting
    | Leaving(ok: bool)
    | Dropping(ok: bool)
    | Unlocking(ok: bool)

  /**
   * Where the parser is: after the checks of a last line it stores the count, drops the response, tells, and
   * resets.
   */
  datatype Pc = Reading | Holding(line: string) | Ended | Counted | Cleared | Told

  /** A response object: the lines in its buffer, left-overs included, and its line_counts. */
  datatype Object = Object(lines: seq<string>, count: nat)

  /** What a command returned, with the lines its response then held. */
  datatype Result = Result(ok: bool, lines: seq<string>)

  /**
   * `lock`, `resp`, `status` and `notice` are the client's fields; commands are numbered in the order they take
   * the lock. `local` is what the parser's locals count. `wire` holds the lines sent and not yet read.
   * The rest records what happened: the module's answers by command, those the parser has taken of the
   * command under way, all lines sent and all lines handled, the calls of the table's functions, the lines nobody took.
   */
  datatype State = State(
    lock: Option<nat>, caller: Caller, requests: seq<Request>, objects: seq<Object>, results: seq<Result>,
    resp: Option<nat>, status: Status, notice: bool,
    pc: Pc, local: seq<string>,
    wire: seq<string>, asked: nat, blocks: seq<seq<string>>, taken: seq<string>,
    sent: seq<string>, judged: seq<string>, calls: seq<(nat, string)>, ignored: seq<string>)

  datatype Action =
    | Lock(thread: nat, request: Request, buffer: Object)
    | Install
    | Send
    | Observe
    | Expire
    | DropResp
    | ClearNotice
    | Unlock
    | Answer(line: string)
    | Unsolicited(line: string)
    | Read
    | Handle
    | StoreCount
    | Release
    | Tell
    | Reset

  predicate Init(s: State) {
    s == State(None, Idle, [], [], [], None, RespOk, false, Reading, [], [], 0, [], [], [], [], [], [])
  }

  /** The block is a whole response: its last line ends it. */
  predicate Complete(r: Request, block: seq<string>) {
    block != [] && !Judge(r.lineNum, |Kept(r.size, block)|, block[|block| - 1]).More?
  }

  /** How a command must end whose response is `block`. */
  function Outcome(r: Request, block: seq<string>): Result {
    var kept := Kept(r.size, block);
    Result(block != [] && Judge(r.lineNum, |kept|, block[|block| - 1]).Success?, kept)
  }

  predicate IsUrc(table: seq<Urc>, line: string) {
    UrcOf(table, line) < |table|
  }

  /** The command under way. */
  function Last(s: State): nat {
    if s.requests == [] then 0 else |s.requests| - 1
  }

  function Rq(s: State): Request {
    if s.requests == [] then Request(0, 0) else s.requests[|s.requests| - 1]
  }

  function Block(s: State): seq<string> {
    if s.blocks == [] then [] else s.blocks[|s.blocks| - 1]
  }

  function Obj(s: State): Object {
    if s.objects == [] then Object([], 0) else s.objects[|s.objects| - 1]
  }

  predicate Enabled(s: State, table: seq<Urc>, a: Action) {
    match a
    case Lock(_, _, _) => s.lock.None?
    case Install => s.caller == Locked && Last(s) < |s.objects|
    case Send => s.caller == Installed
    case Observe => s.caller == Awaiting && s.notice
    case Expire => s.caller == Awaiting
    case DropResp => s.caller.Leaving?
    case ClearNotice => s.caller.Dropping?
    case Unlock => s.caller.Unlocking?
    // the module answers the command it was sent, up to the end of the response
    case Answer(line) =>
      && line != "" && !IsUrc(table, line)
      && 0 < s.asked <= |s.requests| && s.asked <= |s.blocks|
      && !Complete(s.requests[s.asked - 1], s.blocks[s.asked - 1])
    case Unsolicited(line) => line != "" && IsUrc(table, line)
    case Read => s.pc == Reading && s.wire != []
    case Handle => s.pc.Holding? && (s.resp.Some? ==> s.resp.value < |s.requests| && s.resp.value < |s.objects|)
    case StoreCount => s.pc == Ended && s.resp.Some? && s.resp.value < |s.objects|
    case Release => s.pc == Counted
    case Tell => s.pc == Cleared
    case Reset => s.pc == Told
  }

  /** The parser with a line: as Parser.HandleLine of ResponseStore. */
  function Handled(s: State, table: seq<Urc>, line: string): State
    requires s.resp.Some? ==> s.resp.value < |s.requests| && s.resp.value < |s.objects|
  {
    var t := s.(pc := Reading, judged := s.judged + [line]);
    if IsUrc(table, line) then t.(calls := s.calls + [(UrcOf(table, line), line)])
    else if s.resp.None? then t.(ignored := s.ignored + [line])
    else
      var j := s.resp.value;
      var r := s.requests[j];
      var fits := |Layout(s.local)| + |line| < r.size;
      var local := if fits then s.local + [line] else s.local;
      var u := t.(
        local := local,
        objects := if fits then s.objects[j := s.objects[j].(lines := local)] else s.objects,
        status := if fits then s.status else RespBuffFull,
        taken := s.taken + [line]);
      match Judge(r.lineNum, |local|, line)
      case More => u
      case Success => u.(status := RespOk, pc := Ended)
      case Failed => u.(status := RespError, pc := Ended)
  }

  function Next(s: State, table: seq<Urc>, a: Action): State
    requires Enabled(s, table, a)
  {
    match a
    case Lock(t, r, o) =>
      s.(lock := Some(t), caller := Locked, requests := s.requests + [r], objects := s.objects + [o],
         blocks := s.blocks + [[]], taken := [])
    case Install =>
      var j := Last(s);
      s.(caller := Installed, status := RespOk, resp := Some(j), objects := s.objects[j := s.objects[j].(count := 0)])
    case Send => s.(caller := Awaiting, asked := |s.requests|)
    case Observe => s.(caller := Leaving(s.status == RespOk))
    case Expire => s.(caller := Leaving(false), status := RespTimeout)
    case DropResp => s.(caller := Dropping(s.caller.ok), resp := None)
    case ClearNotice => s.(caller := Unlocking(s.caller.ok), notice := false)
    case Unlock =>
      s.(caller := Idle, lock := None, results := s.results + [Result(s.caller.ok, Readable(s.objects, Last(s)))])
    case Answer(line) =>
      s.(wire := s.wire + [line], sent := s.sent + [line],
         blocks := s.blocks[s.asked - 1 := s.blocks[s.asked - 1] + [line]])
    case Unsolicited(line) => s.(wire := s.wire + [line], sent := s.sent + [line])
    case Read => s.(pc := Holding(s.wire[0]), wire := s.wire[1..])
    case Handle => Handled(s, table, s.pc.line)
    case StoreCount =>
      var j := s.resp.value;
      s.(pc := Counted, objects := s.objects[j := s.objects[j].(count := |s.local|)])
    case Release => s.(pc := Cleared, resp := None)
    case Tell => s.(pc := Told, notice := true)
    case Reset => s.(pc := Reading, local := [])
  }

  /** The lines of a response object that line_counts lets its readers see. */
  function Readable(objects: seq<Object>, j: nat): seq<string> {
    if j < |objects| && objects[j].count <= |objects[j].lines| then objects[j].lines[..objects[j].count] else []
  }

  // ---- what every step keeps ----

  /** The lines that are answers, not unsolicited. */
  function Answers(table: seq<Urc>, lines: seq<string>): seq<string> {
    if lines == [] then []
    else Answers(table, lines[..|lines| - 1]) + if IsUrc(table, lines[|lines| - 1]) then [] else [lines[|lines| - 1]]
  }

  /** The calls that the unsolicited ones must lead to. */
  function Calls(table: seq<Urc>, lines: seq<string>): seq<(nat, string)> {
    if lines == [] then []
    else
      var line := lines[|lines| - 1];
      Calls(table, lines[..|lines| - 1]) + if IsUrc(table, line) then [(UrcOf(table, line), line)] else []
  }

  /** Lines sent and not yet handled. */
  function Pending(s: State): seq<string> {
    (if s.pc.Holding? then [s.pc.line] else []) + s.wire
  }

  lemma AnswersPush(table: seq<Urc>, lines: seq<string>, line: string)
    ensures Answers(table, lines + [line]) == Answers(table, lines) + if IsUrc(table, line) then [] else [line]
    ensures Calls(table, lines + [line]) ==
            Calls(table, lines) + if IsUrc(table, line) then [(UrcOf(table, line), line)] else []
  {
    assert (lines + [line])[..|lines|] == lines;
  }

  lemma {:induction false} AnswersSplit(table: seq<Urc>, a: seq<string>, b: seq<string>)
    ensures Answers(table, a + b) == Answers(table, a) + Answers(table, b)
    decreases |b|
  {
    hide IsUrc;
    if b == [] {
      assert a + b == a;
    } else {
      var n := |b| - 1;
      assert a + b == (a + b[..n]) + [b[n]];
      AnswersPush(table, a + b[..n], b[n]);
      AnswersSplit(table, a, b[..n]);
    }
  }

  /** The next line goes from the pending ones. */
  lemma AnswersFirst(table: seq<Urc>, line: string, rest: seq<string>)
    ensures Answers(table, [line] + rest) == (if IsUrc(table, line) then [] else [line]) + Answers(table, rest)
  {
    AnswersSplit(table, [line], rest);
    AnswersPush(table, [], line);
    assert [] + [line] == [line];
  }

  /** No shorter beginning of the block is a whole response. */
  ghost predicate Growing(r: Request, block: seq<string>) {
    forall m :: 0 <= m < |block| ==> !Complete(r, block[..m])
  }

  /** The parser is between two responses; its locals are, or are about to be, empty. */
  predicate AtRest(s: State) {
    s.pc == Told || ((s.pc == Reading || s.pc.Holding?) && s.local == [])
  }

  /** The command under way has not been sent, or none is. */
  ghost predicate Before(s: State, table: seq<Urc>) {
    && AtRest(s) && !s.notice && Answers(table, Pending(s)) == [] && s.asked == |s.results|
    && s.resp == (if s.caller == Installed then Some(Last(s)) else None)
    && (s.lock.Some? ==> s.taken == [] && Block(s) == [])
  }

  /** The command is sent and its response not complete at the parser. */
  ghost predicate During(s: State, table: seq<Urc>) {
    var r := Rq(s);
    && s.resp == Some(Last(s)) && !s.notice && s.asked == |s.requests|
    && (s.pc == Told ==> s.taken == [])
    && (s.pc != Told ==> s.local == Kept(r.size, s.taken))
    && Kept(r.size, s.taken) <= Obj(s).lines
    && Block(s) == s.taken + Answers(table, Pending(s))
    && !Complete(r, s.taken)
  }

  /** The response has come in, with what it means for the caller. */
  ghost predicate Arrived(s: State, table: seq<Urc>) {
    var r := Rq(s);
    var block := Block(s);
    && s.asked == |s.requests| && Answers(table, Pending(s)) == [] && s.taken == block && Complete(r, block)
    && Kept(r.size, block) <= Obj(s).lines
    && s.status == if Outcome(r, block).ok then RespOk else RespError
  }

  ghost predicate Closing(s: State, table: seq<Urc>) {
    && Arrived(s, table) && !s.notice && s.local == Kept(Rq(s).size, s.taken)
    && s.resp == (if s.pc == Cleared then None else Some(Last(s)))
    && (s.pc != Ended ==> Obj(s).count == |s.local|)
  }

  ghost predicate After(s: State, table: seq<Urc>) {
    && Arrived(s, table) && AtRest(s) && s.resp == None
    && Obj(s).count == |Kept(Rq(s).size, s.taken)|
    && s.notice == !s.caller.Unlocking?
    && (s.caller.Leaving? || s.caller.Dropping? || s.caller.Unlocking? ==> s.caller.ok == Outcome(Rq(s), Block(s)).ok)
  }

  ghost predicate Phase(s: State, table: seq<Urc>) {
    match s.caller
    case Idle => s.lock.None? && Before(s, table)
    case Locked => s.lock.Some? && Before(s, table)
    case Installed => s.lock.Some? && Before(s, table)
    case Awaiting =>
      && s.lock.Some?
      && if s.notice then After(s, table)
         else if s.pc == Ended || s.pc == Counted || s.pc == Cleared then Closing(s, table)
         else During(s, table)
    case _ => s.lock.Some? && After(s, table)
  }

  /** Every finished command from number `base` on returned what its own block calls for. */
  ghost predicate Settled(results: seq<Result>, requests: seq<Request>, blocks: seq<seq<string>>, base: nat) {
    forall j :: base <= j < |results| && j < |requests| && j < |blocks| ==>
      Complete(requests[j], blocks[j]) && results[j] == Outcome(requests[j], blocks[j])
  }

  ghost predicate Orderly(requests: seq<Request>, blocks: seq<seq<string>>, base: nat) {
    forall j :: base <= j < |blocks| && j < |requests| ==> Growing(requests[j], blocks[j])
  }

  /** Where every line sent went. */
  ghost predicate Accounted(s: State, table: seq<Urc>) {
    s.sent == s.judged + Pending(s) && s.calls == Calls(table, s.judged)
  }

  function Flat(blocks: seq<seq<string>>): seq<string> {
    if blocks == [] then [] else Flat(blocks[..|blocks| - 1]) + blocks[|blocks| - 1]
  }

  /** From the start on: the answers sent are the blocks, one after the other, and no line was ignored. */
  ghost predicate Filed(s: State, table: seq<Urc>, base: nat) {
    base == 0 ==> Answers(table, s.sent) == Flat(s.blocks) && s.ignored == []
  }

  /** What the steps keep; the commands before number `base` are not spoken of. */
  ghost predicate Inv(s: State, table: seq<Urc>, base: nat) {
    && |s.objects| == |s.blocks| == |s.requests| && base <= |s.results|
    && (s.lock.Some? ==> s.requests != [])
    && |s.results| + (if s.lock.Some? then 1 else 0) == |s.requests|
    && Phase(s, table) && Settled(s.results, s.requests, s.blocks, base) && Orderly(s.requests, s.blocks, base)
    && Accounted(s, table) && Filed(s, table, base)
  }

  lemma EmptyBlock(r: Request)
    ensures Growing(r, []) && !Complete(r, []) && Kept(r.size, []) == []
  {
  }

  lemma FlatPush(blocks: seq<seq<string>>, line: string)
    ensures Flat(blocks + [[]]) == Flat(blocks)
    ensures blocks != [] ==> Flat(blocks[|blocks| - 1 := blocks[|blocks| - 1] + [line]]) == Flat(blocks) + [line]
  {
    assert (blocks + [[]])[..|blocks|] == blocks;
    if blocks != [] {
      var n := |blocks| - 1;
      assert blocks[n := blocks[n] + [line]][..n] == blocks[..n];
    }
  }

  lemma StepEnter(s: State, table: seq<Urc>, base: nat, a: Action)
    requires Inv(s, table, base) && Enabled(s, table, a) && (a.Lock? || a.Install? || a.Send?)
    ensures Inv(Next(s, table, a), table, base)
  {
    hide Kept, Judge, Layout, UrcOf, Answers, Calls, Complete, Outcome, Growing, Flat, Handled, IsUrc;
    var t := Next(s, table, a);
    assert Pending(t) == Pending(s);
    EmptyBlock(Rq(t));
    FlatPush(s.blocks, "");
  }

  lemma StepLeave(s: State, table: seq<Urc>, base: nat, a: Action)
    requires Inv(s, table, base) && Enabled(s, table, a) && (a.Observe? || a.DropResp? || a.ClearNotice?)
    ensures Inv(Next(s, table, a), table, base)
  {
    hide Kept, Judge, Layout, UrcOf, Answers, Calls, Complete, Outcome, Growing, Settled, Orderly, Flat;
    var t := Next(s, table, a);
    assert Pending(t) == Pending(s);
  }

  lemma StepUnlock(s: State, table: seq<Urc>, base: nat)
    requires Inv(s, table, base) && Enabled(s, table, Unlock)
    ensures Inv(Next(s, table, Unlock), table, base)
  {
    hide Judge, Layout, UrcOf, Answers, Calls, Complete, Growing, Orderly, Kept, Flat;
    var t := Next(s, table, Unlock);
    assert Pending(t) == Pending(s);
    var kept := Kept(Rq(s).size, Block(s));
    assert kept <= Obj(s).lines && Obj(s).count == |kept|;
    assert Readable(s.objects, Last(s)) == kept;
    assert t.results[|s.results|] == Outcome(Rq(s), Block(s));
  }

  lemma StepStoreCount(s: State, table: seq<Urc>, base: nat)
    requires Inv(s, table, base) && Enabled(s, table, StoreCount)
    ensures Inv(Next(s, table, StoreCount), table, base)
  {
    hide Kept, Answers, Calls, Complete, Outcome, Growing, Settled, Orderly, Flat, Handled, IsUrc;
    assert Pending(Next(s, table, StoreCount)) == Pending(s);
    SameLines(s, Next(s, table, StoreCount), table, base);
    hide Accounted, Filed;
  }

  lemma StepRelease(s: State, table: seq<Urc>, base: nat)
    requires Inv(s, table, base) && Enabled(s, table, Release)
    ensures Inv(Next(s, table, Release), table, base)
  {
    hide Kept, Answers, Calls, Complete, Outcome, Growing, Settled, Orderly, Flat, Handled, IsUrc;
    assert Pending(Next(s, table, Release)) == Pending(s);
    SameLines(s, Next(s, table, Release), table, base);
    hide Accounted, Filed;
  }

  lemma StepTell(s: State, table: seq<Urc>, base: nat)
    requires Inv(s, table, base) && Enabled(s, table, Tell)
    ensures Inv(Next(s, table, Tell), table, base)
  {
    hide Kept, Answers, Calls, Complete, Outcome, Growing, Settled, Orderly, Flat, Handled, IsUrc;
    assert Pending(Next(s, table, Tell)) == Pending(s);
    SameLines(s, Next(s, table, Tell), table, base);
    hide Accounted, Filed;
  }

  lemma StepReset(s: State, table: seq<Urc>, base: nat)
    requires Inv(s, table, base) && Enabled(s, table, Reset)
    ensures Inv(Next(s, table, Reset), table, base)
  {
    hide Kept, Answers, Calls, Complete, Outcome, Growing, Settled, Orderly, Flat, Handled, IsUrc;
    var t := Next(s, table, Reset);
    assert Pending(t) == Pending(s);
    SameLines(s, t, table, base);
    EmptyBlock(Rq(t));
    hide Accounted, Filed, Pending;
  }

  /** No line moves. */
  lemma SameLines(s: State, t: State, table: seq<Urc>, base: nat)
    requires Accounted(s, table) && Filed(s, table, base)
    requires t.sent == s.sent && t.judged == s.judged && t.calls == s.calls && t.blocks == s.blocks
    requires t.ignored == s.ignored && Pending(t) == Pending(s)
    ensures Accounted(t, table) && Filed(t, table, base)
  {
  }

  lemma PendingPush(s: State, line: string)
    ensures Pending(s.(wire := s.wire + [line])) == Pending(s) + [line]
  {
  }

  lemma GrowingPush(r: Request, block: seq<string>, line: string)
    requires Growing(r, block) && !Complete(r, block)
    ensures Growing(r, block + [line])
  {
    hide Complete;
    forall m | 0 <= m < |block + [line]| ensures !Complete(r, (block + [line])[..m]) {
      assert (block + [line])[..m] == block[..m];
      assert block[..|block|] == block;
    }
  }

  lemma StepAnswer(s: State, table: seq<Urc>, base: nat, line: string)
    requires Inv(s, table, base) && Enabled(s, table, Answer(line)) && s.asked > base
    ensures Inv(Next(s, table, Answer(line)), table, base)
  {
    hide Kept, Judge, Layout, UrcOf, Answers, Calls, Complete, Outcome, Growing, Flat;
    var t := Next(s, table, Answer(line));
    PendingPush(s, line);
    AnswersPush(table, Pending(s), line);
    AnswersPush(table, s.sent, line);
    FlatPush(s.blocks, line);
    assert Pending(t) == Pending(s) + [line];
    GrowingPush(Rq(s), Block(s), line);
    assert Block(t) == Block(s) + [line];
    assert s.taken + Answers(table, Pending(s)) + [line] == s.taken + (Answers(table, Pending(s)) + [line]);
    assert s.judged + Pending(s) + [line] == s.judged + Pending(t);
  }

  lemma StepUnsolicited(s: State, table: seq<Urc>, base: nat, line: string)
    requires Inv(s, table, base) && Enabled(s, table, Unsolicited(line))
    ensures Inv(Next(s, table, Unsolicited(line)), table, base)
  {
    hide Kept, Answers, Calls, Complete, Outcome, Growing, Settled, Orderly, Flat, Handled;
    var t := Next(s, table, Unsolicited(line));
    PendingPush(s, line);
    AnswersPush(table, Pending(s), line);
    AnswersPush(table, s.sent, line);
    assert Pending(t) == Pending(s) + [line];
    assert Answers(table, Pending(t)) == Answers(table, Pending(s)) + [] == Answers(table, Pending(s));
    SentMore(s, t, table, line);
    assert Answers(table, s.sent) + [] == Answers(table, s.sent);
    hide Accounted, Pending;
    SamePhase(s, t, table);
    hide Phase;
  }

  /** A line more is sent and pending. */
  lemma SentMore(s: State, t: State, table: seq<Urc>, line: string)
    requires Accounted(s, table) && t.sent == s.sent + [line] && Pending(t) == Pending(s) + [line]
    requires t.judged == s.judged && t.calls == s.calls
    ensures Accounted(t, table)
  {
    assert s.judged + Pending(s) + [line] == s.judged + (Pending(s) + [line]);
  }

  lemma NextRead(s: State, table: seq<Urc>)
    requires Enabled(s, table, Read)
    ensures s.pc == Reading && s.wire != []
    ensures Next(s, table, Read) == s.(pc := Holding(s.wire[0]), wire := s.wire[1..])
  {
    hide IsUrc, Complete, Handled;
  }

  lemma StepRead(s: State, table: seq<Urc>, base: nat)
    requires Inv(s, table, base) && Enabled(s, table, Read)
    ensures Inv(Next(s, table, Read), table, base)
  {
    hide Kept, Answers, Calls, Complete, Outcome, Growing, Settled, Orderly, Flat, Next, Enabled;
    NextRead(s, table);
    var t := Next(s, table, Read);
    assert [s.wire[0]] + s.wire[1..] == s.wire;
    assert Pending(t) == Pending(s);
    SameLines(s, t, table, base);
    hide Accounted, Filed, Pending, Outcome, IsUrc;
    SamePhase(s, t, table);
    hide Phase;
  }

  /** A response that is whole is the whole block: the module stopped there. */
  lemma BlockEnds(r: Request, taken: seq<string>, rest: seq<string>)
    requires Growing(r, taken + rest) && Complete(r, taken)
    ensures rest == []
  {
    hide Complete;
    assert (taken + rest)[..|taken|] == taken;
  }

  /** Whether one more line makes the response whole, by the parser's own check. */
  lemma CompletePush(r: Request, taken: seq<string>, line: string)
    ensures var kept := Kept(r.size, taken);
            var local := if |Layout(kept)| + |line| < r.size then kept + [line] else kept;
            && Kept(r.size, taken + [line]) == local
            && Complete(r, taken + [line]) == !Judge(r.lineNum, |local|, line).More?
            && Outcome(r, taken + [line]).ok == Judge(r.lineNum, |local|, line).Success?
  {
    KeptPush(r.size, taken, line);
    hide Kept, Judge, Layout;
  }

  /** What the parser makes of an answer, in terms of the answers taken. */
  lemma Taken(s: State, table: seq<Urc>, line: string)
    requires s.requests != [] && |s.objects| == |s.requests| && s.resp == Some(Last(s)) && !IsUrc(table, line)
    requires var kept := Kept(Rq(s).size, s.taken); s.local == kept && kept <= Obj(s).lines
    ensures var t := Handled(s, table, line);
            var r := Rq(s);
            var taken := s.taken + [line];
            && t == s.(pc := t.pc, judged := s.judged + [line], local := t.local, objects := t.objects,
                       status := t.status, taken := taken)
            && t.pc == (if Complete(r, taken) then Ended else Reading)
            && |t.objects| == |s.objects|
            && t.local == Kept(r.size, taken) <= Obj(t).lines
            && (t.pc == Ended ==> t.status == if Outcome(r, taken).ok then RespOk else RespError)
  {
    CompletePush(Rq(s), s.taken, line);
    hide Judge, Layout, IsUrc, Kept, Complete, Outcome;
  }

  lemma LastGrowing(s: State, table: seq<Urc>, base: nat)
    requires Inv(s, table, base) && s.lock.Some?
    ensures Growing(Rq(s), Block(s))
  {
    hide Phase, Settled, Accounted, Filed, Growing;
  }

  /** The parser takes the next answer of the response under way. */
  lemma StepTake(s: State, table: seq<Urc>, base: nat)
    requires Inv(s, table, base) && Enabled(s, table, Handle) && s.resp.Some? && !IsUrc(table, s.pc.line)
    ensures Phase(Next(s, table, Handle), table)
  {
    hide IsUrc, Answers, Calls, Outcome, Growing, Settled, Orderly, Kept, Complete, Handled, Next, Enabled;
    hide Accounted, Filed;
    NextHandle(s, table);
    LastGrowing(s, table, base);
    InstalledDuring(s, table);
    TakenKeeps(s, table, s.pc.line);
  }

  /** Only a command that is sent and not answered has its response installed while the parser holds an answer. */
  lemma InstalledDuring(s: State, table: seq<Urc>)
    requires Phase(s, table) && s.pc.Holding? && s.resp.Some? && !IsUrc(table, s.pc.line)
    ensures s.caller == Awaiting && s.lock.Some? && During(s, table)
  {
    hide IsUrc, Answers, Outcome, Kept, Complete;
    AnswersFirst(table, s.pc.line, s.wire);
    assert Pending(s) == [s.pc.line] + s.wire;
  }

  lemma TakenKeeps(s: State, table: seq<Urc>, line: string)
    requires During(s, table) && s.pc == Holding(line) && s.caller == Awaiting && s.lock.Some? && !IsUrc(table, line)
    requires s.requests != [] && |s.objects| == |s.requests| && Growing(Rq(s), Block(s))
    ensures Phase(Handled(s, table, line), table)
  {
    hide IsUrc, Answers, Outcome, Kept, Complete, Handled, Growing;
    var t := Handled(s, table, line);
    var rest := Answers(table, s.wire);
    AnswersFirst(table, line, s.wire);
    assert Pending(s) == [line] + s.wire;
    Taken(s, table, line);
    assert Pending(t) == s.wire;
    assert Block(s) == t.taken + rest;
    if Complete(Rq(s), t.taken) {
      BlockEnds(Rq(s), t.taken, rest);
      assert Block(t) == t.taken;
    }
  }

  lemma NextHandle(s: State, table: seq<Urc>)
    requires Enabled(s, table, Handle)
    ensures s.pc.Holding? && (s.resp.Some? ==> s.resp.value < |s.requests| && s.resp.value < |s.objects|)
    ensures Next(s, table, Handle) == Handled(s, table, s.pc.line)
  {
    hide IsUrc, UrcOf, Handled, Complete;
  }

  lemma HandledUrc(s: State, table: seq<Urc>, line: string)
    requires IsUrc(table, line) && (s.resp.Some? ==> s.resp.value < |s.requests| && s.resp.value < |s.objects|)
    ensures Handled(s, table, line) ==
            s.(pc := Reading, judged := s.judged + [line], calls := s.calls + [(UrcOf(table, line), line)])
  {
    hide IsUrc, UrcOf, Judge, Layout;
  }

  /** Any other line: an unsolicited one goes to the table, and there is nothing else outside a response. */
  lemma StepOther(s: State, table: seq<Urc>, base: nat)
    requires Inv(s, table, base) && Enabled(s, table, Handle) && (s.resp.None? || IsUrc(table, s.pc.line))
    ensures IsUrc(table, s.pc.line) && Phase(Next(s, table, Handle), table)
  {
    hide UrcOf, Answers, Calls, Outcome, Growing, Settled, Orderly, Kept, Complete, Handled, Flat, Next, Enabled;
    NextHandle(s, table);
    if s.resp.None? {
      NoResponseNoAnswer(s, table);
    }
    hide IsUrc, Phase, Accounted, Filed;
    HandledUrc(s, table, s.pc.line);
    AnswersFirst(table, s.pc.line, s.wire);
    var t := Handled(s, table, s.pc.line);
    assert Pending(s) == [s.pc.line] + s.wire && Pending(t) == [] + s.wire == s.wire;
    assert [] + Answers(table, s.wire) == Answers(table, s.wire);
    hide Pending;
    SamePhase(s, t, table);
  }

  /** While no response is installed, the line in hand is unsolicited. */
  lemma NoResponseNoAnswer(s: State, table: seq<Urc>)
    requires Phase(s, table) && s.pc.Holding? && s.resp.None?
    ensures IsUrc(table, s.pc.line)
  {
    hide IsUrc, Answers, Complete, Outcome, Kept;
    AnswersFirst(table, s.pc.line, s.wire);
    assert Pending(s) == [s.pc.line] + s.wire;
  }

  /** A step of the parser or of the module that leaves alone what the phase is about. */
  ghost predicate Alike(s: State, t: State, table: seq<Urc>) {
    && t.lock == s.lock && t.caller == s.caller && t.resp == s.resp && t.notice == s.notice && t.status == s.status
    && t.requests == s.requests && t.objects == s.objects && t.results == s.results && t.blocks == s.blocks
    && t.local == s.local && t.taken == s.taken && t.asked == s.asked
    && (t.pc == s.pc || ((s.pc == Reading || s.pc.Holding?) && (t.pc == Reading || t.pc.Holding?)))
    && Answers(table, Pending(t)) == Answers(table, Pending(s))
  }

  lemma SamePhase(s: State, t: State, table: seq<Urc>)
    requires Phase(s, table) && Alike(s, t, table)
    ensures Phase(t, table)
  {
    SameRest(s, t, table);
    SameArrived(s, t, table);
    SameDuring(s, t, table);
    SameBefore(s, t, table);
    SameClosing(s, t, table);
    SameAfter(s, t, table);
    hide Arrived, During, Closing, After, Before, Answers, Pending, AtRest;
  }

  lemma SameBefore(s: State, t: State, table: seq<Urc>)
    requires Alike(s, t, table)
    ensures Before(t, table) == Before(s, table)
  {
    SameRest(s, t, table);
    hide Arrived, Answers, Pending, Outcome, Kept, AtRest, IsUrc, Complete;
  }

  lemma SameClosing(s: State, t: State, table: seq<Urc>)
    requires Alike(s, t, table)
    ensures Closing(t, table) == Closing(s, table)
  {
    SameRest(s, t, table);
    SameArrived(s, t, table);
    hide Arrived, Answers, Pending, Outcome, Kept, AtRest, IsUrc, Complete;
  }

  lemma SameAfter(s: State, t: State, table: seq<Urc>)
    requires Alike(s, t, table)
    ensures After(t, table) == After(s, table)
  {
    SameRest(s, t, table);
    SameArrived(s, t, table);
    hide Arrived, Answers, Pending, Outcome, Kept, AtRest, IsUrc, Complete;
  }

  lemma SameRest(s: State, t: State, table: seq<Urc>)
    requires Alike(s, t, table)
    ensures AtRest(t) == AtRest(s)
  {
    hide Answers, Pending;
  }

  lemma SameArrived(s: State, t: State, table: seq<Urc>)
    requires Alike(s, t, table)
    ensures Arrived(t, table) == Arrived(s, table)
  {
    hide IsUrc, Answers, Complete, Outcome, Kept, Pending;
  }

  lemma SameDuring(s: State, t: State, table: seq<Urc>)
    requires Alike(s, t, table)
    ensures During(t, table) == During(s, table)
  {
    hide IsUrc, Answers, Complete, Outcome, Kept, Pending;
  }

  /** What handling a line leaves alone, and what it records. */
  lemma HandledKeeps(s: State, table: seq<Urc>, line: string)
    requires s.resp.Some? ==> s.resp.value < |s.requests| && s.resp.value < |s.objects|
    requires s.resp.Some? || IsUrc(table, line)
    ensures var t := Handled(s, table, line);
            && t.requests == s.requests && t.blocks == s.blocks && t.results == s.results && t.lock == s.lock
            && |t.objects| == |s.objects| && t.sent == s.sent && t.judged == s.judged + [line] && t.ignored == s.ignored
            && Pending(t) == s.wire
            && t.calls == s.calls + if IsUrc(table, line) then [(UrcOf(table, line), line)] else []
  {
    hide IsUrc, UrcOf, Judge, Layout;
  }

  lemma AccountsMove(table: seq<Urc>, s: State, t: State, line: string)
    requires Accounted(s, table) && s.pc == Holding(line)
    requires t.sent == s.sent && t.judged == s.judged + [line] && Pending(t) == s.wire
    requires t.calls == s.calls + if IsUrc(table, line) then [(UrcOf(table, line), line)] else []
    ensures Accounted(t, table)
  {
    hide IsUrc, UrcOf;
    AnswersPush(table, s.judged, line);
    assert s.judged + ([line] + s.wire) == s.judged + [line] + s.wire;
  }

  lemma StepHandle(s: State, table: seq<Urc>, base: nat)
    requires Inv(s, table, base) && Enabled(s, table, Handle)
    ensures Inv(Next(s, table, Handle), table, base)
  {
    hide IsUrc, UrcOf, Phase, Settled, Orderly, Accounted, Handled, Enabled, Next, Pending;
    NextHandle(s, table);
    var line := s.pc.line;
    if s.resp.Some? && !IsUrc(table, line) {
      StepTake(s, table, base);
    } else {
      StepOther(s, table, base);
    }
    HandledKeeps(s, table, line);
    AccountsMove(table, s, Next(s, table, Handle), line);
  }

  /** Every step keeps the invariant, whoever takes it. */
  lemma InvNext(s: State, table: seq<Urc>, base: nat, a: Action)
    requires Inv(s, table, base) && Enabled(s, table, a) && !a.Expire? && (a.Answer? ==> s.asked > base)
    ensures Inv(Next(s, table, a), table, base)
  {
    hide Inv, Enabled, Next;
    match a
    case Lock(_, _, _) => StepEnter(s, table, base, a);
    case Install => StepEnter(s, table, base, a);
    case Send => StepEnter(s, table, base, a);
    case Observe => StepLeave(s, table, base, a);
    case DropResp => StepLeave(s, table, base, a);
    case ClearNotice => StepLeave(s, table, base, a);
    case Unlock => StepUnlock(s, table, base);
    case Answer(line) => StepAnswer(s, table, base, line);
    case Unsolicited(line) => StepUnsolicited(s, table, base, line);
    case Read => StepRead(s, table, base);
    case Handle => StepHandle(s, table, base);
    case StoreCount => StepStoreCount(s, table, base);
    case Release => StepRelease(s, table, base);
    case Tell => StepTell(s, table, base);
    case Reset => StepReset(s, table, base);
  }

  /** A run in which waits may time out. */
  ghost predicate IsTimedRun(table: seq<Urc>, states: seq<State>, actions: seq<Action>) {
    && |states| == |actions| + 1 && Init(states[0])
    && forall k :: 0 <= k < |actions| ==>
         Enabled(states[k], table, actions[k]) && states[k + 1] == Next(states[k], table, actions[k])
  }

  /** A run in which none does. */
  ghost predicate IsRun(table: seq<Urc>, states: seq<State>, actions: seq<Action>) {
    IsTimedRun(table, states, actions) && forall k :: 0 <= k < |actions| ==> !actions[k].Expire?
  }

  lemma InvInit(s: State, table: seq<Urc>)
    requires Init(s)
    ensures Inv(s, table, 0)
  {
  }

  lemma {:induction false} InvRun(table: seq<Urc>, states: seq<State>, actions: seq<Action>, k: nat)
    requires IsRun(table, states, actions) && k < |states|
    ensures Inv(states[k], table, 0)
    decreases k
  {
    hide Inv, Enabled, Next, Init;
    if k == 0 {
      InvInit(states[0], table);
    } else {
      InvRun(table, states, actions, k - 1);
      if actions[k - 1].Answer? {
        AskedAnswers(states[k - 1], table, actions[k - 1]);
      }
      InvNext(states[k - 1], table, 0, actions[k - 1]);
    }
  }

  lemma AskedAnswers(s: State, table: seq<Urc>, a: Action)
    requires Enabled(s, table, a) && a.Answer?
    ensures s.asked > 0
  {
    hide IsUrc, Complete;
  }

  // ---- what callers can rely on ----

  /** In every run, the response object the parser sees is the lock holder's. */
  lemma OnlyHolderInstalled(table: seq<Urc>, states: seq<State>, actions: seq<Action>, k: nat)
    requires IsRun(table, states, actions) && k < |states|
    ensures var s := states[k]; s.resp.Some? ==> s.lock.Some? && s.resp.value + 1 == |s.requests|
  {
    hide Answers, Calls, Outcome, Growing, Settled, Orderly, Kept, Complete;
    InvRun(table, states, actions, k);
  }

  /**
   * In every run, the j-th command to take the lock returns the verdict on the j-th block of the module's
   * answers and exactly the lines of that block that fit, however many unsolicited lines came between.
   */
  lemma EachGetsItsBlock(table: seq<Urc>, states: seq<State>, actions: seq<Action>, k: nat, j: nat)
    requires IsRun(table, states, actions) && k < |states| && j < |states[k].results|
    ensures var s := states[k];
            && j < |s.requests| && j < |s.blocks|
            && Complete(s.requests[j], s.blocks[j])
            && s.results[j] == Outcome(s.requests[j], s.blocks[j])
  {
    hide Phase, Orderly, Accounted, Complete, Outcome;
    InvRun(table, states, actions, k);
  }

  /**
   * In every run, the lines sent that are not unsolicited are the blocks in order, each unsolicited line goes
   * to the first entry that matches it, in the order sent, and no line is lost or ignored.
   */
  lemma UrcsDispatched(table: seq<Urc>, states: seq<State>, actions: seq<Action>, k: nat)
    requires IsRun(table, states, actions) && k < |states|
    ensures var s := states[k];
            && s.sent == s.judged + Pending(s) && s.calls == Calls(table, s.judged) && s.ignored == []
            && Answers(table, s.sent) == Flat(s.blocks)
  {
    hide Phase, Settled, Orderly, Calls, Answers, Flat;
    InvRun(table, states, actions, k);
  }

  /**
   * In every run, a caller that is told never finds the buffer-full status, even when lines did not fit: the
   * status of the last line has replaced it.
   */
  lemma FullIsForgotten(table: seq<Urc>, states: seq<State>, actions: seq<Action>, k: nat)
    requires IsRun(table, states, actions) && k < |states| && states[k].notice
    ensures var s := states[k];
            && s.requests != [] && |s.blocks| == |s.requests|
            && s.status == if Outcome(Rq(s), Block(s)).ok then RespOk else RespError
  {
    hide Answers, Calls, Outcome, Growing, Settled, Orderly, Kept, Complete, Flat;
    InvRun(table, states, actions, k);
  }

  /** The last line of a whole response, and those before it, letter by letter. */
  ghost predicate EndsAsSaid(r: Request, block: seq<string>, ok: bool, count: nat) {
    block != [] &&
    var last := block[|block| - 1];
    && (ok <==> (r.lineNum == 0 && SaysOk(last)) || (r.lineNum > 0 && count == r.lineNum && !SaysError(last)))
    && (!ok <==> SaysError(last) && !(r.lineNum == 0 && SaysOk(last)))
    && forall m :: 0 <= m < |block| - 1 ==>
         && !SaysError(block[m]) && (r.lineNum == 0 ==> !SaysOk(block[m]))
         && (r.lineNum > 0 ==> |Kept(r.size, block[..m + 1])| != r.lineNum)
  }

  lemma CompleteEnds(r: Request, block: seq<string>)
    requires Complete(r, block) && Growing(r, block) && NonEmpty(block)
    ensures EndsAsSaid(r, block, Outcome(r, block).ok, |Outcome(r, block).lines|)
  {
    hide Judge, SaysOk, SaysError, Kept;
    JudgeExactly(r.lineNum, |Kept(r.size, block)|, block[|block| - 1]);
    forall m | 0 <= m < |block| - 1
      ensures !SaysError(block[m]) && (r.lineNum == 0 ==> !SaysOk(block[m]))
      ensures r.lineNum > 0 ==> |Kept(r.size, block[..m + 1])| != r.lineNum
    {
      var shorter := block[..m + 1];
      assert !Complete(r, shorter) && shorter[|shorter| - 1] == block[m];
      JudgeExactly(r.lineNum, |Kept(r.size, shorter)|, block[m]);
    }
  }

  /**
   * In every run a finished command is ok exactly if the last line of its block says OK and it waited for that, or
   * brings the lines stored to the number it waited for and says no error; it has failed exactly if that line
   * says an error otherwise; and no line before said either, or brought that number.
   */
  lemma ResultByLastLine(table: seq<Urc>, states: seq<State>, actions: seq<Action>, k: nat, j: nat)
    requires IsRun(table, states, actions) && k < |states| && j < |states[k].results|
    ensures var s := states[k];
            && j < |s.requests| && j < |s.blocks|
            && EndsAsSaid(s.requests[j], s.blocks[j], s.results[j].ok, |s.results[j].lines|)
  {
    EachGetsItsBlock(table, states, actions, k, j);
    BlocksNonEmpty(table, states, actions, k);
    InvRun(table, states, actions, k);
    hide IsTimedRun, Phase, Accounted, Filed, Complete, Outcome, Growing, NonEmpty, EndsAsSaid;
    CompleteEnds(states[k].requests[j], states[k].blocks[j]);
  }

  ghost predicate AllNonEmpty(blocks: seq<seq<string>>) {
    forall j :: 0 <= j < |blocks| ==> NonEmpty(blocks[j])
  }

  lemma BlocksGrow(s: State, table: seq<Urc>, a: Action)
    requires Enabled(s, table, a) && AllNonEmpty(s.blocks)
    ensures AllNonEmpty(Next(s, table, a).blocks)
  {
    hide IsUrc, Complete, Judge, Layout;
    if a.Answer? {
      var block := s.blocks[s.asked - 1];
      assert NonEmpty(block + [a.line]);
    } else if a.Lock? {
      assert NonEmpty([]);
    } else {
      assert Next(s, table, a).blocks == s.blocks;
    }
  }

  lemma {:induction false} BlocksNonEmpty(table: seq<Urc>, states: seq<State>, actions: seq<Action>, k: nat)
    requires IsTimedRun(table, states, actions) && k < |states|
    ensures AllNonEmpty(states[k].blocks)
    decreases k
  {
    if k > 0 {
      hide Enabled, Next, AllNonEmpty;
      BlocksNonEmpty(table, states, actions, k - 1);
      BlocksGrow(states[k - 1], table, actions[k - 1]);
    }
  }

  /** In every run a finished command has all lines of its block exactly when these are shorter than its buffer. */
  lemma HasAllLines(table: seq<Urc>, states: seq<State>, actions: seq<Action>, k: nat, j: nat)
    requires IsRun(table, states, actions) && k < |states| && j < |states[k].results|
    ensures var s := states[k];
            && j < |s.requests| && j < |s.blocks|
            && (s.results[j].lines == s.blocks[j] <==> |Layout(s.blocks[j])| < s.requests[j].size)
  {
    EachGetsItsBlock(table, states, actions, k, j);
    BlocksNonEmpty(table, states, actions, k);
    hide IsTimedRun, Judge, Layout, Kept, NonEmpty;
    KeptWhole(states[k].requests[j].size, states[k].blocks[j]);
  }

  /** A step of the lock holder or of the parser. */
  predicate IsClientStep(a: Action) {
    !a.Lock? && !a.Answer? && !a.Unsolicited?
  }

  /** How many such steps are left at most. */
  function Rank(s: State): nat {
    var caller := match s.caller
      case Idle => 0
      case Locked => 6
      case Installed => 5
      case Awaiting => 4
      case Leaving(_) => 3
      case Dropping(_) => 2
      case Unlocking(_) => 1;
    var parser := match s.pc
      case Reading => 0
      case Holding(_) => 5
      case Ended => 4
      case Counted => 3
      case Cleared => 2
      case Told => 1;
    6 * |s.wire| + caller + parser
  }

  /** Left alone, caller and parser come to rest: each of their steps brings them nearer. */
  lemma ClientStepsEnd(s: State, table: seq<Urc>, a: Action)
    requires Enabled(s, table, a) && IsClientStep(a)
    ensures Rank(Next(s, table, a)) < Rank(s)
  {
    hide IsUrc, UrcOf, Judge, Layout, Complete;
  }

  /** What caller or parser can do next. */
  function Choice(s: State): Action {
    match s.caller
    case Locked => Install
    case Installed => Send
    case Leaving(_) => DropResp
    case Dropping(_) => ClearNotice
    case Unlocking(_) => Unlock
    case _ =>
      if s.notice then Observe
      else match s.pc
        case Reading => Read
        case Holding(_) => Handle
        case Ended => StoreCount
        case Counted => Release
        case Cleared => Tell
        case Told => Reset
  }

  /**
   * In every run they do not come to rest early: while a command holds the lock, caller or parser can move,
   * unless the command is sent and the module has not finished its answer.
   */
  lemma AnsweredCommandMoves(table: seq<Urc>, states: seq<State>, actions: seq<Action>, k: nat)
    requires IsRun(table, states, actions) && k < |states| && states[k].lock.Some?
    requires states[k].caller == Awaiting ==> Complete(Rq(states[k]), Block(states[k]))
    ensures IsClientStep(Choice(states[k])) && Enabled(states[k], table, Choice(states[k]))
  {
    InvRun(table, states, actions, k);
    hide Inv, IsRun, Enabled, Choice, IsClientStep, Complete;
    Moves(states[k], table);
  }

  lemma Moves(s: State, table: seq<Urc>)
    requires Inv(s, table, 0) && s.lock.Some? && (s.caller == Awaiting ==> Complete(Rq(s), Block(s)))
    ensures IsClientStep(Choice(s)) && Enabled(s, table, Choice(s))
  {
    hide IsUrc, Calls, Outcome, Growing, Settled, Orderly, Kept, Complete, Flat, Accounted, Filed, Answers;
    if s.caller == Awaiting && !s.notice && s.pc == Reading && s.wire == [] {
      NothingPending(s, table);
    }
  }

  lemma NothingPending(s: State, table: seq<Urc>)
    requires s.pc == Reading && s.wire == []
    ensures s.taken + Answers(table, Pending(s)) == s.taken
  {
    assert Answers(table, Pending(s)) == [];
  }

  // ---- a response that does not fit ----

  const LONG: string := "abcdefgh\r\n"
  const OK_LINE: string := "OK\r\n"

  lemma LongSkipped()
    ensures Judge(0, 0, LONG) == More && Judge(0, 1, OK_LINE) == Success
    ensures |LONG| == 10 && |OK_LINE| == 4 && Layout([]) == ""
  {
    var x := Cut(LONG);
    var t := x + [NUL];
    assert x == "abcdefgh\r" && |t| == 10;
    assert forall k :: 0 <= k < 9 ==> t[k] != NUL;
    TextOfIs(t, x);
    forall k | 0 <= k <= 9 ensures !Contains(x[k..], "ERROR") {
      NoError(x, k);
    }
    assert x[0..] == x;
  }

  lemma {:induction false} NoError(x: string, k: nat)
    requires k <= |x| && 'E' !in x
    ensures !Contains(x[k..], "ERROR")
    decreases |x| - k
  {
    StartsWithE(x[k..]);
    if k < |x| {
      assert x[k..][1..] == x[k + 1..];
      NoError(x, k + 1);
    }
  }

  lemma StartsWithE(t: string)
    ensures "ERROR" <= t ==> 'E' in t
  {
    assert "ERROR"[0] == 'E';
    assert "ERROR" <= t ==> t[0] == "ERROR"[0];
  }

  /** A command with room for five bytes: its first line does not fit, its second ends the response. */
  function ShortSteps(): seq<Action> {
    [Lock(1, Request(5, 0), Object([], 0)), Install, Send, Answer(LONG), Read, Handle, Answer(OK_LINE), Read, Handle,
     StoreCount, Release, Tell]
  }

  function Begun(): State {
    State(None, Idle, [], [], [], None, RespOk, false, Reading, [], [], 0, [], [], [], [], [], [])
  }

  function SentOut(): State {
    Begun().(lock := Some(1), caller := Awaiting, requests := [Request(5, 0)], objects := [Object([], 0)],
              blocks := [[]], resp := Some(0), asked := 1)
  }

  function Skipped(): State {
    SentOut().(status := RespBuffFull, sent := [LONG], blocks := [[LONG]], judged := [LONG], taken := [LONG])
  }

  function Judged(): State {
    Skipped().(status := RespOk, sent := [LONG, OK_LINE], blocks := [[LONG, OK_LINE]], judged := [LONG, OK_LINE],
               taken := [LONG, OK_LINE], local := [OK_LINE], objects := [Object([OK_LINE], 0)], pc := Ended)
  }

  function ShortStage(k: nat): State {
    if k == 0 then Begun()
    else if k == 1 then
      Begun().(lock := Some(1), caller := Locked, requests := [Request(5, 0)], objects := [Object([], 0)],
               blocks := [[]])
    else if k == 2 then SentOut().(caller := Installed, asked := 0)
    else if k == 3 then SentOut()
    else if k == 4 then SentOut().(wire := [LONG], sent := [LONG], blocks := [[LONG]])
    else if k == 5 then SentOut().(pc := Holding(LONG), sent := [LONG], blocks := [[LONG]])
    else if k == 6 then Skipped()
    else if k == 7 then Skipped().(wire := [OK_LINE], sent := [LONG, OK_LINE], blocks := [[LONG, OK_LINE]])
    else if k == 8 then Skipped().(pc := Holding(OK_LINE), sent := [LONG, OK_LINE], blocks := [[LONG, OK_LINE]])
    else if k == 9 then Judged()
    else if k == 10 then Judged().(pc := Counted, objects := [Object([OK_LINE], 1)])
    else if k == 11 then Judged().(pc := Cleared, objects := [Object([OK_LINE], 1)], resp := None)
    else Judged().(pc := Told, objects := [Object([OK_LINE], 1)], resp := None, notice := true)
  }

  lemma ShortEnter(k: nat)
    requires k < 3
    ensures Enabled(ShortStage(k), [], ShortSteps()[k]) && ShortStage(k + 1) == Next(ShortStage(k), [], ShortSteps()[k])
  {
    hide IsUrc, Complete, Handled;
    assert [Object([], 0)][0 := Object([], 0)] == [Object([], 0)];
  }

  lemma LongGoesOn()
    ensures !Complete(Request(5, 0), []) && !Complete(Request(5, 0), [LONG])
  {
    LongSkipped();
    CompletePush(Request(5, 0), [], LONG);
    assert [] + [LONG] == [LONG] && Kept(5, []) == [];
  }

  lemma ShortFirst(k: nat)
    requires 3 <= k < 6
    ensures Enabled(ShortStage(k), [], ShortSteps()[k]) && ShortStage(k + 1) == Next(ShortStage(k), [], ShortSteps()[k])
  {
    LongGoesOn();
    LongSkipped();
    NoUrc();
    hide IsUrc, Complete, Judge, Layout;
    assert [[]][0 := [LONG]] == [[LONG]] && [LONG][1..] == [] && [] + [LONG] == [LONG];
  }

  lemma ShortAnswer()
    ensures Enabled(ShortStage(6), [], ShortSteps()[6]) && ShortStage(7) == Next(ShortStage(6), [], ShortSteps()[6])
  {
    LongGoesOn();
    NoUrc();
    hide IsUrc, Complete, Judge, Layout;
    assert [[LONG]][0 := [LONG, OK_LINE]] == [[LONG, OK_LINE]] && [LONG] + [OK_LINE] == [LONG, OK_LINE];
    assert [] + [OK_LINE] == [OK_LINE];
  }

  lemma ShortRead()
    ensures Enabled(ShortStage(7), [], ShortSteps()[7]) && ShortStage(8) == Next(ShortStage(7), [], ShortSteps()[7])
  {
    hide IsUrc, Complete, Judge, Layout;
    assert [OK_LINE][1..] == [];
  }

  lemma ShortHandle()
    ensures Enabled(ShortStage(8), [], ShortSteps()[8]) && ShortStage(9) == Next(ShortStage(8), [], ShortSteps()[8])
  {
    LongSkipped();
    NoUrc();
    hide IsUrc, Complete, Judge, Layout;
    assert [] + [OK_LINE] == [OK_LINE] && [LONG] + [OK_LINE] == [LONG, OK_LINE];
    assert [Object([], 0)][0 := Object([OK_LINE], 0)] == [Object([OK_LINE], 0)];
  }

  lemma ShortEnd(k: nat)
    requires 9 <= k < 12
    ensures Enabled(ShortStage(k), [], ShortSteps()[k]) && ShortStage(k + 1) == Next(ShortStage(k), [], ShortSteps()[k])
  {
    hide IsUrc, Complete, Handled;
    assert [Object([OK_LINE], 0)][0 := Object([OK_LINE], 1)] == [Object([OK_LINE], 1)];
  }

  lemma NoUrc()
    ensures forall line :: !IsUrc([], line)
  {
  }

  /** A run in which the caller is told success and one line of two is missing. */
  lemma SkippedLineToldOk() returns (states: seq<State>, actions: seq<Action>)
    ensures IsRun([], states, actions) && |actions| == 12
    ensures var s := states[12];
            && s.notice && s.status == RespOk && s.blocks == [[LONG, OK_LINE]] && Readable(s.objects, 0) == [OK_LINE]
  {
    hide Enabled, Next, IsUrc;
    actions := ShortSteps();
    states := seq(13, k requires 0 <= k < 13 => ShortStage(k));
    forall k | 0 <= k < 12
      ensures Enabled(states[k], [], actions[k]) && states[k + 1] == Next(states[k], [], actions[k])
    {
      if k < 3 {
        ShortEnter(k);
      } else if k < 6 {
        ShortFirst(k);
      } else if k == 6 {
        ShortAnswer();
      } else if k == 7 {
        ShortRead();
      } else if k == 8 {
        ShortHandle();
      } else {
        ShortEnd(k);
      }
    }
    assert states[0] == Begun() && states[12] == ShortStage(12);
    assert [OK_LINE][..1] == [OK_LINE];
  }
}
