/**
 * How the AT client cuts the received bytes into lines: at_recv_readline and get_urc_obj of
 * src/module_at/at_client.c.
 */
module LineFraming {
  import opened CStrings
  import opened RingBuffer

  // ---- the table of unsolicited results ----

  datatype Urc = Urc(prefix: string, suffix: string)

  predicate Matches(u: Urc, line: string) {
    |u.prefix| + |u.suffix| <= |line| && u.prefix <= line && line[|line| - |u.suffix|..] == u.suffix
  }

  /** The first entry that matches, or the size of the table. */
  function UrcOf(table: seq<Urc>, line: string): (i: nat)
    ensures i <= |table| && (i < |table| ==> Matches(table[i], line))
    ensures forall j :: 0 <= j < i ==> !Matches(table[j], line)
  {
    if table == [] || Matches(table[0], line) then 0 else 1 + UrcOf(table[1..], line)
  }

  /** An entry takes just the lines made of its prefix, anything or nothing, and its suffix. */
  lemma MatchesExactly(u: Urc, line: string)
    ensures Matches(u, line) <==> exists x: string :: line == u.prefix + x + u.suffix
  {
    if Matches(u, line) {
      var n, m := |u.prefix|, |line| - |u.suffix|;
      assert line == line[..n] + line[n..m] + line[m..];
      assert line[..n] == u.prefix;
    }
    forall x: string | line == u.prefix + x + u.suffix ensures Matches(u, line) {
      assert line == u.prefix + (x + u.suffix);
      assert line[|line| - |u.suffix|..] == u.suffix;
    }
  }

  /** A line of an entry goes to that entry or to one before it. */
  lemma UrcTaken(table: seq<Urc>, k: nat, x: string)
    requires k < |table|
    ensures UrcOf(table, table[k].prefix + x + table[k].suffix) <= k
  {
    MatchesExactly(table[k], table[k].prefix + x + table[k].suffix);
    hide Matches;
  }

  /** A line that begins with no prefix, or ends with no suffix, goes to none. */
  lemma NoneTakes(table: seq<Urc>, line: string)
    requires
      || (forall k :: 0 <= k < |table| ==> !(table[k].prefix <= line))
      || (forall k, y: string :: 0 <= k < |table| ==> line != y + table[k].suffix)
    ensures UrcOf(table, line) == |table|
  {
    var i := UrcOf(table, line);
    if i < |table| {
      MatchEnds(table[i], line);
    }
  }

  lemma MatchEnds(u: Urc, line: string)
    requires Matches(u, line)
    ensures u.prefix <= line && exists y: string :: line == y + u.suffix
  {
    assert line == line[..|line| - |u.suffix|] + u.suffix;
  }

  const CRLF := "\r\n"

  /** The entries module_init installs on an ESP8266. */
  const TABLE := [
    Urc("+TCMQTTRCVPUB:", CRLF), Urc("+TCMQTTDISCON", CRLF), Urc("+TCMQTTSUB:", CRLF),
    Urc("+TCMQTTSTATE:", CRLF), Urc("+TCOTASTATUS:", CRLF), Urc("+TCMQTTCONN:", CRLF),
    Urc("WIFI CONNECTED", CRLF)
  ]

  /** Two prefixes that differ somewhere cannot both begin a line. */
  lemma Apart(u: Urc, v: Urc, line: string, k: nat)
    requires k < |u.prefix| && k < |v.prefix| && u.prefix[k] != v.prefix[k]
    ensures !(Matches(u, line) && Matches(v, line))
  {
  }

  /** At most one entry of that table matches a line, so its order does not matter. */
  lemma OneUrc(line: string, i: nat, j: nat)
    requires i < j < |TABLE|
    ensures !(Matches(TABLE[i], line) && Matches(TABLE[j], line))
  {
    hide Matches;
    // letters 7 and 8 tell the prefixes apart
    var letters := "RDSSTCN";
    assert forall k | 0 <= k < |TABLE| :: |TABLE[k].prefix| > 8 && TABLE[k].prefix[7] == letters[k];
    assert TABLE[2].prefix[8] == 'U' && TABLE[3].prefix[8] == 'T';
    Apart(TABLE[i], TABLE[j], line, if i == 2 && j == 3 then 8 else 7);
  }

  /** With that table a line of an entry goes to that very entry. */
  lemma TableTakes(k: nat, x: string)
    requires k < |TABLE|
    ensures UrcOf(TABLE, TABLE[k].prefix + x + CRLF) == k
  {
    assert TABLE[k].suffix == CRLF;
    UrcTaken(TABLE, k, x);
    MatchesExactly(TABLE[k], TABLE[k].prefix + x + CRLF);
    var i := UrcOf(TABLE, TABLE[k].prefix + x + CRLF);
    hide Matches, UrcOf;
    if i < k {
      OneUrc(TABLE[k].prefix + x + CRLF, i, k);
    }
  }

  /** Two lines of an ESP8266, by hand. */
  lemma TableLines()
    ensures UrcOf(TABLE, "WIFI CONNECTED\r\n") == 6 && UrcOf(TABLE, "+TCMQTTRCVPUB:\"t\",1,\"x\"\r\n") == 0
  {
    TableTakes(6, "");
    assert "WIFI CONNECTED" + "" + CRLF == "WIFI CONNECTED\r\n";
    TableTakes(0, "\"t\",1,\"x\"");
    assert "+TCMQTTRCVPUB:" + "\"t\",1,\"x\"" + CRLF == "+TCMQTTRCVPUB:\"t\",1,\"x\"\r\n";
  }

  // ---- where a line ends ----

  /** The receive buffer's size, the table, and the end sign (NUL for none). */
  datatype Config = Config(size: nat, table: seq<Urc>, sign: char)

  /** What the receive buffer holds once `raw` has come in. */
  function Held(c: Config, raw: string): string {
    raw[..Min(|raw|, c.size)]
  }

  predicate EndsLine(raw: string) {
    |raw| >= 2 && raw[|raw| - 2] == '\r' && raw[|raw| - 1] == '\n'
  }

  predicate Stops(c: Config, raw: string) {
    raw != "" &&
    (EndsLine(raw) || (c.sign != NUL && raw[|raw| - 1] == c.sign) || UrcOf(c.table, Held(c, raw)) < |c.table|)
  }

  /** A line ends in CR LF, in the end sign, or where the receive buffer holds a line of some entry. */
  lemma StopsExactly(c: Config, raw: string)
    ensures Stops(c, raw) <==>
            && raw != ""
            && ((exists x: string :: raw == x + "\r\n")
                || (c.sign != NUL && exists x: string :: raw == x + [c.sign])
                || HoldsEntry(c, raw))
  {
    EndsExactly(raw);
    SignExactly(raw, c.sign);
    TakenExactly(c.table, Held(c, raw));
    hide EndsLine, UrcOf, Matches;
  }

  /** What the receive buffer has kept is made of a prefix, anything or nothing, and the suffix of the same entry. */
  ghost predicate HoldsEntry(c: Config, raw: string) {
    var held := raw[..if |raw| <= c.size then |raw| else c.size];
    exists k, x: string :: 0 <= k < |c.table| && held == c.table[k].prefix + x + c.table[k].suffix
  }

  lemma EndsExactly(raw: string)
    ensures EndsLine(raw) <==> exists x: string :: raw == x + "\r\n"
  {
    if EndsLine(raw) {
      assert raw == raw[..|raw| - 2] + "\r\n";
    }
    forall x: string | raw == x + "\r\n" ensures EndsLine(raw) {
      assert raw[|x|] == '\r' && raw[|x| + 1] == '\n';
    }
  }

  lemma SignExactly(raw: string, sign: char)
    ensures raw != "" && raw[|raw| - 1] == sign <==> exists x: string :: raw == x + [sign]
  {
    if raw != "" && raw[|raw| - 1] == sign {
      assert raw == raw[..|raw| - 1] + [sign];
    }
  }

  lemma TakenExactly(table: seq<Urc>, line: string)
    ensures UrcOf(table, line) < |table| <==>
            exists k, x: string :: 0 <= k < |table| && line == table[k].prefix + x + table[k].suffix
  {
    hide Matches;
    var i := UrcOf(table, line);
    if i < |table| {
      MatchesExactly(table[i], line);
      var x :| line == table[i].prefix + x + table[i].suffix;
    }
    forall k, x: string | 0 <= k < |table| && line == table[k].prefix + x + table[k].suffix ensures i < |table| {
      UrcTaken(table, k, x);
    }
  }

  /** No beginning of `raw` ends a line. */
  ghost predicate Open(c: Config, raw: string) {
    forall m :: 0 < m <= |raw| ==> !Stops(c, raw[..m])
  }

  /** `raw` ends a line and no shorter beginning of it does. */
  ghost predicate Shortest(c: Config, raw: string) {
    Stops(c, raw) && forall m :: 0 < m < |raw| ==> !Stops(c, raw[..m])
  }

  lemma OpenMore(c: Config, raw: string, ch: char)
    requires Open(c, raw)
    ensures if Stops(c, raw + [ch]) then Shortest(c, raw + [ch]) else Open(c, raw + [ch])
  {
    hide Stops;
    var more := raw + [ch];
    assert more[..|more|] == more;
    forall m | 0 < m <= |raw| ensures !Stops(c, more[..m]) {
      assert more[..m] == raw[..m];
    }
  }

  // ---- one line, and the whole stream ----

  /**
   * How at_client_getchar ends: with a byte; with a byte popped when the time was just over, so that it answers
   * with a timeout all the same; or with nothing popped.
   */
  datatype Event = Byte(c: char) | Late(c: char) | Quiet

  /** How a call of at_recv_readline ends, and all the bytes it popped. */
  datatype Frame = Line(raw: string) | TooLong(raw: string) | Dropped(raw: string)

  datatype Read = Waiting(raw: string) | Done(frame: Frame, rest: seq<Event>)

  function ReadFrom(c: Config, raw: string, events: seq<Event>): (r: Read)
    ensures r.Done? ==> |r.rest| < |events|
    decreases |events|
  {
    if events == [] then Waiting(raw)
    else if !events[0].Byte? then Done(Dropped(raw), events[1..])
    else
      var more := raw + [events[0].c];
      if Stops(c, more) then Done(if |more| <= c.size then Line(more) else TooLong(more), events[1..])
      else ReadFrom(c, more, events[1..])
  }

  /** All the calls on a stream of events, and the bytes of the call that is still waiting. */
  function Frames(c: Config, events: seq<Event>): (seq<Frame>, string)
    decreases |events|
  {
    match ReadFrom(c, "", events)
    case Waiting(raw) => ([], raw)
    case Done(f, rest) =>
      var (fs, left) := Frames(c, rest);
      ([f] + fs, left)
  }

  /** The bytes popped from the ring. */
  function Popped(events: seq<Event>): string {
    if events == [] then "" else (if events[0].Quiet? then "" else [events[0].c]) + Popped(events[1..])
  }

  /** Those popped in time. */
  function Bytes(events: seq<Event>): string {
    if events == [] then "" else (if events[0].Byte? then [events[0].c] else "") + Bytes(events[1..])
  }

  predicate InTime(events: seq<Event>) {
    forall k :: 0 <= k < |events| ==> !events[k].Late?
  }

  lemma {:induction false} BytesOfPopped(events: seq<Event>)
    ensures |Bytes(events)| <= |Popped(events)|
    ensures if InTime(events) then Bytes(events) == Popped(events) else |Bytes(events)| < |Popped(events)|
  {
    if events != [] {
      BytesOfPopped(events[1..]);
      assert InTime(events) == (!events[0].Late? && InTime(events[1..])) by {
        assert forall k :: 0 < k < |events| ==> events[k] == events[1..][k - 1];
      }
    }
  }

  function Joined(frames: seq<Frame>): string {
    if frames == [] then "" else frames[0].raw + Joined(frames[1..])
  }

  /** A call keeps every byte it pops, in order. */
  lemma {:induction false} ReadKeeps(c: Config, raw: string, events: seq<Event>)
    ensures match ReadFrom(c, raw, events)
            case Waiting(all) => all == raw + Bytes(events)
            case Done(f, rest) => f.raw + Bytes(rest) == raw + Bytes(events)
    decreases |events|
  {
    hide Stops;
    if events != [] && events[0].Byte? {
      ReadKeeps(c, raw + [events[0].c], events[1..]);
    }
  }

  /** How a frame must look: a shortest ended line, marked by its length, or one given up before its end. */
  ghost predicate IsFrame(c: Config, f: Frame) {
    match f
    case Line(raw) => Shortest(c, raw) && |raw| <= c.size
    case TooLong(raw) => Shortest(c, raw) && |raw| > c.size
    case Dropped(raw) => Open(c, raw)
  }

  lemma {:induction false} ReadIsFrame(c: Config, raw: string, events: seq<Event>)
    requires Open(c, raw)
    ensures match ReadFrom(c, raw, events)
            case Waiting(all) => Open(c, all)
            case Done(f, _) => IsFrame(c, f)
    decreases |events|
  {
    if events != [] && events[0].Byte? {
      OpenMore(c, raw, events[0].c);
      hide Stops, Open, Shortest;
      if !Stops(c, raw + [events[0].c]) {
        ReadIsFrame(c, raw + [events[0].c], events[1..]);
      }
    }
  }

  /**
   * Framing repeats and moves no byte: the frames in a row, then the bytes still waiting, are the bytes popped in
   * time, and all bytes popped exactly when none was late. Each line is the shortest beginning that ends in
   * CR LF, in the end sign or as an unsolicited result.
   */
  lemma FramesPartition(c: Config, events: seq<Event>)
    ensures var (fs, left) := Frames(c, events);
            && Joined(fs) + left == Bytes(events)
            && (Joined(fs) + left == Popped(events) <==> InTime(events))
            && Open(c, left)
            && forall k :: 0 <= k < |fs| ==> IsFrame(c, fs[k])
  {
    hide *;
    BytesOfPopped(events);
    FramesJoin(c, events);
    FramesAreFrames(c, events);
  }

  lemma {:induction false} FramesJoin(c: Config, events: seq<Event>)
    ensures var (fs, left) := Frames(c, events);
            Joined(fs) + left == Bytes(events)
    decreases |events|
  {
    hide ReadFrom;
    ReadKeeps(c, "", events);
    match ReadFrom(c, "", events)
    case Waiting(raw) =>
    case Done(f, rest) =>
      FramesJoin(c, rest);
      var (fs, left) := Frames(c, rest);
      assert ([f] + fs)[1..] == fs;
      assert f.raw + Joined(fs) + left == f.raw + Bytes(rest) == "" + Bytes(events) == Bytes(events);
  }

  lemma {:induction false} FramesAreFrames(c: Config, events: seq<Event>)
    ensures var (fs, left) := Frames(c, events);
            Open(c, left) && forall k :: 0 <= k < |fs| ==> IsFrame(c, fs[k])
    decreases |events|
  {
    assert Open(c, "");
    hide Open, IsFrame, ReadFrom;
    ReadIsFrame(c, "", events);
    match ReadFrom(c, "", events)
    case Waiting(raw) =>
    case Done(f, rest) => FramesAreFrames(c, rest);
  }

  // ---- the frames are the only way to cut the stream so ----

  function Sent(raw: string): seq<Event> {
    seq(|raw|, k requires 0 <= k < |raw| => Byte(raw[k]))
  }

  lemma {:induction false} SentBytes(raw: string)
    ensures Bytes(Sent(raw)) == raw
  {
    if raw != "" {
      assert Sent(raw)[1..] == Sent(raw[1..]);
      SentBytes(raw[1..]);
      assert raw == [raw[0]] + raw[1..];
    }
  }

  function FrameOf(c: Config, raw: string): Frame {
    if |raw| <= c.size then Line(raw) else TooLong(raw)
  }

  /** Reading runs through the bytes of a line up to its end and no further. */
  lemma {:induction false} ReadsThrough(c: Config, line: string, n: nat, rest: seq<Event>)
    requires n <= |line| && line != ""
    requires forall m :: 0 < m < |line| ==> !Stops(c, line[..m])
    requires n < |line|
    ensures ReadFrom(c, line[..n], Sent(line[n..]) + rest) ==
            if Stops(c, line) then Done(FrameOf(c, line), rest) else ReadFrom(c, line, rest)
    decreases |line| - n
  {
    hide Stops;
    var events := Sent(line[n..]) + rest;
    assert events[0] == Byte(line[n]);
    assert line[..n] + [line[n]] == line[..n + 1];
    assert events[1..] == Sent(line[n + 1..]) + rest;
    if n + 1 < |line| {
      ReadsThrough(c, line, n + 1, rest);
    } else {
      assert line[..n + 1] == line;
      assert Sent(line[n + 1..]) + rest == rest;
    }
  }

  lemma ReadsOpen(c: Config, left: string)
    requires Open(c, left)
    ensures ReadFrom(c, "", Sent(left)) == Waiting(left)
  {
    if left != "" {
      assert left[..|left|] == left;
      assert !Stops(c, left[..|left|]);
      hide Stops;
      assert left[..0] == "" && left[0..] == left && Sent(left) + [] == Sent(left);
      ReadsThrough(c, left, 0, []);
    }
  }

  function Concat(lines: seq<string>): string {
    if lines == [] then "" else lines[0] + Concat(lines[1..])
  }

  function FramesOf(c: Config, lines: seq<string>): seq<Frame> {
    seq(|lines|, k requires 0 <= k < |lines| => FrameOf(c, lines[k]))
  }

  /** Without timeouts, a cutting of the bytes into shortest lines and an open end is the one the client makes. */
  lemma {:induction false} FramesUnique(c: Config, lines: seq<string>, left: string)
    requires Open(c, left) && forall k :: 0 <= k < |lines| ==> Shortest(c, lines[k])
    ensures Frames(c, Sent(Concat(lines) + left)) == (FramesOf(c, lines), left)
    decreases |lines|
  {
    if lines == [] {
      ReadsOpen(c, left);
      hide Stops, Open, Shortest, ReadFrom;
      assert Concat(lines) + left == left && FramesOf(c, lines) == [];
    } else {
      var line := lines[0];
      assert Shortest(c, line) && line != "";
      hide Stops;
      var more := Concat(lines[1..]) + left;
      assert Concat(lines) + left == line + more;
      assert Sent(line + more) == Sent(line) + Sent(more);
      assert line[..0] == "" && line[0..] == line;
      ReadsThrough(c, line, 0, Sent(more));
      FramesUnique(c, lines[1..], left);
      assert [FrameOf(c, line)] + FramesOf(c, lines[1..]) == FramesOf(c, lines);
    }
  }

  // ---- tables whose entries all end in CR LF ----

  ghost predicate AllCrLf(table: seq<Urc>) {
    forall k :: 0 <= k < |table| ==> table[k].suffix == CRLF
  }

  lemma CrLfEnds(u: Urc, line: string)
    requires u.suffix == CRLF && Matches(u, line)
    ensures EndsLine(line)
  {
    assert line[|line| - 2] == line[|line| - 2..][0] && line[|line| - 1] == line[|line| - 2..][1];
  }

  /** The full buffer of an overlong line would have ended the line before. */
  lemma StopsAlike(c: Config, raw: string)
    requires AllCrLf(c.table)
    requires forall m :: 0 < m < |raw| ==> !Stops(c.(table := []), raw[..m])
    ensures Stops(c, raw) == Stops(c.(table := []), raw)
  {
    var held := Held(c, raw);
    assert held == raw[..|held|];
    assert 0 < |held| < |raw| ==> !Stops(c.(table := []), held);
    var i := UrcOf(c.table, held);
    if i < |c.table| {
      CrLfEnds(c.table[i], held);
    }
  }

  lemma {:induction false} ReadAlike(c: Config, raw: string, events: seq<Event>)
    requires AllCrLf(c.table) && Open(c.(table := []), raw)
    ensures ReadFrom(c, raw, events) == ReadFrom(c.(table := []), raw, events)
    decreases |events|
  {
    hide Stops;
    if events != [] && events[0].Byte? {
      var plain := c.(table := []);
      var more := raw + [events[0].c];
      OpenMore(plain, raw, events[0].c);
      if Stops(plain, more) {
        assert Shortest(plain, more);
      } else {
        assert Open(plain, more);
      }
      StopsAlike(c, more);
      if !Stops(plain, more) {
        ReadAlike(c, more, events[1..]);
      }
    }
  }

  /** With such a table the lines do not depend on the table at all, overlong lines and timeouts included. */
  lemma {:induction false} FramingIgnoresTable(c: Config, events: seq<Event>)
    requires AllCrLf(c.table)
    ensures Frames(c, events) == Frames(c.(table := []), events)
    decreases |events|
  {
    hide ReadFrom;
    ReadAlike(c, "", events);
    match ReadFrom(c, "", events)
    case Waiting(_) =>
    case Done(_, rest) => FramingIgnoresTable(c, rest);
  }

  // ---- the client ----

  /** What at_recv_readline returns: a length, QCLOUD_ERR_FAILURE, or a timeout. */
  datatype Outcome = Length(n: nat) | Failure | TimedOut | StillWaiting

  class Receiver {
    const ring: RingBuff
    const recvBuffer: array<char>
    var curRecvLen: nat
    var endSign: char
    var urcTable: seq<Urc>

    ghost predicate Valid()
      reads this, ring, ring.buffer
    {
      curRecvLen <= recvBuffer.Length && ring.Valid() && ring.buffer != recvBuffer
    }

    ghost function Setting(): Config
      reads this
    {
      Config(recvBuffer.Length, urcTable, endSign)
    }

    constructor (ring: RingBuff, buffer: array<char>)
      requires ring.Valid() && ring.buffer != buffer
      ensures Valid() && this.ring == ring && recvBuffer == buffer && curRecvLen == 0
      ensures endSign == NUL && urcTable == []
    {
      this.ring, recvBuffer, curRecvLen, endSign, urcTable := ring, buffer, 0, NUL, [];
    }

    /** get_urc_obj */
    method GetUrcObj() returns (i: nat)
      requires Valid()
      ensures i == UrcOf(urcTable, recvBuffer[..curRecvLen])
      ensures i < |urcTable| ==>
                exists x: string :: recvBuffer[..curRecvLen] == urcTable[i].prefix + x + urcTable[i].suffix
      ensures forall k, x: string ::
                (0 <= k < |urcTable| && recvBuffer[..curRecvLen] == urcTable[k].prefix + x + urcTable[k].suffix) ==>
                i <= k
    {
      i := FirstMatch();
      hide UrcOf, Matches;
      if i < |urcTable| {
        MatchesExactly(urcTable[i], recvBuffer[..curRecvLen]);
      }
      forall k, x: string | 0 <= k < |urcTable| &&
        recvBuffer[..curRecvLen] == urcTable[k].prefix + x + urcTable[k].suffix
        ensures i <= k
      {
        UrcTaken(urcTable, k, x);
      }
    }

    /** The loop of get_urc_obj. */
    method FirstMatch() returns (i: nat)
      requires Valid()
      ensures i == UrcOf(urcTable, recvBuffer[..curRecvLen])
    {
      ghost var line := recvBuffer[..curRecvLen];
      i := 0;
      while i < |urcTable|
        invariant i <= |urcTable| && UrcOf(urcTable, line) == i + UrcOf(urcTable[i..], line)
      {
        var prefix, suffix := urcTable[i].prefix, urcTable[i].suffix;
        if |prefix| + |suffix| <= curRecvLen
          && recvBuffer[..|prefix|] == prefix
          && recvBuffer[curRecvLen - |suffix|..curRecvLen] == suffix {
          assert line[..|prefix|] == prefix && line[|line| - |suffix|..] == suffix;
          assert Matches(urcTable[i..][0], line);
          return;
        }
        assert !Matches(urcTable[i..][0], line);
        assert urcTable[i..][1..] == urcTable[i + 1..];
        i := i + 1;
      }
    }

    /** What the buffer and the count are once `raw` has come in. */
    ghost predicate Holds(raw: string)
      reads this, recvBuffer
    {
      && curRecvLen == Min(|raw|, recvBuffer.Length)
      && recvBuffer[..curRecvLen] == Held(Setting(), raw)
      && forall k :: curRecvLen <= k < recvBuffer.Length ==> recvBuffer[k] == NUL
    }

    /** memset(recv_buffer, 0, recv_bufsz) and cur_recv_len = 0 */
    method Reset()
      modifies this`curRecvLen, recvBuffer
      ensures Holds("") && curRecvLen == 0 && forall k :: 0 <= k < recvBuffer.Length ==> recvBuffer[k] == NUL
    {
      for i := 0 to recvBuffer.Length
        invariant forall k :: 0 <= k < i ==> recvBuffer[k] == NUL
      {
        recvBuffer[i] := NUL;
      }
      curRecvLen := 0;
    }

    /** One byte read: kept while there is room. */
    method Keep(ch: char, ghost raw: string)
      requires Valid() && Holds(raw)
      modifies this`curRecvLen, recvBuffer
      ensures Valid() && Holds(raw + [ch])
    {
      ghost var before := recvBuffer[..];
      if curRecvLen < recvBuffer.Length {
        recvBuffer[curRecvLen] := ch;
        curRecvLen := curRecvLen + 1;
        assert recvBuffer[..curRecvLen] == before[..curRecvLen - 1] + [ch];
        assert (raw + [ch])[..curRecvLen] == raw + [ch];
      } else {
        assert (raw + [ch])[..curRecvLen] == raw[..curRecvLen];
      }
    }

    /** Is newline or URC data. */
    method IsEnd(ch: char, lastCh: char, ghost raw: string) returns (stop: bool)
      requires Valid() && Holds(raw) && raw != "" && ch == raw[|raw| - 1]
      requires lastCh == if |raw| > 1 then raw[|raw| - 2] else NUL
      ensures stop == Stops(Setting(), raw)
    {
      if (ch == '\n' && lastCh == '\r') || (endSign != NUL && ch == endSign) {
        return true;
      }
      var i := GetUrcObj();
      stop := i < |urcTable|;
    }

    /**
     * at_recv_readline, given what its calls of at_client_getchar return: it ends as the specification says,
     * leaves exactly the line in the buffer, and drops an overlong line with all that is in the ring.
     */
    method ReadLine(events: seq<Event>) returns (outcome: Outcome, used: nat)
      requires Valid()
      modifies this`curRecvLen, recvBuffer, ring, ring.buffer
      ensures Valid() && used <= |events|
      ensures match ReadFrom(Setting(), "", events)
              case Waiting(raw) => outcome == StillWaiting && used == |events| && Holds(raw)
              case Done(f, rest) =>
                && events[used..] == rest
                && match f
                   case Line(raw) => outcome == Length(|raw|) && curRecvLen == |raw| && Holds(raw)
                   case TooLong(_) => outcome == Failure && Holds("") && ring.Queue() == Fifo([], false)
                   case Dropped(raw) => outcome == TimedOut && Holds(raw)
    {
      hide Stops, Matches, Held;
      Reset();
      ghost var c := Setting();
      ghost var raw: string := "";
      used := 0;
      var lastCh := NUL;
      var isFull := false;
      while true
        invariant Valid() && Setting() == c && used <= |events|
        invariant ReadFrom(c, "", events) == ReadFrom(c, raw, events[used..])
        invariant Holds(raw) && isFull == (|raw| > c.size)
        invariant lastCh == if raw == "" then NUL else raw[|raw| - 1]
        decreases |events| - used
      {
        if used == |events| {
          return StillWaiting, used;
        }
        var event := events[used];
        used := used + 1;
        assert events[used - 1..][1..] == events[used..];
        if !event.Byte? {
          return TimedOut, used;
        }
        var ch := event.c;
        if curRecvLen == recvBuffer.Length {
          isFull := true;
        }
        Keep(ch, raw);
        ghost var more := raw + [ch];
        var stop := IsEnd(ch, lastCh, more);
        if stop {
          if isFull {
            Reset();
            ring.Flush();
            return Failure, used;
          }
          return Length(curRecvLen), used;
        }
        raw := more;
        lastCh := ch;
      }
    }
  }
}
