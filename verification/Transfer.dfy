/** The log-file transfer between the robot and the console, as one value per machine.

    The robot sends numbered packets and waits for an acknowledgement of each; the
    console asks for a repetition when it gets something it cannot use.  Everything
    ever sent may be delivered any number of times, in any order or not at all, and
    noise may be delivered at any time. */
module Transfer {
  type byte = x: int | 0 <= x < 256

  const HEADER_SIZE := 16
  const BLOCK_SIZE := 1024
  const MAXIMUM_REPEATS := 5
  const TWO_31 := 0x8000_0000
  const TWO_32 := 0x1_0000_0000

  /** What the console can find in its receive buffer. */
  datatype ToClient =
    | Offer(size: int)                            // "ack,<size>"
    | Refusal                                     // "nak,0"
    | Frame(counter: nat, payload: seq<byte>)     // a "TBWF" packet with a good checksum
    | EndOfFile                                   // "TEEE"
    | Noise                                       // anything the packet check rejects

  /** What the robot can find in its receive buffer while a transfer is on. */
  datatype ToServer =
    | Next(pn: nat)      // "TBWF"
    | Again(pn: nat)     // "TBWN"
    | Finish             // "TEEE", or the client went away

  /** A 64-bit size passed through an `int` parameter. */
  function AsInt(size: nat): int {
    var low := size % TWO_32;
    if low < TWO_31 then low else low - TWO_32
  }

  // ---------- the robot ----------

  datatype Server = Server(
    file: seq<byte>, open: bool, pos: nat, counter: nat, repeats: nat, buffer: seq<byte>)

  /** `n` is a possible result of reading the next block of the open file. */
  predicate ReadResult(s: Server, n: nat) {
    && s.pos + n <= |s.file|
    && n <= BLOCK_SIZE - HEADER_SIZE
    && (s.pos < |s.file| ==> n > 0)
  }

  /** The state after an accepted "get" command; the packet buffer and the repetition
      counter still hold what the previous transfer left there. */
  function Opened(file: seq<byte>, repeats: nat, buffer: seq<byte>): Server {
    Server(file, true, 0, 0, repeats, buffer)
  }

  function Served(s: Server, m: ToServer, n: nat): (Server, seq<ToClient>)
    requires ReadResult(s, n)
  {
    if !s.open then (s, [])
    else match m
      case Finish => (s.(open := false), [EndOfFile])
      case Next(pn) =>
        if s.counter > pn then (s.(repeats := 0), [])
        else
          var block := s.file[s.pos..s.pos + n];
          var s' := s.(repeats := 0, pos := s.pos + n, counter := s.counter + 1, buffer := block);
          if n > 0 then (s', [Frame(s'.counter, block)])
          else (s'.(open := false), [EndOfFile])
      case Again(_) =>
        var s' := s.(repeats := s.repeats + 1);
        if s'.repeats >= MAXIMUM_REPEATS then (s'.(open := false), [EndOfFile])
        else (s', [Frame(s.counter, s.buffer)])
  }

  // ---------- the console ----------

  datatype Phase = Off | Asked | Reading

  datatype Client = Client(
    phase: Phase, fileSize: int, received: seq<byte>, expected: nat, bad: nat, skipped: nat, complete: bool)

  const Waiting := Client(Asked, 0, [], 0, 0, 0, false)

  /** A packet that passed the check, numbered `k`. */
  function Stored(c: Client, k: nat, payload: seq<byte>, writeOk: bool): (Client, seq<ToServer>) {
    var expected := if c.expected < k then k else c.expected;
    if k < expected then (c.(skipped := c.skipped + expected - k), [])
    else
      var c' := c.(expected := expected, received := c.received + payload);
      if |c'.received| >= c.fileSize then
        (c'.(phase := Off, complete := true), if writeOk then [Finish, Finish] else [])
      else
        (c'.(expected := expected + 1, phase := if writeOk then Reading else Off),
         if writeOk then [Next(expected)] else [])
  }

  /** `openOk`: the destination file could be opened.  `writeOk`: the socket took the reply. */
  function Got(c: Client, m: ToClient, openOk: bool, writeOk: bool): (Client, seq<ToServer>) {
    match c.phase
    case Off => (c, [])
    case Asked => (
      match m
      case Offer(size) =>
        if openOk then (Client(Reading, size, [], 1, 0, 0, false), if writeOk then [Next(0)] else [])
        else (c.(phase := Off), [])
      case Refusal => (c.(phase := Off), [])
      case _ => (c, []))
    case Reading =>
      if m.Frame? then Stored(c, m.counter, m.payload, writeOk)
      else
        var c' := c.(bad := c.bad + 1, phase := if m.EndOfFile? || !writeOk then Off else Reading);
        (c', if writeOk then [Again(c.expected)] else [])
  }

  // ---------- both machines and the network ----------

  /** `sent` keeps the blocks the robot has numbered 1, 2, ... so far. */
  datatype System = System(
    server: Server, client: Client, toClient: set<ToClient>, toServer: set<ToServer>, sent: seq<seq<byte>>)

  datatype Action =
    | ServerGets(request: ToServer, n: nat)
    | ClientGets(message: ToClient, openOk: bool, writeOk: bool)

  function Start(file: seq<byte>, repeats: nat, buffer: seq<byte>): System {
    System(Opened(file, repeats, buffer), Waiting, {Offer(AsInt(|file|))}, {}, [])
  }

  function Items<T>(s: seq<T>): set<T> {
    set x | x in s
  }

  lemma ItemsAre<T>(s: seq<T>, x: T)
    ensures Items<T>([]) == {}
    ensures Items([x]) == {x}
    ensures Items(s + [x]) == Items(s) + {x}
  {
  }

  predicate Enabled(sys: System, a: Action) {
    match a
    case ServerGets(m, n) => (m in sys.toServer || m == Finish) && ReadResult(sys.server, n)
    case ClientGets(m, _, _) => m in sys.toClient || m == Noise
  }

  function After(sys: System, a: Action): System
    requires Enabled(sys, a)
  {
    match a
    case ServerGets(m, n) =>
      var (s', out) := Served(sys.server, m, n);
      sys.(server := s', toClient := sys.toClient + Items(out),
           sent := if s'.counter > sys.server.counter then sys.sent + [s'.buffer] else sys.sent)
    case ClientGets(m, openOk, writeOk) =>
      var (c', out) := Got(sys.client, m, openOk, writeOk);
      sys.(client := c', toServer := sys.toServer + Items(out))
  }

  /** `run` lists the states of an execution that takes the `actions` one after the other. */
  ghost predicate Execution(run: seq<System>, actions: seq<Action>) {
    && |run| == |actions| + 1
    && forall i :: 0 <= i < |actions| ==> Enabled(run[i], actions[i]) && run[i+1] == After(run[i], actions[i])
  }

  // ---------- the invariant ----------

  function Joined(blocks: seq<seq<byte>>): seq<byte> {
    if blocks == [] then [] else Joined(blocks[..|blocks|-1]) + blocks[|blocks|-1]
  }

  ghost predicate ServerOk(sys: System) {
    var s := sys.server;
    && s.pos <= |s.file|
    && s.counter == |sys.sent|
    && Joined(sys.sent) == s.file[..s.pos]
    && (sys.sent != [] ==> s.buffer == sys.sent[|sys.sent|-1])
    && (forall b :: b in sys.sent ==> 0 < |b| <= BLOCK_SIZE - HEADER_SIZE)
  }

  /** A packet in flight is a stale one numbered 0 or one of the blocks sent. */
  ghost predicate MessageOk(m: ToClient, size: nat, sent: seq<seq<byte>>) {
    match m
    case Offer(offered) => offered == AsInt(size)
    case Frame(k, payload) => k == 0 || (k <= |sent| && payload == sent[k-1])
    case _ => true
  }

  ghost predicate FramesOk(sys: System) {
    forall m :: m in sys.toClient ==> MessageOk(m, |sys.server.file|, sys.sent)
  }

  ghost predicate RequestsOk(sys: System) {
    forall m :: m in sys.toServer ==> m.Next? ==> m.pn < sys.client.expected
  }

  ghost predicate ClientOk(sys: System) {
    var c := sys.client;
    if c.expected == 0 then
      !c.phase.Reading? && c.received == [] && !c.complete && sys.sent == []
    else
      && !c.phase.Asked?
      && c.fileSize == AsInt(|sys.server.file|)
      && c.expected - 1 <= |sys.sent| <= c.expected
      && (c.complete ==> !c.phase.Reading? && |sys.sent| == c.expected && |c.received| >= c.fileSize)
      && c.received == Joined(if c.complete then sys.sent else sys.sent[..c.expected-1])
      && (c.expected > 1 ==> |Joined(sys.sent[..c.expected-1])| < c.fileSize)
  }

  ghost predicate Inv(sys: System) {
    ServerOk(sys) && FramesOk(sys) && RequestsOk(sys) && ClientOk(sys)
  }

  lemma InvStart(file: seq<byte>, repeats: nat, buffer: seq<byte>)
    ensures Inv(Start(file, repeats, buffer))
  {
  }

  /** Whenever the robot acts on an acknowledgement, the acknowledged number is its own
      counter and the file has not been read to its end. */
  lemma AdvanceIsInStep(sys: System, pn: nat)
    requires Inv(sys) && |sys.server.file| > 0 && Next(pn) in sys.toServer && sys.server.counter <= pn
    ensures pn == sys.server.counter && sys.client.expected == pn + 1
    ensures sys.server.pos < |sys.server.file|
  {
    var c := sys.client;
    assert sys.sent[..c.expected-1] == sys.sent;
  }

  lemma BlockSentServer(sys: System, sys': System, block: seq<byte>)
    requires ServerOk(sys) && sys.server.pos + |block| <= |sys.server.file| && 0 < |block| <= BLOCK_SIZE - HEADER_SIZE
    requires block == sys.server.file[sys.server.pos..sys.server.pos + |block|]
    requires sys'.sent == sys.sent + [block]
    requires sys'.server == sys.server.(pos := sys.server.pos + |block|, counter := sys.server.counter + 1,
                                        buffer := block, repeats := 0)
    ensures ServerOk(sys')
  {
    var s := sys.server;
    assert sys'.sent[..|sys'.sent|-1] == sys.sent;
    assert s.file[..s.pos] + block == s.file[..s.pos + |block|];
  }

  lemma BlockSentFrames(sys: System, sys': System, block: seq<byte>)
    requires FramesOk(sys) && sys'.sent == sys.sent + [block] && |sys'.server.file| == |sys.server.file|
    requires sys'.toClient == sys.toClient + {Frame(|sys.sent| + 1, block)}
    ensures FramesOk(sys')
  {
    forall m | m in sys'.toClient
      ensures MessageOk(m, |sys'.server.file|, sys'.sent)
    {
      if m in sys.toClient {
        assert MessageOk(m, |sys.server.file|, sys.sent);
      }
    }
  }

  lemma InvBlockSent(sys: System, pn: nat, n: nat)
    requires Inv(sys) && |sys.server.file| > 0 && sys.server.open
    requires Next(pn) in sys.toServer && sys.server.counter <= pn && ReadResult(sys.server, n)
    ensures Inv(After(sys, ServerGets(Next(pn), n)))
  {
    hide Joined, FramesOk, AsInt;
    AdvanceIsInStep(sys, pn);
    var s, c, sys' := sys.server, sys.client, After(sys, ServerGets(Next(pn), n));
    var block := s.file[s.pos..s.pos + n];
    assert sys'.sent == sys.sent + [block];
    BlockSentServer(sys, sys', block);
    ItemsAre<ToClient>([], Frame(s.counter + 1, block));
    assert [] + [Frame(s.counter + 1, block)] == [Frame(s.counter + 1, block)];
    BlockSentFrames(sys, sys', block);
    assert sys'.sent[..c.expected-1] == sys.sent[..c.expected-1];
  }

  /** A robot that sends no new block keeps everything, whatever it closes or repeats. */
  lemma InvSameBlocks(sys: System, sys': System, extra: set<ToClient>)
    requires Inv(sys) && sys'.sent == sys.sent && sys'.client == sys.client && sys'.toServer == sys.toServer
    requires sys'.server == sys.server.(open := sys'.server.open, repeats := sys'.server.repeats)
    requires sys'.toClient == sys.toClient + extra
    requires forall m :: m in extra ==> m == EndOfFile || m == Frame(sys.server.counter, sys.server.buffer)
    ensures Inv(sys')
  {
    hide Joined, AsInt;
    assert ServerOk(sys') && RequestsOk(sys') && ClientOk(sys');
    forall m | m in sys'.toClient
      ensures MessageOk(m, |sys'.server.file|, sys'.sent)
    {
      if m in sys.toClient {
        assert MessageOk(m, |sys.server.file|, sys.sent);
      }
    }
  }

  lemma InvNoBlockSent(sys: System, m: ToServer, n: nat)
    requires Inv(sys) && Enabled(sys, ServerGets(m, n))
    requires !sys.server.open || !m.Next? || sys.server.counter > m.pn
    ensures Inv(After(sys, ServerGets(m, n)))
  {
    var s, out := sys.server, Served(sys.server, m, n).1;
    ItemsAre<ToClient>([], EndOfFile);
    ItemsAre<ToClient>([], Frame(s.counter, s.buffer));
    assert out == [] || out == [EndOfFile] || out == [Frame(s.counter, s.buffer)];
    InvSameBlocks(sys, After(sys, ServerGets(m, n)), Items(out));
  }

  lemma StoredIsSent(sys: System, k: nat, payload: seq<byte>)
    requires Inv(sys) && sys.client.phase.Reading? && Frame(k, payload) in sys.toClient
    requires k >= sys.client.expected
    ensures k == sys.client.expected == |sys.sent| && payload == sys.sent[k-1]
    ensures Joined(sys.sent) == sys.client.received + payload
  {
    assert MessageOk(Frame(k, payload), |sys.server.file|, sys.sent);
    assert sys.sent[..|sys.sent|] == sys.sent;
  }

  lemma SameRobot(sys: System, sys': System)
    requires sys'.sent == sys.sent && sys'.server == sys.server && sys'.toClient == sys.toClient
    requires ServerOk(sys) && FramesOk(sys)
    ensures ServerOk(sys') && FramesOk(sys')
  {
  }

  lemma InvStored(sys: System, k: nat, payload: seq<byte>, openOk: bool, writeOk: bool)
    requires Inv(sys) && sys.client.phase.Reading? && Frame(k, payload) in sys.toClient
    requires k >= sys.client.expected
    ensures Inv(After(sys, ClientGets(Frame(k, payload), openOk, writeOk)))
  {
    hide ServerOk, FramesOk, AsInt;
    SameRobot(sys, After(sys, ClientGets(Frame(k, payload), openOk, writeOk)));
    var c, sys' := sys.client, After(sys, ClientGets(Frame(k, payload), openOk, writeOk));
    StoredIsSent(sys, k, payload);
    ItemsAre<ToServer>([], Next(k));
    ItemsAre([Finish], Finish);
    assert [Finish] + [Finish] == [Finish, Finish];
    ItemsAre<ToServer>([], Finish);
    assert sys.sent[..|sys.sent|] == sys.sent;
    assert RequestsOk(sys');
  }

  /** A console that stores nothing keeps everything, whatever it asks for. */
  lemma InvSameBytes(sys: System, sys': System, extra: set<ToServer>)
    requires Inv(sys) && sys'.sent == sys.sent && sys'.server == sys.server && sys'.toClient == sys.toClient
    requires sys.client.expected > 0
    requires sys'.client ==
      sys.client.(phase := sys'.client.phase, bad := sys'.client.bad, skipped := sys'.client.skipped)
    requires sys'.client.phase == sys.client.phase || sys'.client.phase.Off?
    requires sys'.toServer == sys.toServer + extra && forall m :: m in extra ==> m.Again?
    ensures Inv(sys')
  {
    assert ServerOk(sys') && FramesOk(sys') && ClientOk(sys') && RequestsOk(sys');
  }

  lemma InvNotStored(sys: System, m: ToClient, openOk: bool, writeOk: bool)
    requires Inv(sys) && Enabled(sys, ClientGets(m, openOk, writeOk))
    requires !sys.client.phase.Reading? || !m.Frame? || m.counter < sys.client.expected
    ensures Inv(After(sys, ClientGets(m, openOk, writeOk)))
  {
    var c, sys' := sys.client, After(sys, ClientGets(m, openOk, writeOk));
    var out := Got(c, m, openOk, writeOk).1;
    if c.expected > 0 {
      ItemsAre<ToServer>([], Again(c.expected));
      assert out == [] || out == [Again(c.expected)];
      InvSameBytes(sys, sys', Items(out));
    } else {
      ItemsAre<ToServer>([], Next(0));
      assert out == [] || (out == [Next(0)] && sys'.client.expected == 1);
      assert m in sys.toClient ==> MessageOk(m, |sys.server.file|, sys.sent);
      assert ServerOk(sys') && FramesOk(sys') && ClientOk(sys') && RequestsOk(sys');
    }
  }

  lemma InvStep(sys: System, a: Action)
    requires Inv(sys) && |sys.server.file| > 0 && Enabled(sys, a)
    ensures Inv(After(sys, a))
  {
    match a
    case ServerGets(m, n) =>
      if sys.server.open && m.Next? && sys.server.counter <= m.pn {
        InvBlockSent(sys, m.pn, n);
      } else {
        InvNoBlockSent(sys, m, n);
      }
    case ClientGets(m, openOk, writeOk) =>
      if sys.client.phase.Reading? && m.Frame? && m.counter >= sys.client.expected {
        InvStored(sys, m.counter, m.payload, openOk, writeOk);
      } else {
        InvNotStored(sys, m, openOk, writeOk);
      }
  }

  // ---------- every execution ----------

  ghost predicate RunOf(file: seq<byte>, run: seq<System>, actions: seq<Action>) {
    && Execution(run, actions)
    && exists repeats, buffer :: run[0] == Start(file, repeats, buffer)
  }

  lemma {:induction false} InvRun(file: seq<byte>, run: seq<System>, actions: seq<Action>, i: nat)
    requires RunOf(file, run, actions) && |file| > 0 && i < |run|
    ensures Inv(run[i]) && run[i].server.file == file
  {
    if i == 0 {
      var repeats, buffer :| run[0] == Start(file, repeats, buffer);
      InvStart(file, repeats, buffer);
    } else {
      InvRun(file, run, actions, i - 1);
      InvStep(run[i-1], actions[i-1]);
      SameFile(run[i-1], actions[i-1]);
    }
  }

  lemma SameFile(sys: System, a: Action)
    requires Enabled(sys, a)
    ensures After(sys, a).server.file == sys.server.file
  {
  }

  lemma {:induction false} JoinedPrefix(blocks: seq<seq<byte>>, k: nat)
    requires k <= |blocks|
    ensures Joined(blocks[..k]) <= Joined(blocks)
  {
    if k < |blocks| {
      var most := blocks[..|blocks|-1];
      JoinedPrefix(most, k);
      assert most[..k] == blocks[..k];
    } else {
      assert blocks[..k] == blocks;
    }
  }

  lemma {:induction false} JoinedIsLong(blocks: seq<seq<byte>>)
    requires forall b :: b in blocks ==> 0 < |b|
    ensures |blocks| <= |Joined(blocks)|
  {
    if blocks != [] {
      JoinedIsLong(blocks[..|blocks|-1]);
    }
  }

  lemma InvPrefix(sys: System)
    requires Inv(sys)
    ensures sys.client.received <= sys.server.file
  {
    if sys.client.expected > 0 && !sys.client.complete {
      JoinedPrefix(sys.sent, sys.client.expected - 1);
    }
    assert Joined(sys.sent) <= sys.server.file;
  }

  /** At all times the console holds a prefix of the robot's file. */
  lemma ReceivedIsPrefix(file: seq<byte>, run: seq<System>, actions: seq<Action>, i: nat)
    requires RunOf(file, run, actions) && |file| > 0 && i < |run|
    ensures run[i].client.received <= file
  {
    InvRun(file, run, actions, i);
    InvPrefix(run[i]);
  }

  /** The announced size is at most the real one, and much less once it does not fit. */
  lemma AsIntIsLess(size: nat)
    ensures size < TWO_31 ==> AsInt(size) == size
    ensures size >= TWO_31 ==> AsInt(size) <= size - TWO_32
    ensures AsInt(size) <= size && AsInt(size) < TWO_31
  {
  }

  /** A console that has completed holds less than one block more than was announced. */
  lemma LessThanABlockMore(sys: System)
    requires Inv(sys) && sys.client.complete
    ensures |sys.client.received| < sys.client.fileSize + BLOCK_SIZE - HEADER_SIZE
      || |sys.client.received| <= BLOCK_SIZE - HEADER_SIZE
  {
    var n := |sys.sent| - 1;
    assert sys.sent[n] in sys.sent && Joined(sys.sent) == Joined(sys.sent[..n]) + sys.sent[n];
  }

  /** Completion declared by byte count means a complete file exactly when the size
      survives the `int` it is announced in. */
  lemma CompletionIsCorrectIff(file: seq<byte>, run: seq<System>, actions: seq<Action>, i: nat)
    requires RunOf(file, run, actions) && |file| > 0 && i < |run|
    requires run[i].client.complete
    ensures run[i].client.received == file <==> |file| < 0x8000_0000
  {
    InvRun(file, run, actions, i);
    InvPrefix(run[i]);
    AsIntIsLess(|file|);
    LessThanABlockMore(run[i]);
  }

  /** The counters of the two machines: the robot's is the number the console expects or
      the one before, no acknowledgement in flight runs ahead, and no packet in flight has
      a number the console does not expect yet. */
  lemma CountersInStep(file: seq<byte>, run: seq<System>, actions: seq<Action>, i: nat)
    requires RunOf(file, run, actions) && |file| > 0 && i < |run|
    ensures var server, client := run[i].server, run[i].client;
      && (client.expected > 0 ==> client.expected - 1 <= server.counter <= client.expected)
      && (client.expected == 0 ==> server.counter == 0)
      && (forall m :: m in run[i].toServer && m.Next? ==> m.pn < client.expected)
      && (forall m :: m in run[i].toClient && m.Frame? ==> m.counter <= client.expected)
  {
    InvRun(file, run, actions, i);
    forall m | m in run[i].toClient && m.Frame?
      ensures m.counter <= run[i].client.expected
    {
      assert MessageOk(m, |file|, run[i].sent);
    }
  }

  /** When the robot reads the next block, the acknowledgement carries its own counter and
      the read finds data: the "unexpected EOF" branch is never taken. */
  lemma NoUnexpectedEof(file: seq<byte>, run: seq<System>, actions: seq<Action>, i: nat)
    requires RunOf(file, run, actions) && |file| > 0 && i < |actions|
    requires actions[i].ServerGets? && actions[i].request.Next?
    requires run[i].server.open && run[i].server.counter <= actions[i].request.pn
    ensures actions[i].request.pn == run[i].server.counter
    ensures actions[i].n > 0 && run[i+1].server.open
  {
    InvRun(file, run, actions, i);
    assert Enabled(run[i], actions[i]);
    AdvanceIsInStep(run[i], actions[i].request.pn);
  }

  /** The sizes whose announcement leaves less than a block of room below 2^31, although
      the file goes on. */
  predicate MayOverflow(size: nat) {
    size >= TWO_32 && TWO_31 - (BLOCK_SIZE - HEADER_SIZE - 1) <= size % TWO_32 < TWO_31
  }

  /** With any other size the byte counter of the console never overflows its `int`. */
  lemma ReceivedFits(file: seq<byte>, run: seq<System>, actions: seq<Action>, i: nat)
    requires RunOf(file, run, actions) && |file| > 0 && i < |run| && !MayOverflow(|file|)
    ensures |run[i].client.received| < TWO_31
  {
    InvRun(file, run, actions, i);
    InvPrefix(run[i]);
    AsIntIsLess(|file|);
    if run[i].client.complete {
      LessThanABlockMore(run[i]);
    }
  }

  /** The packet counters fit, whatever the size. */
  lemma CountersFit(file: seq<byte>, run: seq<System>, actions: seq<Action>, i: nat)
    requires RunOf(file, run, actions) && |file| > 0 && i < |run|
    ensures run[i].server.counter < TWO_31 && run[i].client.expected < TWO_31
  {
    InvRun(file, run, actions, i);
    var sys := run[i];
    if sys.client.expected > 1 {
      JoinedIsLong(sys.sent[..sys.client.expected-1]);
    }
  }

  // ---------- nothing above holds for want of executions ----------

  lemma Extended(run: seq<System>, actions: seq<Action>, a: Action)
    requires Execution(run, actions) && Enabled(run[|run|-1], a)
    ensures Execution(run + [After(run[|run|-1], a)], actions + [a])
  {
  }

  /** The robot is about to get an acknowledgement that the console is waiting to see served. */
  ghost predicate InExchange(sys: System) {
    && Inv(sys) && sys.server.open && sys.client.phase.Reading?
    && sys.server.pos < |sys.server.file|
    && sys.client.expected == sys.server.counter + 1
    && Next(sys.server.counter) in sys.toServer
  }

  /** The console is about to get the packet it expects. */
  ghost predicate InReply(sys: System, block: seq<byte>) {
    && Inv(sys) && sys.server.open && sys.client.phase.Reading?
    && sys.client.expected == sys.server.counter
    && Frame(sys.server.counter, block) in sys.toClient
  }

  /** In an exchange the console holds what the robot has read so far. */
  lemma HeldInExchange(sys: System)
    requires InExchange(sys)
    ensures sys.client.received == sys.server.file[..sys.server.pos]
  {
    assert sys.sent[..sys.client.expected-1] == sys.sent;
  }

  lemma BlockServed(sys: System, n: nat) returns (block: seq<byte>)
    requires InExchange(sys) && 0 < n <= BLOCK_SIZE - HEADER_SIZE && n <= |sys.server.file| - sys.server.pos
    ensures Enabled(sys, ServerGets(Next(sys.server.counter), n)) && |block| == n
    ensures var sys' := After(sys, ServerGets(Next(sys.server.counter), n));
      InReply(sys', block) && sys'.server.pos == sys.server.pos + n && sys'.client == sys.client
  {
    hide Inv, AsInt, Joined;
    var s := sys.server;
    block := s.file[s.pos..s.pos + n];
    InvBlockSent(sys, s.counter, n);
    var out := Served(s, Next(s.counter), n).1;
    assert out == [Frame(s.counter + 1, block)] && Frame(s.counter + 1, block) in Items(out);
  }

  lemma BlockStored(sys: System, block: seq<byte>)
    requires InReply(sys, block)
    ensures var sys' := After(sys, ClientGets(Frame(sys.server.counter, block), true, true));
      && (InExchange(sys') || sys'.client.complete)
      && (sys'.client.complete ==> |sys'.client.received| >= AsInt(|sys.server.file|))
      && sys'.server == sys.server && sys'.client.received == sys.client.received + block
  {
    hide FramesOk;
    InvStored(sys, sys.server.counter, block, true, true);
    var sys' := After(sys, ClientGets(Frame(sys.server.counter, block), true, true));
    if !sys'.client.complete {
      AsIntIsLess(|sys.server.file|);
      assert sys'.sent[..sys'.client.expected-1] == sys'.sent;
      assert Next(sys.server.counter) in sys'.toServer;
    }
  }

  /** One block more goes through. */
  lemma BlockThrough(run: seq<System>, actions: seq<Action>, n: nat) returns (run': seq<System>, actions': seq<Action>)
    requires Execution(run, actions) && InExchange(run[|run|-1])
    requires var s := run[|run|-1].server; 0 < n <= BLOCK_SIZE - HEADER_SIZE && n <= |s.file| - s.pos
    ensures Execution(run', actions') && run'[0] == run[0]
    ensures var sys, sys' := run[|run|-1], run'[|run'|-1];
      && (InExchange(sys') || sys'.client.complete)
      && (sys'.client.complete ==> |sys'.client.received| >= AsInt(|sys.server.file|))
      && |sys'.client.received| == |sys.client.received| + n
      && sys'.server.file == sys.server.file && sys'.server.pos == sys.server.pos + n
  {
    var sys := run[|run|-1];
    var block := BlockServed(sys, n);
    var first := ServerGets(Next(sys.server.counter), n);
    var mid := After(sys, first);
    var second := ClientGets(Frame(mid.server.counter, block), true, true);
    BlockStored(mid, block);
    SameFile(sys, first);
    Extended(run, actions, first);
    Extended(run + [mid], actions + [first], second);
    run', actions' := run + [mid] + [After(mid, second)], actions + [first] + [second];
  }

  lemma {:induction false} FaultFree(run: seq<System>, actions: seq<Action>)
      returns (run': seq<System>, actions': seq<Action>)
    requires Execution(run, actions) && InExchange(run[|run|-1])
    ensures Execution(run', actions') && run'[0] == run[0] && run'[|run'|-1].client.complete
    decreases |run[|run|-1].server.file| - run[|run|-1].server.pos
  {
    var s := run[|run|-1].server;
    var left := |s.file| - s.pos;
    run', actions' := BlockThrough(run, actions,
      if left < BLOCK_SIZE - HEADER_SIZE then left else BLOCK_SIZE - HEADER_SIZE);
    if !run'[|run'|-1].client.complete {
      run', actions' := FaultFree(run', actions');
    }
  }

  /** The console has opened its file and asked for the first packet. */
  lemma Opening(file: seq<byte>, repeats: nat, buffer: seq<byte>) returns (run: seq<System>, actions: seq<Action>)
    requires |file| > 0
    ensures RunOf(file, run, actions) && InExchange(run[|run|-1]) && run[|run|-1].server.file == file
    ensures run[|run|-1].server.pos == 0
    ensures run[0] == Start(file, repeats, buffer) && actions == [ClientGets(Offer(AsInt(|file|)), true, true)]
  {
    var start := Start(file, repeats, buffer);
    InvStart(file, repeats, buffer);
    var a := ClientGets(Offer(AsInt(|file|)), true, true);
    Extended([start], [], a);
    InvStep(start, a);
    assert Next(0) in After(start, a).toServer;
    run, actions := [start] + [After(start, a)], [] + [a];
  }

  /** Every file does get through to a completion on a good day. */
  lemma CanComplete(file: seq<byte>, repeats: nat, buffer: seq<byte>) returns (run: seq<System>, actions: seq<Action>)
    requires |file| > 0
    ensures RunOf(file, run, actions) && run[|run|-1].client.complete
  {
    run, actions := Opening(file, repeats, buffer);
    ghost var first := run[0];
    run, actions := FaultFree(run, actions);
    assert run[0] == first;
  }

  /** And every file from 2^31 bytes on completes wrongly then. */
  lemma CanCompleteWrongly(file: seq<byte>, repeats: nat, buffer: seq<byte>)
    returns (run: seq<System>, actions: seq<Action>)
    requires |file| >= TWO_31
    ensures RunOf(file, run, actions) && run[|run|-1].client.complete && run[|run|-1].client.received != file
  {
    run, actions := CanComplete(file, repeats, buffer);
    CompletionIsCorrectIff(file, run, actions, |run| - 1);
  }

  /** The robot can be read up to any byte below the announced size. */
  lemma {:induction false} ReadUpTo(run: seq<System>, actions: seq<Action>, goal: nat)
      returns (run': seq<System>, actions': seq<Action>)
    requires Execution(run, actions) && InExchange(run[|run|-1])
    requires run[|run|-1].server.pos <= goal < AsInt(|run[|run|-1].server.file|)
    ensures Execution(run', actions') && run'[0] == run[0] && InExchange(run'[|run'|-1])
    ensures run'[|run'|-1].server.pos == goal && run'[|run'|-1].server.file == run[|run|-1].server.file
    decreases goal - run[|run|-1].server.pos
  {
    var s := run[|run|-1].server;
    run', actions' := run, actions;
    if s.pos < goal {
      AsIntIsLess(|s.file|);
      HeldInExchange(run[|run|-1]);
      var left := goal - s.pos;
      run', actions' := BlockThrough(run, actions,
        if left < BLOCK_SIZE - HEADER_SIZE then left else BLOCK_SIZE - HEADER_SIZE);
      run', actions' := ReadUpTo(run', actions', goal);
    }
  }

  /** A run in which the byte counter of the console passes the end of its `int`. */
  lemma CanOverflow(file: seq<byte>, repeats: nat, buffer: seq<byte>) returns (run: seq<System>, actions: seq<Action>)
    requires MayOverflow(|file|)
    ensures RunOf(file, run, actions) && |run[|run|-1].client.received| >= TWO_31
  {
    run, actions := Opening(file, repeats, buffer);
    ghost var first := run[0];
    run, actions := ReadUpTo(run, actions, AsInt(|file|) - 1);
    HeldInExchange(run[|run|-1]);
    run, actions := BlockThrough(run, actions, BLOCK_SIZE - HEADER_SIZE);
    assert run[0] == first;
  }

  ghost predicate Overflows(file: seq<byte>, run: seq<System>, actions: seq<Action>, i: nat) {
    RunOf(file, run, actions) && i < |run| && |run[i].client.received| >= TWO_31
  }

  /** The byte counter can overflow for exactly these sizes. */
  lemma OverflowIff(file: seq<byte>)
    requires |file| > 0
    ensures (exists run, actions, i :: Overflows(file, run, actions, i))
      <==> |file| >= 0x1_0000_0000 && 2147482641 <= |file| % 0x1_0000_0000 < 2147483648
  {
    if MayOverflow(|file|) {
      var run, actions := CanOverflow(file, 0, []);
      assert Overflows(file, run, actions, |run| - 1);
    } else {
      forall run, actions, i | Overflows(file, run, actions, i)
        ensures false
      {
        ReceivedFits(file, run, actions, i);
      }
    }
  }
}
