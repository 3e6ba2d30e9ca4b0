/** What the robot and the console answer, and how a transfer gets over spoiled packets. */
module TransferRecovery {
  import opened Transfer

  /** What a step puts on the wire to the console, and to the robot. */
  function ToConsole(sys: System, a: Action): seq<ToClient>
    requires Enabled(sys, a)
  {
    match a
    case ServerGets(m, n) => Served(sys.server, m, n).1
    case ClientGets(_, _, _) => []
  }

  function ToRobot(sys: System, a: Action): seq<ToServer>
    requires Enabled(sys, a)
  {
    match a
    case ServerGets(_, _) => []
    case ClientGets(m, openOk, writeOk) => Got(sys.client, m, openOk, writeOk).1
  }

  // ---------- the robot's answers ----------

  /** Requests since the last acknowledgement that asked for a repetition. */
  function Repeats(actions: seq<Action>, before: nat): nat {
    if actions == [] then before
    else
      var earlier := Repeats(actions[..|actions|-1], before);
      match actions[|actions|-1]
      case ServerGets(Next(_), _) => 0
      case ServerGets(Again(_), _) => earlier + 1
      case _ => earlier
  }

  /** The last request ends the transfer: the console is done or has gone away, or it has
      asked for a repetition for the fifth time in a row. */
  predicate Ends(actions: seq<Action>, before: nat) {
    && actions != [] && actions[|actions|-1].ServerGets?
    && (actions[|actions|-1].request.Finish?
        || (actions[|actions|-1].request.Again? && Repeats(actions, before) >= 5))
  }

  ghost predicate Ended(actions: seq<Action>, before: nat) {
    exists j :: 0 <= j <= |actions| && Ends(actions[..j], before)
  }

  lemma RunPrefix(file: seq<byte>, run: seq<System>, actions: seq<Action>)
    requires RunOf(file, run, actions) && actions != []
    ensures RunOf(file, run[..|run|-1], actions[..|actions|-1])
  {
  }

  lemma EndedOneMore(actions: seq<Action>, before: nat)
    requires actions != []
    ensures Ended(actions, before) <==> Ended(actions[..|actions|-1], before) || Ends(actions, before)
  {
    var earlier := actions[..|actions|-1];
    assert actions[..|actions|] == actions;
    forall j | 0 <= j <= |earlier|
      ensures earlier[..j] == actions[..j]
    {
    }
    if Ended(actions, before) {
      var j :| 0 <= j <= |actions| && Ends(actions[..j], before);
      assert j < |actions| ==> Ends(earlier[..j], before);
    }
    if Ended(earlier, before) {
      var j :| 0 <= j <= |earlier| && Ends(earlier[..j], before);
      assert Ends(actions[..j], before);
    }
  }

  /** In every run the robot's transfer is open exactly until the console ends it or asks
      for a repetition for the fifth time in a row; any acknowledgement starts the count anew. */
  lemma {:induction false} OpenIff(file: seq<byte>, run: seq<System>, actions: seq<Action>)
    requires RunOf(file, run, actions) && |file| > 0
    ensures var before, server := run[0].server.repeats, run[|run|-1].server;
      && (server.open <==> !Ended(actions, before))
      && (server.open ==> server.repeats == Repeats(actions, before))
    decreases |actions|
  {
    var before := run[0].server.repeats;
    if actions == [] {
      assert !Ended(actions, before);
    } else {
      RunPrefix(file, run, actions);
      OpenIff(file, run[..|run|-1], actions[..|actions|-1]);
      EndedOneMore(actions, before);
      InvRun(file, run, actions, |actions| - 1);
      StepOpens(run[|actions|-1], actions[|actions|-1]);
    }
  }

  /** One step of the robot: what closes it, and what its answer is.  Whatever it sends is
      the newest block, under the number of that block. */
  lemma StepOpens(sys: System, a: Action)
    requires Inv(sys) && |sys.server.file| > 0 && Enabled(sys, a)
    ensures var sys' := After(sys, a);
      && (a.ClientGets? || !sys.server.open ==> ToConsole(sys, a) == [] && sys'.server == sys.server)
      && (a.ServerGets? && sys.server.open ==>
            var fifth := a.request.Again? && sys.server.repeats >= 4;
            && (sys'.server.open <==> !a.request.Finish? && !fifth)
            && sys'.server.repeats == (if a.request.Next? then 0
                                       else if a.request.Again? then sys.server.repeats + 1 else sys.server.repeats)
            && ToConsole(sys, a) ==
                 if !sys'.server.open then [EndOfFile]
                 else if a.request.Next? && a.request.pn < |sys.sent| then []
                 else [Frame(|sys'.sent|, if sys'.sent == [] then sys.server.buffer else sys'.sent[|sys'.sent|-1])])
  {
    if a.ServerGets? && sys.server.open && a.request.Next? && sys.server.counter <= a.request.pn {
      AdvanceIsInStep(sys, a.request.pn);
    }
  }

  /** A file that ends early ends the transfer: an acknowledgement that would advance it is
      answered by the end message. */
  lemma NothingRead(s: Server, pn: nat)
    requires s.open && s.counter <= pn && s.pos == |s.file|
    ensures var (s', out) := Served(s, Next(pn), 0); !s'.open && out == [EndOfFile] && s'.counter == s.counter + 1
  {
  }

  // ---------- the console's answers ----------

  /** When the console waits for an answer, reads, and stops. */
  lemma ConsolePhases(c: Client, m: ToClient, openOk: bool, writeOk: bool)
    ensures var (c', out) := Got(c, m, openOk, writeOk);
      && (c.phase.Off? ==> c' == c && out == [])
      && (c.phase.Asked? ==>
            && (c'.phase.Asked? <==> !m.Offer? && !m.Refusal?)
            && (c'.phase.Reading? <==> m.Offer? && openOk)
            && (c'.phase.Reading? ==> c'.fileSize == m.size && c'.received == [] && c'.expected == 1)
            && out == if m.Offer? && openOk && writeOk then [Next(0)] else [])
      && (c.phase.Reading? && !c.complete ==>
            var stale := m.Frame? && m.counter < c.expected;
            && (c'.complete <==> m.Frame? && !stale && |c.received| + |m.payload| >= c.fileSize)
            && (c'.phase.Off? <==> (!stale && !writeOk) || m.EndOfFile? || c'.complete)
            && !c'.phase.Asked?
            && c'.received == (if m.Frame? && !stale then c.received + m.payload else c.received)
            && c'.expected == (if !m.Frame? || stale then c.expected
                               else if c'.complete then m.counter else m.counter + 1)
            && out == (if stale || !writeOk then []
                       else if c'.complete then [Finish, Finish]
                       else if m.Frame? then [Next(m.counter)]
                       else [Again(c.expected)]))
  {
  }

  /** The console counts what it could not use, and by how much stale packets were behind. */
  function Unusable(run: seq<System>, actions: seq<Action>): nat
    requires |run| == |actions| + 1
  {
    if actions == [] then 0
    else
      var sys, a := run[|actions|-1], actions[|actions|-1];
      Unusable(run[..|actions|], actions[..|actions|-1])
        + if a.ClientGets? && sys.client.phase.Reading? && !a.message.Frame? then 1 else 0
  }

  function Behind(run: seq<System>, actions: seq<Action>): nat
    requires |run| == |actions| + 1
  {
    if actions == [] then 0
    else
      var sys, a := run[|actions|-1], actions[|actions|-1];
      Behind(run[..|actions|], actions[..|actions|-1])
        + if a.ClientGets? && sys.client.phase.Reading? && a.message.Frame? && a.message.counter < sys.client.expected
          then sys.client.expected - a.message.counter else 0
  }

  lemma OneMoreCounted(sys: System, a: Action)
    requires Enabled(sys, a) && (sys.client.phase.Asked? ==> sys.client == Waiting)
    ensures var c, c' := sys.client, After(sys, a).client;
      && c'.bad == c.bad + (if a.ClientGets? && c.phase.Reading? && !a.message.Frame? then 1 else 0)
      && c'.skipped == c.skipped +
           if a.ClientGets? && c.phase.Reading? && a.message.Frame? && a.message.counter < c.expected
           then c.expected - a.message.counter else 0
  {
  }

  lemma {:induction false} BadIsCounted(file: seq<byte>, run: seq<System>, actions: seq<Action>)
    requires RunOf(file, run, actions)
    ensures run[|run|-1].client.bad == Unusable(run, actions)
    ensures run[|run|-1].client.skipped == Behind(run, actions)
    decreases |actions|
  {
    hide After, Enabled;
    if actions != [] {
      RunPrefix(file, run, actions);
      BadIsCounted(file, run[..|run|-1], actions[..|actions|-1]);
      NothingBeforeReading(file, run, actions, |actions| - 1);
      OneMoreCounted(run[|actions|-1], actions[|actions|-1]);
    }
  }

  lemma {:induction false} NothingBeforeReading(file: seq<byte>, run: seq<System>, actions: seq<Action>, i: nat)
    requires RunOf(file, run, actions) && i < |run|
    ensures run[i].client.phase.Asked? ==> run[i].client == Waiting
  {
    if i > 0 {
      NothingBeforeReading(file, run, actions, i - 1);
    }
  }

  /** A console that has stopped stays as it is for the rest of the run. */
  lemma {:induction false} OffStays(run: seq<System>, actions: seq<Action>, i: nat, j: nat)
    requires Execution(run, actions) && i <= j < |run| && run[i].client.phase.Off?
    ensures run[j].client == run[i].client
    decreases j
  {
    if i < j {
      OffStays(run, actions, i, j - 1);
    }
  }

  // ---------- getting over spoiled packets ----------

  /** Step `b` delivers what step `a` put on the wire, or noise in place of it. */
  predicate Delivers(sys: System, a: Action, b: Action)
    requires Enabled(sys, a)
  {
    match b
    case ServerGets(m, _) => m in ToRobot(sys, a)
    case ClientGets(m, _, _) => m in ToConsole(sys, a) || (m == Noise && ToConsole(sys, a) != [])
  }

  /** Nothing gets lost or is delivered twice: packets to the console may only be spoiled. */
  ghost predicate OneByOne(run: seq<System>, actions: seq<Action>) {
    && Execution(run, actions)
    && forall i :: 0 < i < |actions| ==> Delivers(run[i-1], actions[i-1], actions[i])
  }

  /** How often the console was given noise in place of block `k`. */
  function Spoiled(run: seq<System>, actions: seq<Action>, k: nat): nat
    requires |run| == |actions| + 1
  {
    if actions == [] then 0
    else
      Spoiled(run[..|actions|], actions[..|actions|-1], k)
        + if actions[|actions|-1] == ClientGets(Noise, true, true) && run[|actions|-1].server.counter == k then 1 else 0
  }

  lemma OneStepMore(run: seq<System>, actions: seq<Action>, a: Action)
    requires OneByOne(run, actions) && Enabled(run[|run|-1], a)
    requires actions != [] ==> Delivers(run[|actions|-1], actions[|actions|-1], a)
    ensures var sys := run[|run|-1];
      && OneByOne(run + [After(sys, a)], actions + [a])
      && forall k: nat :: Spoiled(run + [After(sys, a)], actions + [a], k)
           == Spoiled(run, actions, k) + if a == ClientGets(Noise, true, true) && sys.server.counter == k then 1 else 0
  {
    Extended(run, actions, a);
    var run', actions' := run + [After(run[|run|-1], a)], actions + [a];
    assert run'[..|actions'|] == run && actions'[..|actions'|-1] == actions;
  }

  predicate ToldRobot(run: seq<System>, actions: seq<Action>, m: ToServer)
    requires |run| == |actions| + 1
  {
    actions != [] && var i := |actions| - 1;
    Enabled(run[i], actions[i]) && m in ToRobot(run[i], actions[i])
  }

  predicate ToldConsole(run: seq<System>, actions: seq<Action>, m: ToClient)
    requires |run| == |actions| + 1
  {
    actions != [] && var i := |actions| - 1;
    Enabled(run[i], actions[i]) && m in ToConsole(run[i], actions[i])
  }

  /** The last step put the acknowledgement on the wire that the robot waits for, */
  ghost predicate Exchanging(run: seq<System>, actions: seq<Action>) {
    && OneByOne(run, actions) && InExchange(run[|run|-1])
    && ToldRobot(run, actions, Next(run[|run|-1].server.counter))
  }

  /** or the packet that the console waits for. */
  ghost predicate Replying(run: seq<System>, actions: seq<Action>, block: seq<byte>) {
    && OneByOne(run, actions) && InReply(run[|run|-1], block)
    && ToldConsole(run, actions, Frame(run[|run|-1].server.counter, block))
  }

  /** A spoiled packet makes the console ask for exactly the packet it expects, once, and the
      robot sends that very packet again, unless it was asked four times before. */
  lemma RepeatServed(sys: System, block: seq<byte>, n: nat)
    requires InReply(sys, block) && sys.server.repeats < 4 && ReadResult(sys.server, n) && |sys.server.file| > 0
    ensures var spoil := ClientGets(Noise, true, true);
      var sys1 := After(sys, spoil);
      var again := ServerGets(Again(sys.client.expected), n);
      && ToRobot(sys, spoil) == [Again(sys.client.expected)] && Enabled(sys1, again)
      && var sys2 := After(sys1, again);
        && ToConsole(sys1, again) == [Frame(sys.client.expected, block)] && InReply(sys2, block)
        && sys1.server == sys.server && sys2.server == sys.server.(repeats := sys.server.repeats + 1)
        && sys2.client == sys.client.(bad := sys.client.bad + 1)
  {
    var spoil := ClientGets(Noise, true, true);
    var sys1 := After(sys, spoil);
    InvStep(sys, spoil);
    assert Again(sys.client.expected) in Got(sys.client, Noise, true, true).1;
    var again := ServerGets(Again(sys.client.expected), n);
    InvStep(sys1, again);
    SentBlock(sys, block);
    assert Frame(sys.client.expected, block) in Served(sys1.server, again.request, n).1;
  }

  lemma SentBlock(sys: System, block: seq<byte>)
    requires InReply(sys, block)
    ensures sys.sent != [] && block == sys.sent[|sys.sent|-1] == sys.server.buffer
  {
    assert MessageOk(Frame(sys.server.counter, block), |sys.server.file|, sys.sent);
  }

  /** A block that is spoiled `k` times stays on its way while at most four repetitions were
      asked for. */
  lemma {:induction false} SpoiledTimes(run: seq<System>, actions: seq<Action>, block: seq<byte>, n: nat, k: nat)
      returns (run': seq<System>, actions': seq<Action>)
    requires Replying(run, actions, block) && run[|run|-1].server.repeats + k <= 4
    requires ReadResult(run[|run|-1].server, n) && |run[|run|-1].server.file| > 0
    ensures Replying(run', actions', block) && run'[0] == run[0]
    ensures var sys, sys' := run[|run|-1], run'[|run'|-1];
      && sys'.server == sys.server.(repeats := sys.server.repeats + k)
      && sys'.client == sys.client.(bad := sys.client.bad + k)
      && (forall j: nat :: Spoiled(run', actions', j)
            == Spoiled(run, actions, j) + if j == sys.server.counter then k else 0)
    decreases k
  {
    hide InReply, ToConsole, ToRobot, Spoiled;
    run', actions' := run, actions;
    if k > 0 {
      run', actions' := SpoiledOnce(run, actions, block, n);
      run', actions' := SpoiledTimes(run', actions', block, n, k - 1);
    }
  }

  lemma SpoiledOnce(run: seq<System>, actions: seq<Action>, block: seq<byte>, n: nat)
      returns (run': seq<System>, actions': seq<Action>)
    requires Replying(run, actions, block) && run[|run|-1].server.repeats < 4
    requires ReadResult(run[|run|-1].server, n) && |run[|run|-1].server.file| > 0
    ensures Replying(run', actions', block) && run'[0] == run[0]
    ensures var sys, sys' := run[|run|-1], run'[|run'|-1];
      && sys'.server == sys.server.(repeats := sys.server.repeats + 1)
      && sys'.client == sys.client.(bad := sys.client.bad + 1)
      && (forall j: nat :: Spoiled(run', actions', j)
            == Spoiled(run, actions, j) + if j == sys.server.counter then 1 else 0)
  {
    hide InReply, Spoiled;
    var sys := run[|run|-1];
    var spoil := ClientGets(Noise, true, true);
    RepeatServed(sys, block, n);
    CounterAwaited(sys, block);
    OneStepMore(run, actions, spoil);
    var sys1 := After(sys, spoil);
    var again := ServerGets(Again(sys.client.expected), n);
    OneStepMore(run + [sys1], actions + [spoil], again);
    run', actions' := run + [sys1] + [After(sys1, again)], actions + [spoil] + [again];
  }

  lemma CounterAwaited(sys: System, block: seq<byte>)
    requires InReply(sys, block)
    ensures sys.client.expected == sys.server.counter && sys.server.open && sys.client.phase.Reading?
    ensures sys.server.pos <= |sys.server.file| && !sys.client.complete
  {
  }

  /** The fifth time ends the transfer on both sides, without the file. */
  lemma GivenUp(run: seq<System>, actions: seq<Action>, block: seq<byte>, n: nat)
      returns (run': seq<System>, actions': seq<Action>)
    requires Replying(run, actions, block) && run[|run|-1].server.repeats <= 4
    requires ReadResult(run[|run|-1].server, n) && |run[|run|-1].server.file| > 0
    ensures OneByOne(run', actions') && run'[0] == run[0]
    ensures var sys, sys' := run[|run|-1], run'[|run'|-1];
      && !sys'.server.open && sys'.client.phase.Off? && !sys'.client.complete
      && sys'.client.received == sys.client.received
      && Spoiled(run', actions', sys.server.counter)
        == Spoiled(run, actions, sys.server.counter) + 5 - sys.server.repeats
  {
    hide Spoiled, Inv;
    run', actions' := SpoiledTimes(run, actions, block, n, 4 - run[|run|-1].server.repeats);
    var sys := run'[|run'|-1];
    var spoil := ClientGets(Noise, true, true);
    OneStepMore(run', actions', spoil);
    var sys1 := After(sys, spoil);
    var again := ServerGets(Again(sys.client.expected), n);
    assert Again(sys.client.expected) in ToRobot(sys, spoil);
    OneStepMore(run' + [sys1], actions' + [spoil], again);
    var sys2 := After(sys1, again);
    var end := ClientGets(EndOfFile, true, true);
    assert EndOfFile in ToConsole(sys1, again);
    OneStepMore(run' + [sys1] + [sys2], actions' + [spoil] + [again], end);
    CounterAwaited(sys, block);
    run', actions' := run' + [sys1] + [sys2] + [After(sys2, end)], actions' + [spoil] + [again] + [end];
  }

  /** The console has all it was promised and says so. */
  ghost predicate Completed(run: seq<System>, actions: seq<Action>) {
    && OneByOne(run, actions) && run[|run|-1].client.complete && run[|run|-1].server.open
    && ToldRobot(run, actions, Finish)
  }

  /** One block gets through, however often up to four times it is spoiled. */
  lemma BlockSpoiled(run: seq<System>, actions: seq<Action>, n: nat, k: nat)
      returns (run': seq<System>, actions': seq<Action>)
    requires Exchanging(run, actions) && k <= 4
    requires var s := run[|run|-1].server; 0 < n <= BLOCK_SIZE - HEADER_SIZE && n <= |s.file| - s.pos
    ensures (Exchanging(run', actions') || Completed(run', actions')) && run'[0] == run[0]
    ensures var sys, sys' := run[|run|-1], run'[|run'|-1];
      && sys'.server.counter == sys.server.counter + 1 && sys'.server.file == sys.server.file
      && sys'.server.pos == sys.server.pos + n
      && (forall j: nat :: Spoiled(run', actions', j)
            == Spoiled(run, actions, j) + if j == sys'.server.counter then k else 0)
  {
    hide Spoiled, Inv;
    var sys := run[|run|-1];
    var next := ServerGets(Next(sys.server.counter), n);
    var block := BlockServed(sys, n);
    OneStepMore(run, actions, next);
    run', actions' := run + [After(sys, next)], actions + [next];
    SentBlock(After(sys, next), block);
    assert ToConsole(sys, next) == [Frame(sys.server.counter + 1, block)];
    var left := |sys.server.file| - run'[|run'|-1].server.pos;
    run', actions' := SpoiledTimes(run', actions', block, if left < 1 then 0 else 1, k);
    var mid := run'[|run'|-1];
    var frame := ClientGets(Frame(mid.server.counter, block), true, true);
    BlockStored(mid, block);
    OneStepMore(run', actions', frame);
    run', actions' := run' + [After(mid, frame)], actions' + [frame];
    StoredAnswer(mid, block);
  }

  lemma StoredAnswer(sys: System, block: seq<byte>)
    requires InReply(sys, block)
    ensures var frame := ClientGets(Frame(sys.server.counter, block), true, true);
      ToRobot(sys, frame) == if After(sys, frame).client.complete then [Finish, Finish] else [Next(sys.server.counter)]
  {
  }

  /** So far each block sent was spoiled as often as `spoils` says, and no other. */
  ghost predicate SpoiledAs(run: seq<System>, actions: seq<Action>, spoils: nat -> nat)
    requires |run| == |actions| + 1
  {
    forall k: nat :: Spoiled(run, actions, k) == if 1 <= k <= run[|run|-1].server.counter then spoils(k) else 0
  }

  lemma SpoiledAsNext(run: seq<System>, actions: seq<Action>, run': seq<System>, actions': seq<Action>,
      spoils: nat -> nat)
    requires |run| == |actions| + 1 && |run'| == |actions'| + 1 && SpoiledAs(run, actions, spoils)
    requires var k := run'[|run'|-1].server.counter;
      && k == run[|run|-1].server.counter + 1
      && forall j: nat :: Spoiled(run', actions', j) == Spoiled(run, actions, j) + if j == k then spoils(k) else 0
    ensures SpoiledAs(run', actions', spoils)
  {
    hide Spoiled;
  }

  lemma {:induction false} BlocksSpoiled(run: seq<System>, actions: seq<Action>, spoils: nat -> nat)
      returns (run': seq<System>, actions': seq<Action>)
    requires Exchanging(run, actions) && SpoiledAs(run, actions, spoils) && forall k :: spoils(k) <= 4
    ensures Completed(run', actions') && run'[0] == run[0] && SpoiledAs(run', actions', spoils)
    decreases |run[|run|-1].server.file| - run[|run|-1].server.pos
  {
    hide Spoiled, Inv, ToRobot;
    var s := run[|run|-1].server;
    var left := |s.file| - s.pos;
    run', actions' := BlockSpoiled(run, actions,
      if left < BLOCK_SIZE - HEADER_SIZE then left else BLOCK_SIZE - HEADER_SIZE, spoils(s.counter + 1));
    SpoiledAsNext(run, actions, run', actions', spoils);
    if !Completed(run', actions') {
      run', actions' := BlocksSpoiled(run', actions', spoils);
    }
  }

  lemma Opened1(file: seq<byte>, repeats: nat, buffer: seq<byte>, spoils: nat -> nat)
      returns (run: seq<System>, actions: seq<Action>)
    requires |file| > 0
    ensures RunOf(file, run, actions) && Exchanging(run, actions) && SpoiledAs(run, actions, spoils)
    ensures run[0] == Start(file, repeats, buffer)
  {
    run, actions := Opening(file, repeats, buffer);
    assert run[..1] == [run[0]] && actions[..0] == [];
  }

  /** The acknowledgement of the end closes the robot's side too. */
  lemma Closing(run: seq<System>, actions: seq<Action>, spoils: nat -> nat)
      returns (run': seq<System>, actions': seq<Action>)
    requires Completed(run, actions) && SpoiledAs(run, actions, spoils) && Inv(run[|run|-1])
    ensures OneByOne(run', actions') && run'[0] == run[0] && SpoiledAs(run', actions', spoils)
    ensures run'[|run'|-1].client == run[|run|-1].client && !run'[|run'|-1].server.open
  {
    hide Spoiled;
    var sys := run[|run|-1];
    var finish := ServerGets(Finish, if sys.server.pos < |sys.server.file| then 1 else 0);
    OneStepMore(run, actions, finish);
    run', actions' := run + [After(sys, finish)], actions + [finish];
  }

  /** Recovery: over a link that may spoil the packet of every block up to four times, the
      whole transfer completes, and it ends on both sides. */
  lemma SpoiledStillCompletes(file: seq<byte>, repeats: nat, buffer: seq<byte>, spoils: nat -> nat)
      returns (run: seq<System>, actions: seq<Action>)
    requires |file| > 0 && forall k :: spoils(k) <= 4
    ensures RunOf(file, run, actions) && OneByOne(run, actions)
    ensures var sys := run[|run|-1];
      && sys.client.complete && sys.client.phase.Off? && !sys.server.open && SpoiledAs(run, actions, spoils)
  {
    hide Spoiled, SpoiledAs, Exchanging, ToRobot, Delivers;
    run, actions := Opened1(file, repeats, buffer, spoils);
    run, actions := BlocksSpoiled(run, actions, spoils);
    InvRun(file, run, actions, |run| - 1);
    ghost var last := run[|run|-1];
    run, actions := Closing(run, actions, spoils);
    CompleteIsOff(last);
  }

  lemma CompleteIsOff(sys: System)
    requires Inv(sys) && sys.client.complete
    ensures sys.client.phase.Off?
  {
  }
}
