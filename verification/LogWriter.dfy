/** A log as a value: what entries, blocks and full files do to it. */
module LogValues {
  type byte = x: int | 0 <= x < 256

  const FILE_SIZE := 104857600
  const FILE_SIZE2 := FILE_SIZE - 16 * 512
  const TMP_SIZE := 512
  const RB_SIZE := 4096

  datatype LFState = Init | Good | Error

  /** What an interrupt wants to log: a message in three parts, or bytes as they are. */
  datatype Entry =
    | Message(header: seq<byte>, body: seq<byte>, tail: seq<byte>)
    | Raw(data: seq<byte>)

  function Bytes(e: Entry): seq<byte> {
    match e
    case Message(header, body, tail) => header + body + tail
    case Raw(data) => data
  }

  lemma BytesAre(e: Entry)
    ensures Bytes(e) == if e.Message? then e.header + e.body + e.tail else e.data
  {
  }

  /** What happens while one block is written: the interrupts during the write and after
      it, and how the file calls end in case the file is full. */
  datatype Turn = Turn(before: seq<Entry>, after: seq<Entry>, truncateOk: bool, openOk: bool, allocOk: bool)

  function Joined(parts: seq<seq<byte>>): seq<byte> {
    if parts == [] then [] else Joined(parts[..|parts|-1]) + parts[|parts|-1]
  }

  lemma JoinedAppend(parts: seq<seq<byte>>, part: seq<byte>)
    ensures Joined(parts + [part]) == Joined(parts) + part
  {
    assert (parts + [part])[..|parts|] == parts;
  }

  lemma Associative(a: seq<byte>, b: seq<byte>, c: seq<byte>)
    ensures a + b + c == a + (b + c)
  {
  }

  lemma Accepted(files: seq<byte>, rb: seq<byte>, accepted: seq<seq<byte>>, bytes: seq<byte>)
    requires files + rb == Joined(accepted)
    ensures files + (rb + bytes) == Joined(accepted + [bytes])
  {
    JoinedAppend(accepted, bytes);
    Associative(files, rb, bytes);
  }

  /** The ring, how logging stands, the file being written, the full files of this log, and
      everything accepted for it, in order. */
  datatype Log = Log(rb: seq<byte>, lfState: LFState, lfWriting: bool, overflows: nat, counter: byte,
                     file: seq<byte>, isOpen: bool, rotated: seq<seq<byte>>, accepted: seq<seq<byte>>)

  predicate Logging(l: Log) {
    l.lfWriting && l.lfState == Good
  }

  /** An entry is queued as a whole or not at all. */
  function Queued(l: Log, e: Entry): Log {
    if !Logging(l) then l
    else if |l.rb| + |Bytes(e)| > RB_SIZE then l.(overflows := l.overflows + 1)
    else l.(rb := l.rb + Bytes(e), accepted := l.accepted + [Bytes(e)],
            counter := if e.Message? then (l.counter + 1) % 256 else l.counter)
  }

  function Fed(l: Log, entries: seq<Entry>): Log {
    if entries == [] then l else Queued(Fed(l, entries[..|entries|-1]), entries[|entries|-1])
  }

  /** The entries that fit into `room` bytes behind those before them that did. */
  function Accepts(entries: seq<Entry>, room: int): (a: seq<seq<byte>>)
    ensures |a| <= |entries|
  {
    if entries == [] then []
    else
      var before := Accepts(entries[..|entries|-1], room);
      var bytes := Bytes(entries[|entries|-1]);
      if |Joined(before)| + |bytes| <= room then before + [bytes] else before
  }

  /** Exactly the entries that fit are accepted, in order, and the others are counted. */
  lemma {:induction false} FedAccepts(l: Log, entries: seq<Entry>)
    requires Logging(l)
    ensures var a := Accepts(entries, 4096 - |l.rb|);
      Fed(l, entries) == l.(rb := l.rb + Joined(a), accepted := l.accepted + a,
                            overflows := l.overflows + |entries| - |a|, counter := Fed(l, entries).counter)
  {
    hide Queued, Joined, Bytes;
    if entries == [] {
      NothingJoined();
      assert l.rb + [] == l.rb && l.accepted + [] == l.accepted;
    } else {
      var before := entries[..|entries|-1];
      FedAccepts(l, before);
      QueuedIs(l, Fed(l, before), entries[|entries|-1], Accepts(before, 4096 - |l.rb|));
    }
  }

  lemma NothingJoined()
    ensures Joined([]) == []
  {
  }

  /** One entry more, behind the accepted ones `a`. */
  lemma QueuedIs(l: Log, f: Log, e: Entry, a: seq<seq<byte>>)
    requires Logging(l) && f.lfState == l.lfState && f.lfWriting == l.lfWriting
    requires f.rb == l.rb + Joined(a) && f.accepted == l.accepted + a
    ensures var fits, q := |Joined(a)| + |Bytes(e)| <= 4096 - |l.rb|, Queued(f, e);
      var a' := if fits then a + [Bytes(e)] else a;
      q == f.(rb := l.rb + Joined(a'), accepted := l.accepted + a',
              overflows := f.overflows + (if fits then 0 else 1), counter := q.counter)
  {
    hide Bytes, Joined;
    JoinedAppend(a, Bytes(e));
    Associative(l.rb, Joined(a), Bytes(e));
    assert l.accepted + a + [Bytes(e)] == l.accepted + (a + [Bytes(e)]);
  }

  /** The messages among the accepted entries. */
  function Messages(l: Log, entries: seq<Entry>): nat {
    if entries == [] then 0
    else
      var before, e := entries[..|entries|-1], entries[|entries|-1];
      Messages(l, before) + if e.Message? && |Fed(l, before).accepted| < |Fed(l, entries).accepted| then 1 else 0
  }

  lemma QueuedNumber(l: Log, e: Entry, before: nat, first: nat)
    requires l.counter == (first + before) % 256
    ensures Queued(l, e).counter
      == (first + before + if e.Message? && |l.accepted| < |Queued(l, e).accepted| then 1 else 0) % 256
  {
    hide Bytes;
  }

  /** Every accepted message takes one number, 0 to 255 in turn. */
  lemma {:induction false} FedNumbers(l: Log, entries: seq<Entry>)
    ensures Fed(l, entries).counter == (l.counter + Messages(l, entries)) % 256
  {
    hide Queued, Bytes;
    if entries != [] {
      var before := entries[..|entries|-1];
      FedNumbers(l, before);
      QueuedNumber(Fed(l, before), entries[|entries|-1], Messages(l, before), l.counter);
    }
  }

  lemma {:induction false} FedNothing(l: Log, entries: seq<Entry>)
    requires !Logging(l)
    ensures Fed(l, entries) == l
  {
    if entries != [] {
      FedNothing(l, entries[..|entries|-1]);
    }
  }

  /** What feeding leaves alone. */
  lemma {:induction false} FedKeeps(l: Log, entries: seq<Entry>)
    ensures var f := Fed(l, entries);
      && f == l.(rb := f.rb, accepted := f.accepted, overflows := f.overflows, counter := f.counter)
      && l.rb <= f.rb && l.accepted <= f.accepted && (|l.rb| <= RB_SIZE ==> |f.rb| <= RB_SIZE)
  {
    if entries != [] {
      FedKeeps(l, entries[..|entries|-1]);
    }
  }

  /** A log that is started, if name, file and preallocation allow it: nothing is left over
      from an earlier log but the message counter, unless there is no name. */
  function Opened(l: Log, nameOk: bool, openOk: bool, allocOk: bool): Log {
    var ok := nameOk && openOk && allocOk;
    if !nameOk then l.(lfState := Error)
    else Log([], if ok then Good else Error, ok, 0, l.counter, [], openOk, [], [])
  }

  const QUIET := Turn([], [], true, true, true)

  /** The turn in which block `j` is written. */
  function TurnAt(turns: seq<Turn>, j: nat): Turn {
    if j < |turns| then turns[j] else QUIET
  }

  function Rest(turns: seq<Turn>): seq<Turn> {
    if turns == [] then [] else turns[1..]
  }

  /** A block goes from the ring to the file. */
  function Flushed(l: Log): Log
    requires |l.rb| >= TMP_SIZE
  {
    l.(rb := l.rb[TMP_SIZE..], file := l.file + l.rb[..TMP_SIZE])
  }

  predicate Fails(t: Turn) {
    !t.truncateOk || !t.openOk || !t.allocOk
  }

  /** The next file of the log is started. */
  function Rotated(l: Log, t: Turn): Log {
    l.(file := [], rotated := l.rotated + [l.file], isOpen := t.openOk,
       lfState := if Fails(t) then Error else l.lfState)
  }

  function RotatedIfFull(l: Log, t: Turn): Log {
    if |l.file| > FILE_SIZE2 then Rotated(l, t) else l
  }

  /** The loop ends in the middle of a turn if the next file cannot be made. */
  predicate Breaks(l: Log, t: Turn) {
    |l.file| + TMP_SIZE > FILE_SIZE2 && !(t.openOk && t.allocOk)
  }

  function BlockWritten(l: Log, t: Turn): Log
    requires |l.rb| >= TMP_SIZE
  {
    var r := RotatedIfFull(Fed(Flushed(l), t.before), t);
    if Breaks(l, t) then r else Fed(r, t.after)
  }

  lemma BlockWrittenKeeps(l: Log, t: Turn)
    requires |l.rb| >= TMP_SIZE
    ensures var b := BlockWritten(l, t);
      && l.rb[TMP_SIZE..] <= b.rb && l.accepted <= b.accepted && b.lfWriting == l.lfWriting
      && b.file == (if |l.file| + TMP_SIZE > FILE_SIZE2 then [] else l.file + l.rb[..TMP_SIZE])
      && b.rotated == l.rotated + (if |l.file| + TMP_SIZE > FILE_SIZE2 then [l.file + l.rb[..TMP_SIZE]] else [])
      && b.lfState == (if |l.file| + TMP_SIZE > FILE_SIZE2 && Fails(t) then Error else l.lfState)
      && (t.before == t.after == [] ==> b.rb == l.rb[TMP_SIZE..])
  {
    hide Queued;
    FedKeeps(Flushed(l), t.before);
    FedKeeps(RotatedIfFull(Fed(Flushed(l), t.before), t), t.after);
  }

  /** The loop of lfProcess when `n` bytes were counted in the ring. */
  function Processed(l: Log, n: nat, turns: seq<Turn>): Log
    requires n <= |l.rb|
    decreases |turns|, |l.rb|
  {
    if n < TMP_SIZE then l
    else
      var t := TurnAt(turns, 0);
      BlockWrittenKeeps(l, t);
      if Breaks(l, t) then BlockWritten(l, t)
      else Processed(BlockWritten(l, t), |l.rb| - TMP_SIZE, Rest(turns))
  }

  /** The bytes that have got to the card. */
  ghost function Stored(l: Log): nat {
    |Joined(l.rotated)| + |l.file|
  }

  lemma BlockStored(l: Log, t: Turn)
    requires |l.rb| >= TMP_SIZE
    ensures Stored(BlockWritten(l, t)) == Stored(l) + TMP_SIZE
  {
    BlockWrittenKeeps(l, t);
    JoinedAppend(l.rotated, l.file + l.rb[..TMP_SIZE]);
    assert l.rotated + [] == l.rotated;
  }

  /** Nothing full or accepted is taken back, and unless the card fails less than a block of
      what was counted is left. */
  lemma {:induction false} ProcessedGrows(l: Log, n: nat, turns: seq<Turn>)
    requires n <= |l.rb|
    ensures var p := Processed(l, n, turns);
      && l.rotated <= p.rotated && l.accepted <= p.accepted && p.lfWriting == l.lfWriting
      && (p.lfState != Error ==> Stored(p) + TMP_SIZE > Stored(l) + n)
      && (turns == [] ==> p.lfState == l.lfState && (n == |l.rb| ==> |p.rb| == n % TMP_SIZE))
    decreases |turns|, |l.rb|
  {
    hide BlockWritten, Stored;
    if n >= TMP_SIZE {
      var t := TurnAt(turns, 0);
      BlockWrittenKeeps(l, t);
      BlockStored(l, t);
      if !Breaks(l, t) {
        ProcessedGrows(BlockWritten(l, t), |l.rb| - TMP_SIZE, Rest(turns));
      }
    }
  }

  /** `bytes` are those of some of the entries, in order and each at most once. */
  predicate Picked(bytes: seq<seq<byte>>, entries: seq<Entry>) {
    bytes == [] ||
    (entries != [] &&
     (Picked(bytes, entries[..|entries|-1]) ||
      (bytes[|bytes|-1] == Bytes(entries[|entries|-1]) && Picked(bytes[..|bytes|-1], entries[..|entries|-1]))))
  }

  lemma PickedNone(entries: seq<Entry>)
    ensures Picked([], entries)
  {
  }

  lemma {:induction false} PickedBoth(a: seq<seq<byte>>, x: seq<Entry>, b: seq<seq<byte>>, y: seq<Entry>)
    requires Picked(a, x) && Picked(b, y)
    ensures Picked(a + b, x + y)
  {
    if y == [] {
      assert a + b == a && x + y == x;
    } else {
      var rest := y[..|y|-1];
      assert (x + y)[..|x + y|-1] == x + rest;
      if Picked(b, rest) {
        PickedBoth(a, x, b, rest);
      } else {
        PickedBoth(a, x, b[..|b|-1], rest);
        assert (a + b)[..|a + b|-1] == a + b[..|b|-1];
      }
    }
  }

  lemma {:induction false} FedPicks(l: Log, entries: seq<Entry>)
    ensures l.accepted <= Fed(l, entries).accepted
    ensures Picked(Fed(l, entries).accepted[|l.accepted|..], entries)
  {
    if entries != [] {
      var before, e := entries[..|entries|-1], entries[|entries|-1];
      FedPicks(l, before);
      var old', new' := Fed(l, before).accepted, Fed(l, entries).accepted;
      if new' != old' {
        assert new'[|l.accepted|..] == old'[|l.accepted|..] + [Bytes(e)];
        assert new'[|l.accepted|..][..|new'| - |l.accepted| - 1] == old'[|l.accepted|..];
      }
    }
  }

  lemma BlockPicks(l: Log, t: Turn)
    requires |l.rb| >= TMP_SIZE
    ensures l.accepted <= BlockWritten(l, t).accepted
    ensures Picked(BlockWritten(l, t).accepted[|l.accepted|..], t.before + t.after)
  {
    hide Fed, Picked;
    var f := Fed(Flushed(l), t.before);
    var r := RotatedIfFull(f, t);
    FedPicks(Flushed(l), t.before);
    FedPicks(r, t.after);
    var a := f.accepted[|l.accepted|..];
    if Breaks(l, t) {
      PickedNone(t.after);
      PickedBoth(a, t.before, [], t.after);
      assert a + [] == a;
      FedKeeps(Flushed(l), t.before);
    } else {
      var b := Fed(r, t.after).accepted[|r.accepted|..];
      PickedBoth(a, t.before, b, t.after);
      assert Fed(r, t.after).accepted[|l.accepted|..] == a + b;
    }
  }

  /** Everything interrupts try to log while the loop runs. */
  function Offered(turns: seq<Turn>): seq<Entry> {
    if turns == [] then [] else turns[0].before + turns[0].after + Offered(turns[1..])
  }

  /** The loop accepts nothing but what it was offered, in order and once each. */
  lemma {:induction false} ProcessedPicks(l: Log, n: nat, turns: seq<Turn>)
    requires n <= |l.rb|
    ensures l.accepted <= Processed(l, n, turns).accepted
    ensures Picked(Processed(l, n, turns).accepted[|l.accepted|..], Offered(turns))
    decreases |turns|, |l.rb|
  {
    hide BlockWritten, Picked;
    PickedNone(Offered(turns));
    PickedNone(Offered(Rest(turns)));
    assert l.accepted[|l.accepted|..] == [];
    if n >= TMP_SIZE {
      var t := TurnAt(turns, 0);
      var b := BlockWritten(l, t);
      BlockWrittenKeeps(l, t);
      BlockPicks(l, t);
      var first, more := b.accepted[|l.accepted|..], [];
      if !Breaks(l, t) {
        ProcessedPicks(b, |l.rb| - TMP_SIZE, Rest(turns));
        more := Processed(b, |l.rb| - TMP_SIZE, Rest(turns)).accepted[|b.accepted|..];
      }
      PickedBoth(first, t.before + t.after, more, Offered(Rest(turns)));
      assert Processed(l, n, turns).accepted[|l.accepted|..] == first + more;
      assert turns == [] ==> t.before + t.after + Offered(Rest(turns)) == Offered(turns);
    }
  }

  /** How many blocks that loop writes. */
  function Blocks(l: Log, n: nat, turns: seq<Turn>): nat
    requires n <= |l.rb|
    decreases |turns|, |l.rb|
  {
    if n < TMP_SIZE then 0
    else
      var t := TurnAt(turns, 0);
      BlockWrittenKeeps(l, t);
      if Breaks(l, t) then 1 else 1 + Blocks(BlockWritten(l, t), |l.rb| - TMP_SIZE, Rest(turns))
  }

  const BLOCKS_PER_FILE := FILE_SIZE2 / TMP_SIZE + 1

  /** Block `j` of a loop that began with `written` bytes in the file fills the file. */
  predicate Fills(written: nat, j: nat) {
    (written / TMP_SIZE + j + 1) % BLOCKS_PER_FILE == 0
  }

  ghost predicate FailsAt(l: Log, turns: seq<Turn>, j: nat) {
    Fills(|l.file|, j) && Fails(TurnAt(turns, j))
  }

  lemma {:induction false} ErrorStays(l: Log, n: nat, turns: seq<Turn>)
    requires n <= |l.rb|
    ensures Processed(l, n, turns).lfWriting == l.lfWriting
    ensures l.lfState == Error ==> Processed(l, n, turns).lfState == Error
    decreases |turns|, |l.rb|
  {
    if n >= TMP_SIZE {
      var t := TurnAt(turns, 0);
      BlockWrittenKeeps(l, t);
      if !Breaks(l, t) {
        ErrorStays(BlockWritten(l, t), |l.rb| - TMP_SIZE, Rest(turns));
      }
    }
  }

  lemma FillsNext(written: nat, j: nat)
    requires written <= FILE_SIZE2 && written % TMP_SIZE == 0
    ensures Fills(written, 0) <==> written + TMP_SIZE > FILE_SIZE2
    ensures Fills(if Fills(written, 0) then 0 else written + TMP_SIZE, j) <==> Fills(written, j + 1)
  {
  }

  lemma FailsFirst(l: Log, turns: seq<Turn>)
    requires |l.file| <= FILE_SIZE2 && |l.file| % TMP_SIZE == 0
    ensures FailsAt(l, turns, 0) <==> |l.file| + TMP_SIZE > FILE_SIZE2 && Fails(TurnAt(turns, 0))
    ensures Breaks(l, TurnAt(turns, 0)) ==> FailsAt(l, turns, 0)
  {
    FillsNext(|l.file|, 0);
  }

  /** What the later turns do to a log is what they do to it after the first block. */
  lemma FailsLater(l: Log, b: Log, turns: seq<Turn>, blocks: nat)
    requires |l.file| <= FILE_SIZE2 && |l.file| % TMP_SIZE == 0
    requires |b.file| == if |l.file| + TMP_SIZE > FILE_SIZE2 then 0 else |l.file| + TMP_SIZE
    requires !FailsAt(l, turns, 0)
    ensures (exists j | 0 <= j < blocks :: FailsAt(b, Rest(turns), j))
      <==> exists j | 0 <= j < 1 + blocks :: FailsAt(l, turns, j)
  {
    forall j: nat
      ensures FailsAt(b, Rest(turns), j) <==> FailsAt(l, turns, j + 1)
    {
      FillsNext(|l.file|, j);
    }
    if j :| 0 <= j < blocks && FailsAt(b, Rest(turns), j) {
      assert FailsAt(l, turns, j + 1);
    }
    if j :| 0 <= j < 1 + blocks && FailsAt(l, turns, j) {
      assert FailsAt(b, Rest(turns), j - 1);
    }
  }

  /** A turn fails if the block that fills the file is written in it and one of the three
      calls to the card does not succeed. */
  lemma FailsAtIff(l: Log, turns: seq<Turn>, j: nat)
    ensures FailsAt(l, turns, j) <==> (
      && (|l.file| / 512 + j + 1) % 204785 == 0
      && j < |turns| && !(turns[j].truncateOk && turns[j].openOk && turns[j].allocOk))
  {
  }

  /** The loop leaves the error state behind exactly if the card fails while a file is
      replaced, which happens every 204785 blocks. */
  lemma {:induction false} ErrorIff(l: Log, n: nat, turns: seq<Turn>)
    requires n <= |l.rb| && l.lfState != Error
    requires |l.file| <= FILE_SIZE2 && |l.file| % TMP_SIZE == 0
    ensures Processed(l, n, turns).lfState == Error <==>
      exists j | 0 <= j < Blocks(l, n, turns) :: FailsAt(l, turns, j)
    decreases |turns|, |l.rb|
  {
    hide FailsAt, Breaks, Fails, BlockWritten;
    if n >= TMP_SIZE {
      var t := TurnAt(turns, 0);
      var b := BlockWritten(l, t);
      BlockWrittenKeeps(l, t);
      FailsFirst(l, turns);
      if FailsAt(l, turns, 0) {
        if !Breaks(l, t) {
          ErrorStays(b, |l.rb| - TMP_SIZE, Rest(turns));
        }
      } else {
        ErrorIff(b, |l.rb| - TMP_SIZE, Rest(turns));
        FailsLater(l, b, turns, Blocks(b, |l.rb| - TMP_SIZE, Rest(turns)));
      }
    }
  }
}

/** The log writer: whole messages go from interrupts into a byte ring, the main loop moves
    the ring to files in blocks of 512 bytes and starts a new file when one is full. */
module LogWriter {
  import opened LogValues

  /** What can be asked of a log while nothing is being written. */
  datatype Call =
    | LogEntry(entry: Entry)
    | Run(turns: seq<Turn>)
    | StopLog(truncateOk: bool)
    | StartLog(sdOk: bool, goesOn: bool, nameOk: bool, openOk: bool, allocOk: bool)

  class LogFile {
    var rb: seq<byte>
    var lfState: LFState
    var lfWriting: bool
    var sdStarted: bool
    var overflows: nat
    var counter: byte
    /** The file being written, and whether it is open. */
    var file: seq<byte>
    var isOpen: bool
    var fileBytesCounter: nat
    var fileCounter: nat
    /** The full files of this log, and everything accepted for it, in order. */
    ghost var rotated: seq<seq<byte>>
    ghost var accepted: seq<seq<byte>>

    /** The log as a value. */
    ghost function Value(): Log
      reads this
    {
      Log(rb, lfState, lfWriting, overflows, counter, file, isOpen, rotated, accepted)
    }

    /** Nothing is lost, repeated or reordered. */
    ghost predicate Conserved()
      reads this`rotated, this`file, this`rb, this`accepted
    {
      Joined(rotated) + file + rb == Joined(accepted)
    }

    /** What holds even in the middle of a turn of the main loop. */
    ghost predicate Core()
      reads this
    {
      && Conserved()
      && |rb| <= RB_SIZE
      && |file| == fileBytesCounter
      && (lfWriting ==> sdStarted)
      && (sdStarted ==> lfState != Init)
      && |rotated| == fileCounter
      && (forall f :: f in rotated ==> |f| == FILE_SIZE2 + TMP_SIZE)
    }

    /** Every full file is exactly one block longer than the limit, and the file being
        written stays within the limit, so that what the ring holds fits behind it. */
    ghost predicate Valid()
      reads this
    {
      && Core()
      && (lfWriting ==> fileBytesCounter <= FILE_SIZE2 && fileBytesCounter % TMP_SIZE == 0)
      && (lfWriting && lfState == Good ==> isOpen)
      && (!lfWriting ==> rb == [] && fileBytesCounter <= FILE_SIZE)
    }

    /** A log that is being written while the state is bad. */
    ghost predicate Stuck()
      reads this
    {
      lfWriting && lfState == Error
    }

    constructor ()
      ensures Valid() && !sdStarted && Value() == Log([], Init, false, 0, 0, [], false, [], [])
    {
      rb, lfState, lfWriting, sdStarted, overflows, counter := [], Init, false, false, 0, 0;
      file, isOpen, fileBytesCounter, fileCounter, rotated, accepted := [], false, 0, 0, [], [];
    }

    method PutParts(e: Entry)
      modifies this`rb
      ensures rb == old(rb) + Bytes(e)
    {
      if e.Message? {
        rb := rb + e.header;
        rb := rb + e.body;
        rb := rb + e.tail;
      } else {
        rb := rb + e.data;
      }
    }

    /** Queues an entry that fits. */
    method Accept(e: Entry)
      requires Conserved()
      modifies this`rb, this`counter, this`accepted
      ensures Conserved() && rb == old(rb) + Bytes(e) && accepted == old(accepted) + [Bytes(e)]
      ensures counter == if e.Message? then (old(counter) + 1) % 256 else old(counter)
    {
      Accepted(Joined(rotated) + file, rb, accepted, Bytes(e));
      accepted := accepted + [Bytes(e)];
      PutParts(e);
      if e.Message? {
        counter := (counter + 1) % 256;
      }
    }

    predicate Fits(e: Entry)
      reads this
    {
      lfWriting && lfState == Good && |rb| + |Bytes(e)| <= RB_SIZE
    }

    /** lfSendMessage and lfFeed: an entry is queued as a whole or not at all. */
    method Put(e: Entry) returns (ret: nat)
      requires Core()
      modifies this`rb, this`overflows, this`counter, this`accepted
      ensures Core() && Value() == Queued(old(Value()), e)
      ensures ret == if old(Fits(e)) then |Bytes(e)| else 0
      ensures old(lfWriting && lfState == Good && |rb| + |Bytes(e)| <= 4096) ==>
        rb == old(rb) + (if e.Message? then e.header + e.body + e.tail else e.data)
    {
      hide Conserved, Bytes;
      ret := 0;
      if !sdStarted || lfState != Good || !lfWriting {
        return;
      }
      var freeBytes := RB_SIZE - |rb|;
      if freeBytes < |Bytes(e)| {
        overflows := overflows + 1;
        return;
      }
      ret := |Bytes(e)|;
      BytesAre(e);
      Accept(e);
    }

    /** Entries that come one after another: exactly those that fit are accepted. */
    method PutAll(entries: seq<Entry>)
      requires Core()
      modifies this`rb, this`overflows, this`counter, this`accepted
      ensures Core() && Value() == Fed(old(Value()), entries)
      ensures accepted == old(accepted) + if Logging(old(Value())) then Accepts(entries, RB_SIZE - old(|rb|)) else []
      ensures old(lfWriting && Valid()) ==> Valid()
    {
      hide Conserved, Queued, Accepts, Bytes;
      for i := 0 to |entries|
        invariant Core() && Value() == Fed(old(Value()), entries[..i])
      {
        assert entries[..i + 1][..i] == entries[..i];
        var ret := Put(entries[i]);
      }
      assert entries[..|entries|] == entries;
      if Logging(old(Value())) {
        FedAccepts(old(Value()), entries);
      } else {
        FedNothing(old(Value()), entries);
      }
    }

    /** Takes the first `n` bytes out of the ring and writes them to the file. */
    method WriteOut(n: nat)
      requires Conserved() && n <= |rb|
      modifies this`rb, this`file, this`fileBytesCounter
      ensures Conserved() && rb == old(rb)[n..] && file == old(file) + old(rb)[..n]
      ensures fileBytesCounter == old(fileBytesCounter) + n
    {
      Associative(Joined(rotated), file, rb[..n]);
      Associative(Joined(rotated) + file, rb[..n], rb[n..]);
      assert rb[..n] + rb[n..] == rb;
      file := file + rb[..n];
      rb := rb[n..];
      fileBytesCounter := fileBytesCounter + n;
    }

    /** Starts the next file of the log. */
    method Rotate(t: Turn)
      requires Conserved() && lfState != Init && |rotated| == fileCounter
      modifies this`file, this`isOpen, this`fileBytesCounter, this`fileCounter, this`rotated, this`lfState
      ensures Conserved() && fileBytesCounter == 0 && |rotated| == fileCounter == old(fileCounter) + 1
      ensures file == [] && rotated == old(rotated) + [old(file)]
      ensures lfState == if t.truncateOk && t.openOk && t.allocOk then old(lfState) else Error
      ensures isOpen == t.openOk
    {
      if !t.truncateOk {
        lfState := Error;
      }
      isOpen := false;
      fileCounter := fileCounter + 1;
      fileBytesCounter := 0;
      JoinedAppend(rotated, file);
      Associative(Joined(rotated), file, rb);
      rotated := rotated + [file];
      file := [];
      assert Joined(rotated) + file == Joined(rotated);
      if !t.openOk {
        lfState := Error;
        return;
      }
      isOpen := true;
      if !t.allocOk {
        lfState := Error;
      }
    }

    /** Goes on to the next file once the limit is passed. */
    method RotateIfFull(t: Turn) returns (ok: bool)
      requires Core() && lfWriting && isOpen && fileBytesCounter % TMP_SIZE == 0
      requires fileBytesCounter <= FILE_SIZE2 + TMP_SIZE
      modifies this`file, this`isOpen, this`fileBytesCounter, this`fileCounter, this`rotated, this`lfState
      ensures Valid() && (ok ==> isOpen)
      ensures Value() == RotatedIfFull(old(Value()), t)
      ensures !ok <==> old(fileBytesCounter) > FILE_SIZE2 && !(t.openOk && t.allocOk)
    {
      if fileBytesCounter > FILE_SIZE2 {
        assert fileBytesCounter == FILE_SIZE2 + TMP_SIZE;
        Rotate(t);
        if !t.openOk || !t.allocOk {
          return false;
        }
      }
      return true;
    }

    /** Writes one block, with interrupts before anything else happens. */
    method WriteAndFeed(entries: seq<Entry>) returns (n: nat)
      requires Core() && |rb| >= TMP_SIZE
      modifies this`rb, this`file, this`fileBytesCounter, this`overflows, this`counter, this`accepted
      ensures Core() && Value() == Fed(Flushed(old(Value())), entries)
      ensures n == old(|rb|) - TMP_SIZE
    {
      WriteOut(TMP_SIZE);
      n := |rb|;
      PutAll(entries);
    }

    /** One turn of the loop; `n` is what the ring held right after the block was taken out. */
    method WriteBlock(t: Turn) returns (n: nat, ok: bool)
      requires Valid() && lfWriting && isOpen && |rb| >= TMP_SIZE
      modifies this
      ensures Valid() && Value() == BlockWritten(old(Value()), t) && sdStarted == old(sdStarted)
      ensures n == old(|rb|) - TMP_SIZE && (ok ==> isOpen)
      ensures !ok <==> Breaks(old(Value()), t)
    {
      hide Conserved;
      FedKeeps(Flushed(Value()), t.before);
      n := WriteAndFeed(t.before);
      assert fileBytesCounter % TMP_SIZE == 0 && fileBytesCounter <= FILE_SIZE2 + TMP_SIZE;
      ok := RotateIfFull(t);
      if ok {
        PutAll(t.after);
      }
    }

    /** The main loop's call: moves whole blocks from the ring to the files.  While it runs,
        `turns` says what happens during each block written; nothing happens afterwards.
        Unless the card fails, less than a block of what the ring held is left. */
    method Process(turns: seq<Turn>)
      requires Valid()
      modifies this
      ensures Valid() && lfWriting == old(lfWriting) && sdStarted == old(sdStarted)
      ensures Value() == if Logging(old(Value())) then Processed(old(Value()), old(|rb|), turns) else old(Value())
      ensures old(rotated) <= rotated && old(accepted) <= accepted
      ensures forall f :: f in rotated ==> |f| == 104849920
      ensures lfWriting && lfState == Good ==> Stored(Value()) + TMP_SIZE > Stored(old(Value())) + old(|rb|)
      ensures lfWriting && old(lfState) == Good && turns == [] ==> lfState == Good && |rb| == old(|rb|) % TMP_SIZE
    {
      hide Conserved, Joined, BlockWritten, Stored;
      if lfState != Good || !lfWriting {
        return;
      }
      ProcessedGrows(Value(), |rb|, turns);
      var n: nat := |rb|;
      var rest := turns;
      while n >= TMP_SIZE
        invariant Valid() && lfWriting && sdStarted && isOpen && n <= |rb|
        invariant Processed(Value(), n, rest) == Processed(old(Value()), old(|rb|), turns)
        decreases |rest|, |rb|
      {
        var ok;
        BlockWrittenKeeps(Value(), TurnAt(rest, 0));
        n, ok := WriteBlock(TurnAt(rest, 0));
        if !ok {
          return;
        }
        rest := Rest(rest);
      }
    }

    /** Empties the ring into the file. */
    method Drain()
      requires Conserved() && |file| == fileBytesCounter
      modifies this`rb, this`file, this`fileBytesCounter
      ensures Conserved() && rb == [] && file == old(file + rb) && |file| == fileBytesCounter
    {
      var n := |rb|;
      while n > 0
        invariant Conserved() && n == |rb| && |file| == fileBytesCounter && file + rb == old(file + rb)
        decreases n
      {
        var bs := if n > TMP_SIZE then TMP_SIZE else n;
        Associative(file, rb[..bs], rb[bs..]);
        assert rb[..bs] + rb[bs..] == rb;
        WriteOut(bs);
        n := |rb|;
      }
    }

    /** Ends the log: the rest of the ring goes to the last file. */
    method Stop(truncateOk: bool)
      requires Valid()
      modifies this
      ensures Valid() && sdStarted == old(sdStarted)
      ensures Value() ==
        if sdStarted && old(lfState) == Good
        then old(Value()).(lfWriting := false, rb := [], file := old(file + rb), isOpen := false,
                           lfState := if truncateOk then Good else Error)
        else old(Value())
    {
      hide Joined;
      if !sdStarted {
        return;
      }
      if lfState != Good {
        return;
      }
      lfWriting := false;
      Drain();
      if !truncateOk {
        lfState := Error;
      }
      isOpen := false;
    }

    method Clear()
      modifies this`fileCounter, this`fileBytesCounter, this`rb, this`overflows, this`file, this`isOpen
      modifies this`rotated, this`accepted
      ensures overflows == 0 && !isOpen
      ensures Conserved() && rb == file == [] && rotated == accepted == [] && fileCounter == fileBytesCounter == 0
    {
      fileCounter, fileBytesCounter := 0, 0;
      rb, overflows := [], 0;
      file, isOpen, rotated, accepted := [], false, [], [];
    }

    /** Tries to start the card. */
    method StartCard(sdOk: bool)
      requires Valid() && !lfWriting
      modifies this`rb, this`overflows, this`lfState, this`sdStarted
      ensures Valid() && sdStarted == sdOk && rb == [] && overflows == 0
      ensures lfState == if sdOk then Good else Error
    {
      rb, overflows := [], 0;
      lfState := if sdOk then Good else Error;
      sdStarted := sdOk;
    }

    /** Opens the first file of a log, once the card is there. */
    method Open(nameOk: bool, openOk: bool, allocOk: bool)
      requires Valid() && sdStarted && !lfWriting
      modifies this
      ensures Valid() && sdStarted && Value() == Opened(old(Value()), nameOk, openOk, allocOk)
    {
      hide Joined;
      if !nameOk {
        lfState := Error;
        return;
      }
      Clear();
      if !openOk {
        lfState := Error;
        return;
      }
      isOpen := true;
      if !allocOk {
        lfState := Error;
        return;
      }
      lfWriting := true;
      lfState := Good;
    }

    /** Starts a log with an empty ring.  `sdOk` says whether the card answers, `goesOn`
        whether a failed mxat lets the call go on, `nameOk` whether a name was given or
        made, the others whether the file could be opened and allocated. */
    method Start(sdOk: bool, goesOn: bool, nameOk: bool, openOk: bool, allocOk: bool) returns (halted: bool)
      requires Valid()
      modifies this
      ensures Valid() && sdStarted == (old(sdStarted) || (!old(lfWriting) && sdOk))
      ensures halted <==> !old(lfWriting) && old(sdStarted) && old(lfState) == Error && !goesOn
      ensures !halted && !old(lfWriting) ==> (lfWriting <==> sdStarted && nameOk && openOk && allocOk)
      ensures !old(lfWriting) && lfWriting ==>
        lfState == Good && accepted == [] && file == [] && rb == [] && rotated == [] && overflows == 0
      ensures !halted && !old(lfWriting) && !lfWriting ==> lfState == Error && counter == old(counter)
      ensures !halted && !old(lfWriting) && old(sdStarted) && !nameOk ==> Value() == old(Value()).(lfState := Error)
      ensures !halted && !old(lfWriting) && sdStarted && nameOk ==>
        && accepted == [] && file == [] && rb == [] && rotated == [] && overflows == 0
        && isOpen == openOk && counter == old(counter)
      ensures Value() ==
        if halted || old(lfWriting) then old(Value())
        else if old(sdStarted) then Opened(old(Value()), nameOk, openOk, allocOk)
        else
          var l := old(Value()).(rb := [], overflows := 0, lfState := if sdOk then Good else Error);
          if sdOk then Opened(l, nameOk, openOk, allocOk) else l
    {
      hide Conserved, Core;
      halted := false;
      if lfWriting {
        return;
      }
      if !sdStarted {
        StartCard(sdOk);
        if !sdStarted {
          return;
        }
      }
      if lfState != Good && !goesOn {
        NotInit();
        halted := true;
        return;
      }
      Open(nameOk, openOk, allocOk);
    }

    lemma NotInit()
      requires Valid()
      ensures sdStarted ==> lfState != Init
    {
    }

    /** Any calls in any order keep the log in order; once it is stuck none of them changes
        anything any more. */
    method PerformAll(calls: seq<Call>)
      requires Valid()
      modifies this
      ensures Valid()
      ensures old(Stuck()) ==> Value() == old(Value())
    {
      hide Conserved, Core, Processed;
      for i := 0 to |calls|
        invariant Valid() && (old(Stuck()) ==> Value() == old(Value()))
      {
        match calls[i]
        case LogEntry(entry) => var ret := Put(entry);
        case Run(turns) => Process(turns);
        case StopLog(truncateOk) => Stop(truncateOk);
        case StartLog(sdOk, goesOn, nameOk, openOk, allocOk) =>
          var halted := Start(sdOk, goesOn, nameOk, openOk, allocOk);
          if halted {
            return;
          }
      }
    }
  }

  /** A block queued and written, with nothing else going on. */
  method LogBlock(log: LogFile)
    requires log.Valid() && log.lfWriting && log.lfState == Good && log.rb == []
    requires log.fileBytesCounter < FILE_SIZE2
    modifies log
    ensures log.Valid() && log.lfWriting && log.lfState == Good && log.rb == []
    ensures log.fileBytesCounter == old(log.fileBytesCounter) + TMP_SIZE
  {
    var ret := log.Put(Raw(seq(TMP_SIZE, _ => 0)));
    BlockWrittenKeeps(log.Value(), QUIET);
    log.Process([]);
  }

  /** The block that fills the file, when the next file cannot be allocated. */
  method LogLastBlock(log: LogFile)
    requires log.Valid() && log.lfWriting && log.lfState == Good && log.rb == []
    requires log.fileBytesCounter == FILE_SIZE2
    modifies log
    ensures log.Valid() && log.Stuck()
  {
    hide LogFile.Conserved;
    var ret := log.Put(Raw(seq(TMP_SIZE, _ => 0)));
    BlockWrittenKeeps(log.Value(), Turn([], [], true, true, false));
    log.Process([Turn([], [], true, true, false)]);
  }

  /** One card error while the first file is replaced, and the log is stuck. */
  method GetStuck() returns (log: LogFile)
    ensures fresh(log) && log.Valid() && log.Stuck()
  {
    hide LogFile.Conserved, Opened, Processed;
    log := new LogFile();
    var halted := log.Start(true, true, true, true, true);
    StartedEmpty(log);
    while log.fileBytesCounter < FILE_SIZE2
      invariant log.Valid() && log.lfWriting && log.lfState == Good && log.rb == []
      decreases FILE_SIZE2 - log.fileBytesCounter
    {
      LogBlock(log);
    }
    LogLastBlock(log);
  }

  lemma StartedEmpty(log: LogFile)
    requires log.Valid() && log.file == []
    ensures log.fileBytesCounter == 0
  {
  }
}
