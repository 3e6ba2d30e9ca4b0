/** Ring buffers of the serial port, as values. */
module RingValues {
  /** The slot after `i` in a ring of `n` slots. */
  function Next(i: nat, n: nat): (r: nat)
    requires i < n
    ensures r < n
  {
    if i + 1 >= n then 0 else i + 1
  }

  function Count(head: nat, tail: nat, n: nat): (c: nat)
    requires head < n && tail < n
    ensures c < n
  {
    if head >= tail then head - tail else n + head - tail
  }

  /** What the ring holds, oldest first: the slots behind `tail` up to and including `head`. */
  function Contents(slots: seq<int>, head: nat, tail: nat): (r: seq<int>)
    requires head < |slots| && tail < |slots|
    ensures |r| == Count(head, tail, |slots|)
  {
    if head >= tail then slots[tail+1..head+1] else slots[tail+1..] + slots[..head+1]
  }

  lemma Pushed(slots: seq<int>, head: nat, tail: nat, x: int)
    requires head < |slots| && tail < |slots| && Next(head, |slots|) != tail
    ensures Contents(slots[Next(head, |slots|) := x], Next(head, |slots|), tail) == Contents(slots, head, tail) + [x]
  {
  }

  lemma Popped(slots: seq<int>, head: nat, tail: nat)
    requires head < |slots| && tail < |slots| && head != tail
    ensures Contents(slots, head, tail)[0] == slots[Next(tail, |slots|)]
    ensures Contents(slots, head, Next(tail, |slots|)) == Contents(slots, head, tail)[1..]
  {
  }

  /** The test the code makes before it stores: the ring is full with one slot to spare. */
  lemma FullIff(head: nat, tail: nat, n: nat)
    requires head < n && tail < n
    ensures Next(head, n) == tail <==> Count(head, tail, n) == n - 1
  {
  }

  /** A slot outside the contents can be overwritten. */
  lemma Overwritten(slots: seq<int>, head: nat, tail: nat, x: int)
    requires head < |slots| && tail < |slots| && Next(head, |slots|) != tail
    ensures Contents(slots[Next(head, |slots|) := x], head, tail) == Contents(slots, head, tail)
  {
  }
}

/** The streams of a serial port as values: what arrivals and interrupts do to them. */
module SerialStreams {
  const FIFO_WORDS := 4

  /** What can happen while interrupts are enabled. */
  datatype Event =
    | Arrive(word: int)        // the hardware receives a word
    | Interrupt(room: nat)     // the handler runs; the transmit FIFO takes up to `room` words more

  datatype Option<T> = None | Some(value: T)

  /** A word taken out of the receive FIFO while `waiting` words were in the ring. */
  datatype Word = Word(value: int, waiting: nat, stored: bool)

  /** What waits in the FIFO, in the receive ring and in the transmit ring, and all that was
      received, taken out of the FIFO and sent so far. */
  datatype Port = Port(fifo: seq<int>, held: seq<int>, received: seq<int>, handled: seq<Word>,
                       queued: seq<int>, sent: seq<int>)

  /** The values of all words taken out of the receive FIFO, and of those not dropped. */
  function Values(words: seq<Word>): seq<int> {
    if words == [] then [] else Values(words[..|words|-1]) + [words[|words|-1].value]
  }

  function Kept(words: seq<Word>): seq<int> {
    if words == [] then []
    else Kept(words[..|words|-1]) + if words[|words|-1].stored then [words[|words|-1].value] else []
  }

  lemma Handled(words: seq<Word>, w: Word)
    ensures Values(words + [w]) == Values(words) + [w.value]
    ensures Kept(words + [w]) == Kept(words) + if w.stored then [w.value] else []
  {
    assert (words + [w])[..|words|] == words;
  }

  function Smaller(a: nat, b: nat): nat {
    if a < b then a else b
  }

  lemma FirstMoved(a: seq<int>, b: seq<int>)
    requires b != []
    ensures a + b == a + [b[0]] + b[1..]
  {
  }

  lemma Associative(a: seq<int>, b: seq<int>, c: seq<int>)
    ensures a + b + c == a + (b + c)
  {
  }

  /** A word is dropped exactly when it finds `room` words in the ring. */
  predicate DropsWhenFull(words: seq<Word>, room: nat) {
    forall w :: w in words ==> (w.stored <==> w.waiting < room)
  }

  /** Every word received is in the FIFO, dropped from a full ring, in the ring, or taken. */
  ghost predicate Streams(received: seq<int>, handled: seq<Word>, fifo: seq<int>, taken: seq<int>, held: seq<int>,
                          room: nat)
  {
    && received == Values(handled) + fifo
    && taken + held == Kept(handled)
    && DropsWhenFull(handled, room)
  }

  lemma StreamsArrived(received: seq<int>, handled: seq<Word>, fifo: seq<int>, taken: seq<int>, held: seq<int>,
                       room: nat, word: int)
    requires Streams(received, handled, fifo, taken, held, room)
    ensures Streams(received + [word], handled, fifo + [word], taken, held, room)
  {
    Associative(Values(handled), fifo, [word]);
  }

  lemma StreamsReceived(received: seq<int>, handled: seq<Word>, fifo: seq<int>, taken: seq<int>, held: seq<int>,
                        room: nat)
    requires Streams(received, handled, fifo, taken, held, room) && fifo != []
    ensures var w := Word(fifo[0], |held|, |held| < room);
      Streams(received, handled + [w], fifo[1..], taken, held + if w.stored then [w.value] else [], room)
  {
    var w := Word(fifo[0], |held|, |held| < room);
    FirstMoved(Values(handled), fifo);
    Handled(handled, w);
    Associative(taken, held, if w.stored then [w.value] else []);
  }

  lemma StreamsTaken(received: seq<int>, handled: seq<Word>, fifo: seq<int>, taken: seq<int>, held: seq<int>,
                     room: nat)
    requires Streams(received, handled, fifo, taken, held, room) && held != []
    ensures Streams(received, handled, fifo, taken + [held[0]], held[1..], room)
  {
    FirstMoved(taken, held);
  }

  /** The hardware receives a word; its FIFO takes four. */
  function Arrived(p: Port, word: int): Port {
    if |p.fifo| < FIFO_WORDS then p.(fifo := p.fifo + [word], received := p.received + [word]) else p
  }

  /** The first word of the FIFO goes to a ring that takes `room` words. */
  function OneReceived(p: Port, room: nat): Port
    requires p.fifo != []
  {
    var stored := |p.held| < room;
    p.(fifo := p.fifo[1..], held := p.held + if stored then [p.fifo[0]] else [],
       handled := p.handled + [Word(p.fifo[0], |p.held|, stored)])
  }

  function AllReceived(p: Port, room: nat): Port
    decreases |p.fifo|
  {
    if p.fifo == [] then p else AllReceived(OneReceived(p, room), room)
  }

  function Sent(p: Port, n: nat): Port {
    var k := Smaller(n, |p.queued|);
    p.(queued := p.queued[k..], sent := p.sent + p.queued[..k])
  }

  function Step(p: Port, room: nat, e: Event): Port {
    match e
    case Arrive(word) => Arrived(p, word)
    case Interrupt(n) => Sent(AllReceived(p, room), n)
  }

  /** The port after some arrivals and interrupts. */
  function After(p: Port, room: nat, events: seq<Event>): Port {
    if events == [] then p
    else Step(After(p, room, events[..|events|-1]), room, events[|events|-1])
  }

  lemma AfterOneMore(p: Port, room: nat, events: seq<Event>, k: nat)
    requires k < |events|
    ensures After(p, room, events[..k + 1]) == Step(After(p, room, events[..k]), room, events[k])
  {
    assert events[..k + 1][..k] == events[..k];
  }

  /** What no arrival and no interrupt changes: the words are received once each and in
      order, they stay in the ring unless they were dropped, they are dropped only when the
      ring is full, and what waits to be sent is sent in order. */
  ghost predicate Follows(p: Port, q: Port, room: nat) {
    && p.received <= q.received
    && p.handled <= q.handled
    && Values(p.handled) + p.fifo + q.received[|p.received|..] == Values(q.handled) + q.fifo
    && q.held == p.held + Kept(q.handled[|p.handled|..])
    && DropsWhenFull(q.handled[|p.handled|..], room)
    && q.sent + q.queued == p.sent + p.queued
    && p.sent <= q.sent
  }

  lemma FollowsOneReceived(p: Port, q: Port, room: nat)
    requires Follows(p, q, room) && q.fifo != []
    ensures Follows(p, OneReceived(q, room), room)
  {
    var w := Word(q.fifo[0], |q.held|, |q.held| < room);
    var more := q.handled[|p.handled|..];
    assert (q.handled + [w])[|p.handled|..] == more + [w];
    Handled(q.handled, w);
    Handled(more, w);
    FirstMoved(Values(q.handled), q.fifo);
    Associative(p.held, Kept(more), if w.stored then [w.value] else []);
  }

  lemma {:induction false} FollowsAllReceived(p: Port, q: Port, room: nat)
    requires Follows(p, q, room)
    ensures Follows(p, AllReceived(q, room), room)
    decreases |q.fifo|
  {
    if q.fifo != [] {
      FollowsOneReceived(p, q, room);
      FollowsAllReceived(p, OneReceived(q, room), room);
    }
  }

  lemma FollowsArrived(p: Port, q: Port, room: nat, word: int)
    requires Follows(p, q, room)
    ensures Follows(p, Arrived(q, word), room)
  {
    assert (q.received + [word])[|p.received|..] == q.received[|p.received|..] + [word];
    Associative(Values(p.handled) + p.fifo, q.received[|p.received|..], [word]);
    Associative(Values(q.handled), q.fifo, [word]);
  }

  lemma FollowsSent(p: Port, q: Port, room: nat, n: nat)
    requires Follows(p, q, room)
    ensures Follows(p, Sent(q, n), room)
  {
    var k := Smaller(n, |q.queued|);
    Associative(q.sent, q.queued[..k], q.queued[k..]);
    assert q.queued[..k] + q.queued[k..] == q.queued;
  }

  /** Any run of arrivals and interrupts keeps both streams. */
  lemma {:induction false} RunFollows(p: Port, room: nat, events: seq<Event>)
    ensures Follows(p, After(p, room, events), room)
  {
    if events == [] {
      assert p.handled[|p.handled|..] == [] && p.received[|p.received|..] == [];
    } else {
      var q := After(p, room, events[..|events|-1]);
      RunFollows(p, room, events[..|events|-1]);
      match events[|events|-1]
      case Arrive(word) => FollowsArrived(p, q, room, word);
      case Interrupt(n) =>
        FollowsAllReceived(p, q, room);
        FollowsSent(p, AllReceived(q, room), room, n);
    }
  }

  /** One interrupt takes as much of the FIFO as the ring has room for and drops the rest. */
  lemma {:induction false} AllReceivedIs(p: Port, room: nat)
    requires |p.held| <= room
    ensures var q := AllReceived(p, room);
      && q.fifo == []
      && q.held == p.held + p.fifo[..Smaller(|p.fifo|, room - |p.held|)]
      && q == p.(fifo := q.fifo, held := q.held, handled := q.handled)
    decreases |p.fifo|
  {
    if p.fifo == [] {
      assert p.held + [] == p.held;
    } else {
      AllReceivedIs(OneReceived(p, room), room);
      if |p.held| < room {
        var k := Smaller(|p.fifo| - 1, room - |p.held| - 1);
        Associative(p.held, [p.fifo[0]], p.fifo[1..][..k]);
        assert [p.fifo[0]] + p.fifo[1..][..k] == p.fifo[..k + 1];
      }
    }
  }

  /** How many words the transmit FIFO takes during some events. */
  function TotalRoom(events: seq<Event>): nat {
    if events == [] then 0
    else
      TotalRoom(events[..|events|-1])
        + match events[|events|-1]
          case Arrive(_) => 0
          case Interrupt(n) => n
  }

  /** Exactly that many words are sent, the oldest first, if there are so many. */
  lemma {:induction false} AfterTransmits(p: Port, room: nat, events: seq<Event>)
    ensures var q, k := After(p, room, events), Smaller(TotalRoom(events), |p.queued|);
      q.sent == p.sent + p.queued[..k] && q.queued == p.queued[k..]
  {
    if events == [] {
      assert p.queued[0..] == p.queued && p.sent + p.queued[..0] == p.sent;
    } else {
      hide AllReceived;
      var before, e := events[..|events|-1], events[|events|-1];
      var q, k := After(p, room, before), Smaller(TotalRoom(before), |p.queued|);
      AfterTransmits(p, room, before);
      KeepsTransmit(q, room);
      if e.Interrupt? {
        SentOn(p.sent, p.queued, k, Smaller(e.room, |q.queued|));
      }
    }
  }

  lemma SentOn(sent: seq<int>, queued: seq<int>, k: nat, m: nat)
    requires k + m <= |queued|
    ensures sent + queued[..k] + queued[k..][..m] == sent + queued[..k + m]
    ensures queued[k..][m..] == queued[k + m..]
  {
    Associative(sent, queued[..k], queued[k..][..m]);
    assert queued[..k] + queued[k..][..m] == queued[..k + m];
  }

  lemma {:induction false} KeepsTransmit(p: Port, room: nat)
    ensures AllReceived(p, room).sent == p.sent && AllReceived(p, room).queued == p.queued
    decreases |p.fifo|
  {
    if p.fifo != [] {
      KeepsTransmit(OneReceived(p, room), room);
    }
  }

  /** A word that arrives is lost exactly when four words wait in the FIFO. */
  lemma {:induction false} FifoHoldsFour(p: Port, room: nat, events: seq<Event>, word: int)
    requires |p.fifo| <= 4
    ensures var q := After(p, room, events);
      && |q.fifo| <= 4
      && Arrived(q, word).received == q.received + (if |q.fifo| == 4 then [] else [word])
      && Arrived(q, word).fifo == q.fifo + (if |q.fifo| == 4 then [] else [word])
  {
    if events != [] {
      FifoHoldsFour(p, room, events[..|events|-1], word);
      FifoEmptied(After(p, room, events[..|events|-1]), room);
    }
  }

  lemma {:induction false} FifoEmptied(p: Port, room: nat)
    ensures AllReceived(p, room).fifo == []
    decreases |p.fifo|
  {
    if p.fifo != [] {
      FifoEmptied(OneReceived(p, room), room);
    }
  }

  /** A turn of the loop that waits for room to write: what happens meanwhile, or None for
      a word sent from the loop itself. */
  function Turn(p: Port, room: nat, wait: Option<seq<Event>>): Port {
    match wait
    case Some(events) => After(p, room, events)
    case None => Sent(p, 1)
  }

  /** The port when a write has waited for one of the `txRoom` places of the transmit ring,
      or when `waits` is used up. */
  function Waited(p: Port, room: nat, txRoom: nat, waits: seq<Option<seq<Event>>>): Port
    decreases |waits|
  {
    if |p.queued| < txRoom || waits == [] then p else Waited(Turn(p, room, waits[0]), room, txRoom, waits[1..])
  }
}

/** When a call that waits for room to write is done waiting. */
module SerialWaits {
  import opened SerialStreams

  /** A turn after which the transmit ring has room: a word is sent from the loop itself, or
      an interrupt finds the transmit FIFO ready to take one. */
  predicate MakesRoom(wait: Option<seq<Event>>) {
    wait.None? || exists e :: e in wait.value && e.Interrupt? && e.room > 0
  }

  /** The first such turn. */
  function FirstRoom(waits: seq<Option<seq<Event>>>): (i: nat)
    ensures i <= |waits|
    ensures i < |waits| ==> MakesRoom(waits[i])
    ensures forall j :: 0 <= j < i ==> !MakesRoom(waits[j])
  {
    if waits == [] || MakesRoom(waits[0]) then 0 else 1 + FirstRoom(waits[1..])
  }

  /** How many words a turn sends. */
  function Places(wait: Option<seq<Event>>): nat {
    if wait.None? then 1 else TotalRoom(wait.value)
  }

  lemma {:induction false} PlacesIff(events: seq<Event>)
    ensures TotalRoom(events) > 0 <==> exists e :: e in events && e.Interrupt? && e.room > 0
  {
    if events != [] {
      var before, last := events[..|events|-1], events[|events|-1];
      PlacesIff(before);
      assert events == before + [last];
      if TotalRoom(events) > 0 {
        var e :| e in events && e.Interrupt? && e.room > 0;
      }
    }
  }

  /** A turn sends that many words, the oldest first. */
  lemma TurnTransmits(p: Port, room: nat, wait: Option<seq<Event>>)
    ensures var q, k := Turn(p, room, wait), Smaller(Places(wait), |p.queued|);
      q.sent == p.sent + p.queued[..k] && q.queued == p.queued[k..]
    ensures MakesRoom(wait) <==> Places(wait) > 0
  {
    if wait.Some? {
      AfterTransmits(p, room, wait.value);
      PlacesIff(wait.value);
    }
  }

  /** With a full ring a call waits through exactly the turns up to the first one that makes
      room, and what is sent meanwhile is what that turn sends. */
  lemma {:induction false} WaitedIs(p: Port, room: nat, txRoom: nat, waits: seq<Option<seq<Event>>>)
    requires |p.queued| == txRoom > 0
    ensures var q, i := Waited(p, room, txRoom, waits), FirstRoom(waits);
      var k := if i < |waits| then Smaller(Places(waits[i]), txRoom) else 0;
      && q.sent == p.sent + p.queued[..k] && q.queued == p.queued[k..]
      && (|q.queued| < txRoom <==> exists j :: 0 <= j < |waits| && MakesRoom(waits[j]))
    decreases |waits|
  {
    if waits != [] {
      TurnTransmits(p, room, waits[0]);
      var q := Turn(p, room, waits[0]);
      if MakesRoom(waits[0]) {
        assert Waited(q, room, txRoom, waits[1..]) == q;
      } else {
        assert q.queued == p.queued && q.sent == p.sent;
        WaitedIs(q, room, txRoom, waits[1..]);
        assert FirstRoom(waits) == 1 + FirstRoom(waits[1..]);
        if j :| 0 <= j < |waits| && MakesRoom(waits[j]) {
          assert MakesRoom(waits[1..][j - 1]);
        }
        if j :| 0 <= j < |waits[1..]| && MakesRoom(waits[1..][j]) {
          assert MakesRoom(waits[j + 1]);
        }
      }
    }
  }
}

/** The receive and transmit paths of a serial port, with its interrupt handler running
    wherever interrupts are enabled. */
module SerialPort {
  import opened RingValues
  import opened SerialStreams
  import opened SerialWaits

  /** One ring: its slots are spread over a fixed buffer and memory added later. */
  class Ring {
    const buffer: array<int>
    const storage: array<int>
    var head: nat
    var tail: nat

    ghost predicate Valid()
      reads this
    {
      buffer != storage && 2 <= buffer.Length && head < Size() && tail < Size()
    }

    function Size(): nat {
      buffer.Length + storage.Length
    }

    ghost function Slots(): seq<int>
      reads buffer, storage
    {
      buffer[..] + storage[..]
    }

    ghost function Held(): seq<int>
      requires Valid()
      reads this, buffer, storage
    {
      Contents(Slots(), head, tail)
    }

    constructor (size: nat, added: nat)
      requires size >= 2
      ensures Valid() && head == tail && fresh(buffer) && fresh(storage)
      ensures Size() == size + added && Held() == []
    {
      buffer := new int[size](_ => 0);
      storage := new int[added](_ => 0);
      head, tail := 0, 0;
    }

    method Get(i: nat) returns (x: int)
      requires Valid() && i < Size()
      ensures x == Slots()[i]
    {
      if i < buffer.Length {
        x := buffer[i];
      } else {
        x := storage[i - buffer.Length];
      }
    }

    method Put(i: nat, x: int)
      requires Valid() && i < Size()
      modifies buffer, storage
      ensures Slots() == old(Slots())[i := x]
    {
      if i < buffer.Length {
        buffer[i] := x;
      } else {
        storage[i - buffer.Length] := x;
      }
    }

    /** Stores a word unless that would make the ring look empty. */
    method Store(x: int) returns (stored: bool)
      requires Valid()
      modifies this`head, buffer, storage
      ensures Valid() && (stored <==> old(|Held()|) < Size() - 1)
      ensures Held() == old(Held()) + if stored then [x] else []
    {
      FullIff(head, tail, Size());
      var newhead := if head + 1 >= Size() then 0 else head + 1;
      stored := newhead != tail;
      if stored {
        Pushed(Slots(), head, tail, x);
        head := newhead;
        Put(head, x);
      }
    }

    /** Takes the oldest word out of a ring that is not empty. */
    method Take() returns (x: int)
      requires Valid() && head != tail
      modifies this`tail
      ensures Valid() && x == old(Held()[0]) && Held() == old(Held())[1..]
    {
      var next := if tail + 1 >= Size() then 0 else tail + 1;
      x := Get(next);
      Popped(Slots(), head, tail);
      tail := next;
    }
  }

  class HardwareSerial {
    const rx: Ring
    const tx: Ring
    /** The hardware receive FIFO. */
    var fifo: seq<int>
    /** Everything the hardware received, and what became of the words the code took from it. */
    ghost var received: seq<int>
    ghost var handled: seq<Word>
    /** What calls of read have returned, what calls of write were given, and what was sent. */
    ghost var taken: seq<int>
    ghost var written: seq<int>
    ghost var sent: seq<int>

    ghost predicate Apart()
    {
      rx != tx && {rx.buffer, rx.storage} !! {tx.buffer, tx.storage}
    }

    ghost predicate RxOk()
      reads this`fifo, this`received, this`handled, this`taken, rx, rx.buffer, rx.storage
    {
      && rx.Valid()
      && Streams(received, handled, fifo, taken, rx.Held(), rx.Size() - 1)
    }

    ghost predicate TxOk()
      reads this`sent, this`written, tx, tx.buffer, tx.storage
    {
      tx.Valid() && sent + tx.Held() == written
    }

    ghost predicate Valid()
      reads this, rx, rx.buffer, rx.storage, tx, tx.buffer, tx.storage
    {
      Apart() && RxOk() && TxOk()
    }

    /** The words each ring takes. */
    ghost function RxRoom(): nat
      requires rx.Valid()
      reads rx
    {
      rx.Size() - 1
    }

    ghost function TxRoom(): nat
      requires tx.Valid()
      reads tx
    {
      tx.Size() - 1
    }

    /** The port as a value. */
    ghost function State(): Port
      requires rx.Valid() && tx.Valid()
      reads this, rx, rx.buffer, rx.storage, tx, tx.buffer, tx.storage
    {
      Port(fifo, rx.Held(), received, handled, tx.Held(), sent)
    }

    constructor (rxSize: nat, rxAdded: nat, txSize: nat, txAdded: nat)
      requires rxSize >= 2 && txSize >= 2
      ensures Valid() && received == taken == written == sent == []
      ensures fresh(rx) && fresh(rx.buffer) && fresh(rx.storage) && fresh(tx) && fresh(tx.buffer) && fresh(tx.storage)
    {
      rx := new Ring(rxSize, rxAdded);
      tx := new Ring(txSize, txAdded);
      fifo, received, handled, taken, written, sent := [], [], [], [], [], [];
    }

    // ---------- the interrupt handler ----------

    /** Takes one word from the FIFO into the ring, or drops it when the ring is full. */
    method ReceiveOne()
      requires Valid() && fifo != []
      modifies this`fifo, this`handled, rx`head, rx.buffer, rx.storage
      ensures Valid() && State() == OneReceived(old(State()), RxRoom())
    {
      hide Contents, Streams;
      StreamsReceived(received, handled, fifo, taken, rx.Held(), RxRoom());
      ghost var waiting := |rx.Held()|;
      var n := fifo[0];
      fifo := fifo[1..];
      var stored := rx.Store(n);
      handled := handled + [Word(n, waiting, stored)];
    }

    /** Sends the oldest word of the transmit ring to the port. */
    method SendOne()
      requires TxOk() && tx.head != tx.tail
      modifies this`sent, tx`tail
      ensures TxOk() && sent == old(sent) + [old(tx.Held()[0])]
      ensures tx.Held() == old(tx.Held())[1..]
    {
      var n := tx.Take();
      sent := sent + [n];
    }

    method ReceiveAll()
      requires Valid()
      modifies this`fifo, this`handled, rx`head, rx.buffer, rx.storage
      ensures Valid() && State() == AllReceived(old(State()), RxRoom())
    {
      hide Contents, Streams;
      var avail := |fifo|;
      while avail > 0
        invariant Valid() && avail == |fifo|
        invariant AllReceived(State(), RxRoom()) == AllReceived(old(State()), RxRoom())
      {
        ReceiveOne();
        avail := avail - 1;
      }
    }

    method SendSome(room: nat)
      requires TxOk()
      modifies this`sent, tx`tail
      ensures TxOk() && tx.Held() == old(tx.Held())[Smaller(room, old(|tx.Held()|))..]
      ensures sent == old(sent) + old(tx.Held())[..Smaller(room, old(|tx.Held()|))]
    {
      hide Contents;
      var k := 0;
      while k < room && tx.head != tx.tail
        invariant TxOk() && k <= room && k <= old(|tx.Held()|) && tx.Held() == old(tx.Held())[k..]
        invariant sent == old(sent) + old(tx.Held())[..k]
      {
        SendOne();
        k := k + 1;
      }
    }

    /** One interrupt: the receive part, then the transmit part. */
    method IRQHandler(room: nat)
      requires Valid()
      modifies this`fifo, this`handled, this`sent, rx`head, rx.buffer, rx.storage, tx`tail
      ensures Valid() && fifo == [] && State() == Step(old(State()), RxRoom(), Interrupt(room))
      ensures rx.Held() == old(rx.Held()) + old(fifo)[..Smaller(old(|fifo|), RxRoom() - old(|rx.Held()|))]
      ensures sent == old(sent) + old(tx.Held())[..Smaller(room, old(|tx.Held()|))]
    {
      hide Contents, Streams;
      AllReceivedIs(State(), RxRoom());
      if fifo != [] {
        ReceiveAll();
      }
      SendSome(room);
    }

    /** Any sequence of arrivals and interrupts. */
    method Interrupts(events: seq<Event>)
      requires Valid()
      modifies this`fifo, this`received, this`handled, this`sent, rx`head, rx.buffer, rx.storage, tx`tail
      ensures Valid() && State() == After(old(State()), RxRoom(), events)
      ensures Follows(old(State()), State(), RxRoom())
    {
      hide Contents, Streams;
      for i := 0 to |events|
        invariant Valid() && State() == After(old(State()), RxRoom(), events[..i])
      {
        AfterOneMore(old(State()), RxRoom(), events, i);
        match events[i]
        case Arrive(word) =>
          if |fifo| < FIFO_WORDS {
            StreamsArrived(received, handled, fifo, taken, rx.Held(), RxRoom(), word);
            received := received + [word];
            fifo := fifo + [word];
          }
        case Interrupt(room) => IRQHandler(room);
      }
      assert events[..|events|] == events;
      RunFollows(old(State()), RxRoom(), events);
    }

    // ---------- the calls of the program ----------

    method Available() returns (avail: nat)
      requires Valid()
      ensures avail == |rx.Held()| + |fifo|
    {
      var head, tail := rx.head, rx.tail;
      avail := if head >= tail then head - tail else rx.Size() + head - tail;
      avail := avail + |fifo|;
    }

    /** Takes the oldest word straight out of the FIFO while the ring is empty. */
    method TakeFromFifo() returns (c: int)
      requires Valid() && rx.head == rx.tail && fifo != []
      modifies this`fifo, this`handled, this`taken
      ensures Valid() && c == old(fifo[0]) && taken == old(taken) + [c]
      ensures State() == OneReceived(old(State()), RxRoom()).(held := [])
    {
      hide Streams;
      StreamsReceived(received, handled, fifo, taken, [], RxRoom());
      StreamsTaken(received, handled + [Word(fifo[0], 0, true)], fifo[1..], taken, [] + [fifo[0]], RxRoom());
      c := fifo[0];
      fifo := fifo[1..];
      handled := handled + [Word(c, 0, true)];
      taken := taken + [c];
    }

    method OldestAt(tail: nat) returns (c: int)
      requires rx.Valid() && rx.head != rx.tail && tail == Next(rx.tail, rx.Size())
      ensures c == rx.Held()[0]
    {
      Popped(rx.Slots(), rx.head, rx.tail);
      c := rx.Get(tail);
    }

    /** Storing the tail is the moment a word leaves the ring. */
    method StoreTail(tail: nat, c: int)
      requires Valid() && rx.head != rx.tail && tail == Next(rx.tail, rx.Size()) && c == rx.Held()[0]
      modifies this`taken, rx`tail
      ensures Valid() && taken == old(taken) + [c]
      ensures State() == old(State()).(held := rx.Held()) && old(rx.Held()) == [c] + rx.Held()
    {
      hide Streams;
      Popped(rx.Slots(), rx.head, rx.tail);
      StreamsTaken(received, handled, fifo, taken, rx.Held(), RxRoom());
      taken := taken + [c];
      rx.tail := tail;
    }

    /** The part of read() that takes a word from the ring: the slot is read and the tail
        stored in separate steps. */
    method ReadRing(e1: seq<Event>, e2: seq<Event>) returns (c: int)
      requires Valid() && rx.head != rx.tail
      modifies this`fifo, this`received, this`handled, this`sent, this`taken
      modifies rx`head, rx`tail, rx.buffer, rx.storage, tx`tail
      ensures Valid() && c == old(rx.Held()[0]) && taken == old(taken) + [c]
      ensures var r := After(After(old(State()), RxRoom(), e1), RxRoom(), e2);
        State() == r.(held := rx.Held()) && r.held == [c] + rx.Held()
    {
      hide After, Streams, Contents;
      Interrupts(e1);
      var tail := if rx.tail + 1 >= rx.Size() then 0 else rx.tail + 1;
      c := OldestAt(tail);
      Interrupts(e2);
      StoreTail(tail, c);
    }

    /** read(), with the interrupts that come between its loads and stores. */
    method Read(e0: seq<Event>, e1: seq<Event>, e2: seq<Event>) returns (c: int)
      requires Valid()
      modifies this`fifo, this`received, this`handled, this`sent, this`taken
      modifies rx`head, rx`tail, rx.buffer, rx.storage, tx`tail
      ensures Valid()
      ensures var q := After(old(State()), RxRoom(), e0);
        if q.held != [] then
          var r := After(After(q, RxRoom(), e1), RxRoom(), e2);
          && c == q.held[0] && taken == old(taken) + [c]
          && State() == r.(held := rx.Held()) && r.held == [c] + rx.Held()
        else if q.fifo != [] then
          && c == q.fifo[0] && taken == old(taken) + [c]
          && State() == OneReceived(q, RxRoom()).(held := [])
        else
          c == -1 && taken == old(taken) && State() == q
      ensures old(rx.Held()) != [] ==> c == old(rx.Held()[0])
    {
      hide After, Streams, Contents;
      var head := rx.head;
      Interrupts(e0);
      var tail := rx.tail;
      if head == tail {
        head := rx.head;
        if head == tail {
          c := -1;
          if fifo != [] {
            c := TakeFromFifo();
          }
          return;
        }
      }
      c := ReadRing(e1, e2);
    }

    /** Puts the oldest word of the FIFO into the empty ring, at its first slots. */
    method MoveToRing() returns (c: int)
      requires Valid() && rx.head == rx.tail && fifo != []
      modifies this`fifo, this`handled, rx`head, rx`tail, rx.buffer
      ensures Valid() && c == old(fifo[0])
      ensures rx.Held() == [c] && State() == OneReceived(old(State()), RxRoom())
    {
      hide Streams;
      StreamsReceived(received, handled, fifo, taken, [], RxRoom());
      c := fifo[0];
      assert [] + [c] == [c];
      fifo := fifo[1..];
      handled := handled + [Word(c, 0, true)];
      rx.head := 1;
      rx.tail := 0;
      rx.buffer[1] := c;
      assert rx.Held() == [c];
    }

    /** The part of peek() that shows a word of the ring. */
    method PeekRing(tail: nat, e1: seq<Event>) returns (c: int)
      requires Valid() && rx.head != rx.tail && tail == rx.tail
      modifies this`fifo, this`received, this`handled, this`sent, rx`head, rx.buffer, rx.storage, tx`tail
      ensures Valid() && State() == After(old(State()), RxRoom(), e1)
      ensures rx.Held() != [] && c == rx.Held()[0] == old(rx.Held()[0]) && old(rx.Held()) <= rx.Held()
    {
      hide After, Streams, Contents;
      Interrupts(e1);
      var next := if tail + 1 >= rx.Size() then 0 else tail + 1;
      c := OldestAt(next);
    }

    /** peek(): shows the next word and takes nothing from the stream. */
    method Peek(e0: seq<Event>, e1: seq<Event>) returns (c: int)
      requires Valid()
      modifies this`fifo, this`received, this`handled, this`sent, rx`head, rx`tail, rx.buffer, rx.storage, tx`tail
      ensures Valid()
      ensures var q := After(old(State()), RxRoom(), e0);
        if q.held != [] then c == q.held[0] && State() == After(q, RxRoom(), e1)
        else if q.fifo != [] then c == q.fifo[0] && State() == OneReceived(q, RxRoom())
        else c == -1 && State() == q
      ensures if rx.Held() == [] then c == -1 && fifo == [] else c == rx.Held()[0]
      ensures old(rx.Held()) <= rx.Held()
    {
      hide After, Streams, Contents;
      var head := rx.head;
      Interrupts(e0);
      var tail := rx.tail;
      if head == tail {
        head := rx.head;
        if head == tail {
          c := -1;
          if fifo != [] {
            c := MoveToRing();
          }
          return;
        }
      }
      c := PeekRing(tail, e1);
    }

    /** Storing the head is the moment a written word enters the ring. */
    method StoreHead(head: nat, c: int)
      requires Valid() && head == Next(tx.head, tx.Size()) && head != tx.tail && tx.Slots()[head] == c
      modifies this`written, tx`head
      ensures Valid() && written == old(written) + [c]
      ensures State() == old(State()).(queued := old(tx.Held()) + [c])
    {
      assert tx.Slots()[head := c] == tx.Slots();
      Pushed(tx.Slots(), tx.head, tx.tail, c);
      Associative(sent, tx.Held(), [c]);
      written := written + [c];
      tx.head := head;
    }

    /** Stores a word in the free slot behind the head, where nothing is read yet. */
    method FillSlot(head: nat, c: int)
      requires Valid() && head == Next(tx.head, tx.Size()) && head != tx.tail
      modifies tx.buffer, tx.storage
      ensures Valid() && tx.Slots()[head] == c && State() == old(State())
    {
      Overwritten(tx.Slots(), tx.head, tx.tail, c);
      tx.Put(head, c);
    }

    /** One turn of the loop that waits for room. */
    method WaitTurn(wait: Option<seq<Event>>)
      requires Valid() && tx.head != tx.tail
      modifies this`fifo, this`received, this`handled, this`sent, rx`head, rx.buffer, rx.storage, tx`tail
      ensures Valid() && State() == Turn(old(State()), RxRoom(), wait)
    {
      match wait
      case Some(events) => Interrupts(events);
      case None => SendOne();
    }

    /** Waits while the ring is full.  Each element of `waits` is what happens during one
        turn of the waiting loop, None standing for a word sent from the loop itself; the
        call is still waiting when they are used up. */
    method WaitForRoom(head: nat, waits: seq<Option<seq<Event>>>) returns (room: bool)
      requires Valid() && head == Next(tx.head, tx.Size())
      modifies this`fifo, this`received, this`handled, this`sent, rx`head, rx.buffer, rx.storage, tx`tail
      ensures Valid() && State() == Waited(old(State()), RxRoom(), TxRoom(), waits)
      ensures room <==> tx.tail != head
      ensures room <==> |State().queued| < TxRoom()
      ensures old(|tx.Held()|) < TxRoom() ==> room
      ensures old(|tx.Held()|) == TxRoom() ==>
        var i := FirstRoom(waits);
        && (room <==> exists j :: 0 <= j < |waits| && MakesRoom(waits[j]))
        && sent == old(sent) + old(tx.Held())[..if i < |waits| then Smaller(Places(waits[i]), TxRoom()) else 0]
    {
      hide Contents, Streams, After, Turn;
      ghost var before := State();
      if |before.queued| == TxRoom() {
        WaitedIs(before, RxRoom(), TxRoom(), waits);
      }
      var i := 0;
      FullIff(tx.head, tx.tail, tx.Size());
      while tx.tail == head
        invariant Valid() && i <= |waits|
        invariant tx.tail == head <==> |State().queued| == TxRoom()
        invariant Waited(State(), RxRoom(), TxRoom(), waits[i..])
          == Waited(old(State()), RxRoom(), TxRoom(), waits)
        decreases |waits| - i
      {
        if i == |waits| {
          return false;
        }
        WaitTurn(waits[i]);
        i := i + 1;
        FullIff(tx.head, tx.tail, tx.Size());
      }
      room := true;
    }

    /** write() */
    method Write(c: int, waits: seq<Option<seq<Event>>>, e: seq<Event>) returns (done: bool)
      requires Valid()
      modifies this`fifo, this`received, this`handled, this`sent, this`written
      modifies rx`head, rx.buffer, rx.storage, tx`head, tx`tail, tx.buffer, tx.storage
      ensures Valid()
      ensures written == if done then old(written) + [c] else old(written)
      ensures var q := Waited(old(State()), RxRoom(), TxRoom(), waits);
        && (done <==> |q.queued| < TxRoom())
        && if done then var r := After(q, RxRoom(), e); State() == r.(queued := r.queued + [c])
           else State() == q
      ensures old(|tx.Held()|) < TxRoom() ==> done
      ensures old(|tx.Held()|) == TxRoom() ==> (done <==> exists j :: 0 <= j < |waits| && MakesRoom(waits[j]))
      ensures old(|tx.Held()|) == TxRoom() && |waits| > 0 && waits[0] == None ==>
        done && old(sent) + [old(tx.Held())[0]] <= sent
    {
      hide Contents, Streams, After, Waited, Turn;
      var head := if tx.head + 1 >= tx.Size() then 0 else tx.head + 1;
      done := WaitForRoom(head, waits);
      if done {
        FillSlot(head, c);
        Interrupts(e);
        FullIff(tx.head, tx.tail, tx.Size());
        StoreHead(head, c);
      }
    }
  }
}
