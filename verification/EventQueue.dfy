/** Doubly linked queues of event responders, as values: a table of all responders whose
    links are their numbers. */
module QueueLinks {
  import opened Sequences

  const NULL := -1

  datatype Kind = Detached | Yield | Immediate | Interrupt

  /** The fields of one EventResponder that matter to the queues. */
  datatype Responder = Responder(kind: Kind, triggered: bool, next: int, prev: int)

  function At(s: seq<nat>, i: int): int {
    if 0 <= i < |s| then s[i] else NULL
  }

  predicate LinkedAt(table: seq<Responder>, s: seq<nat>, i: nat)
    requires i < |s|
  {
    s[i] < |table| && table[s[i]].next == At(s, i + 1) && table[s[i]].prev == At(s, i - 1)
  }

  /** `first` and `last` are the ends of the doubly linked list through exactly `s`. */
  predicate Queue(table: seq<Responder>, first: int, last: int, s: seq<nat>) {
    && Distinct(s)
    && first == At(s, 0) && last == At(s, |s| - 1)
    && forall i :: 0 <= i < |s| ==> LinkedAt(table, s, i)
  }

  lemma QueueKept(table: seq<Responder>, table': seq<Responder>, first: int, last: int, s: seq<nat>)
    requires Queue(table, first, last, s) && |table| <= |table'|
    requires forall r :: r in s ==> r < |table| && table'[r].next == table[r].next && table'[r].prev == table[r].prev
    ensures Queue(table', first, last, s)
  {
    forall i | 0 <= i < |s|
      ensures LinkedAt(table', s, i)
    {
      assert LinkedAt(table, s, i);
    }
  }

  lemma QueueAppended(table: seq<Responder>, table': seq<Responder>, first: int, last: int, s: seq<nat>, r: nat)
    requires Queue(table, first, last, s) && r !in s && r < |table| == |table'|
    requires table'[r].next == NULL && table'[r].prev == last
    requires forall q :: 0 <= q < |table| && q != r ==>
      table'[q].prev == table[q].prev && (q != last ==> table'[q].next == table[q].next)
    requires s != [] ==> 0 <= last < |table| && table'[last].next == r
    ensures Queue(table', if s == [] then r else first, r, s + [r])
  {
    var s' := s + [r];
    forall i | 0 <= i < |s'|
      ensures LinkedAt(table', s', i)
    {
      if i < |s| {
        assert LinkedAt(table, s, i);
      }
    }
  }

  /** What unlinking `r` does to the other responders: the code shared by clearEvent and detach. */
  predicate Unlinks(table: seq<Responder>, table': seq<Responder>, r: nat) {
    && r < |table| == |table'|
    && var prev, next := table[r].prev, table[r].next;
    && (0 <= prev < |table| ==> table'[prev].next == next)
    && (0 <= next < |table| ==> table'[next].prev == prev)
    && (forall q :: 0 <= q < |table| && q != r ==>
          (q != prev ==> table'[q].next == table[q].next) && (q != next ==> table'[q].prev == table[q].prev))
  }

  lemma QueueUnlinked(table: seq<Responder>, table': seq<Responder>, first: int, last: int, s: seq<nat>, k: nat)
    requires Queue(table, first, last, s) && k < |s| && Unlinks(table, table', s[k])
    ensures var r := table[s[k]];
      Queue(table', if r.prev == NULL then r.next else first, if r.next == NULL then r.prev else last, Removed(s, k))
  {
    var s' := Removed(s, k);
    DistinctRemoved(s, k);
    assert LinkedAt(table, s, k);
    forall i | 0 <= i < |s'|
      ensures LinkedAt(table', s', i)
    {
      assert LinkedAt(table, s, if i < k then i else i + 1);
      assert s'[i] == s[if i < k then i else i + 1];
    }
  }

  /** `s` holds exactly the triggered responders of one kind. */
  ghost predicate Holds(table: seq<Responder>, s: seq<nat>, kind: Kind) {
    && (forall r :: r in s ==> r < |table| && table[r].kind == kind && table[r].triggered)
    && (forall r :: 0 <= r < |table| && table[r].kind == kind && table[r].triggered ==> r in s)
  }

  /** The links of `r` lead to others or nowhere. */
  predicate Linked(table: seq<Responder>, r: nat) {
    && r < |table| && NULL <= table[r].prev < |table| && NULL <= table[r].next < |table|
    && table[r].prev != r && table[r].next != r
  }

  /** Writes both link fields of the neighbours of `r`. */
  function Bypassed(table: seq<Responder>, r: nat): (t: seq<Responder>)
    requires Linked(table, r)
    ensures |t| == |table| && Unlinks(table, t, r) && t[r] == table[r]
    ensures forall q :: 0 <= q < |table| ==> t[q].kind == table[q].kind && t[q].triggered == table[q].triggered
  {
    var prev, next := table[r].prev, table[r].next;
    var t := if prev != NULL then table[prev := table[prev].(next := next)] else table;
    if next != NULL then t[next := t[next].(prev := prev)] else t
  }

  lemma NeighboursExist(table: seq<Responder>, s: seq<nat>, k: nat)
    requires Distinct(s) && k < |s| && forall i :: 0 <= i < |s| ==> LinkedAt(table, s, i)
    ensures s[k] < |table| && NULL <= table[s[k]].prev < |table| && NULL <= table[s[k]].next < |table|
    ensures table[s[k]].prev != s[k] && table[s[k]].next != s[k]
    ensures table[s[k]].prev != NULL ==> table[s[k]].prev in s
    ensures table[s[k]].next != NULL ==> table[s[k]].next in s
  {
    assert LinkedAt(table, s, k);
    assert k > 0 ==> LinkedAt(table, s, k - 1);
    assert k + 1 < |s| ==> LinkedAt(table, s, k + 1);
  }

  predicate Belongs(r: Responder, kind: Kind) {
    r.kind == kind && r.triggered
  }

  /** A queue does not notice changes elsewhere. */
  lemma KeptQueue(table: seq<Responder>, table': seq<Responder>, first: int, last: int, s: seq<nat>, kind: Kind)
    requires Queue(table, first, last, s) && Holds(table, s, kind) && |table| <= |table'|
    requires forall r :: r in s ==> table'[r].next == table[r].next && table'[r].prev == table[r].prev
    requires forall q :: 0 <= q < |table'| ==> (Belongs(table'[q], kind) <==> q < |table| && Belongs(table[q], kind))
    ensures Queue(table', first, last, s) && Holds(table', s, kind)
  {
    QueueKept(table, table', first, last, s);
  }

  /** The table after `r` was triggered and linked in behind `last`. */
  function Appended(table: seq<Responder>, r: nat, last: int): (t: seq<Responder>)
    requires r < |table| && NULL <= last < |table| && last != r
    ensures |t| == |table| && t[r] == table[r].(next := NULL, prev := last, triggered := true)
  {
    var t := table[r := table[r].(next := NULL, prev := last, triggered := true)];
    if last == NULL then t else t[last := t[last].(next := r)]
  }

  lemma AppendedQueue(table: seq<Responder>, first: int, last: int, s: seq<nat>, r: nat, kind: Kind)
    requires Queue(table, first, last, s) && Holds(table, s, kind)
    requires r < |table| && table[r].kind == kind && !table[r].triggered
    ensures NULL <= last < |table| && last != r && (last == NULL <==> first == NULL) && (last != NULL ==> last in s)
    ensures Queue(Appended(table, r, last), if first == NULL then r else first, r, s + [r])
    ensures Holds(Appended(table, r, last), s + [r], kind)
  {
    if s != [] {
      assert LinkedAt(table, s, |s| - 1);
    }
    QueueAppended(table, Appended(table, r, last), first, last, s, r);
  }

  lemma AppendedOther(table: seq<Responder>, s: seq<nat>, r: nat, last: int, kind: Kind,
      first: int, end: int, other: seq<nat>, otherKind: Kind)
    requires r < |table| && table[r].kind == kind != otherKind && NULL <= last < |table| && last != r
    requires Holds(table, s, kind) && (last != NULL ==> last in s)
    requires Queue(table, first, end, other) && Holds(table, other, otherKind)
    ensures Queue(Appended(table, r, last), first, end, other) && Holds(Appended(table, r, last), other, otherKind)
    ensures SameStatesBut(table, Appended(table, r, last), r)
  {
    KeptQueue(table, Appended(table, r, last), first, end, other, otherKind);
  }

  /** Unlinking a queued responder and changing it so that it does not belong there. */
  lemma UnlinkedQueue(table: seq<Responder>, r: nat, now: Responder, first: int, last: int, s: seq<nat>, k: nat,
        kind: Kind)
    requires Queue(table, first, last, s) && Holds(table, s, kind) && k < |s| && s[k] == r && r < |table|
    requires NULL <= table[r].prev < |table| && NULL <= table[r].next < |table| && table[r].prev != r &&
      table[r].next != r
    requires now.kind != kind || !now.triggered
    ensures var table' := Bypassed(table, r)[r := now];
      && Queue(table', if table[r].prev == NULL then table[r].next else first,
               if table[r].next == NULL then table[r].prev else last, Removed(s, k))
      && Holds(table', Removed(s, k), kind)
  {
    QueueUnlinked(table, Bypassed(table, r)[r := now], first, last, s, k);
    DistinctRemoved(s, k);
  }

  /** The other queue does not notice. */
  lemma OtherQueue(table: seq<Responder>, r: nat, now: Responder, first: int, last: int, s: seq<nat>, kind: Kind)
    requires Queue(table, first, last, s) && Holds(table, s, kind) && r < |table|
    requires NULL <= table[r].prev < |table| && NULL <= table[r].next < |table| && table[r].prev != r &&
      table[r].next != r
    requires table[r].kind != kind
    requires table[r].prev != NULL ==> table[table[r].prev].kind != kind
    requires table[r].next != NULL ==> table[table[r].next].kind != kind
    requires now.kind != kind || !now.triggered
    ensures Queue(Bypassed(table, r)[r := now], first, last, s) && Holds(Bypassed(table, r)[r := now], s, kind)
  {
    QueueKept(table, Bypassed(table, r)[r := now], first, last, s);
  }

  /** Changing a responder that is in no queue, and still belongs in none. */
  lemma StateChanged(table: seq<Responder>, r: nat, now: Responder, first: int, last: int, s: seq<nat>, kind: Kind)
    requires Queue(table, first, last, s) && Holds(table, s, kind)
    requires r < |table| && !Belongs(table[r], kind) && !Belongs(now, kind)
    ensures Queue(table[r := now], first, last, s) && Holds(table[r := now], s, kind) && r !in s
    ensures SameStatesBut(table, table[r := now], r)
  {
    KeptQueue(table, table[r := now], first, last, s, kind);
  }

  /** A queue without one responder. */
  function Without(s: seq<nat>, r: nat): seq<nat> {
    if s == [] then [] else (if s[0] == r then [] else [s[0]]) + Without(s[1..], r)
  }

  lemma {:induction false} WithoutAbsent(s: seq<nat>, r: nat)
    ensures r !in s ==> Without(s, r) == s
  {
    if s != [] {
      WithoutAbsent(s[1..], r);
    }
  }

  lemma {:induction false} WithoutRemoves(s: seq<nat>, k: nat)
    requires Distinct(s) && k < |s|
    ensures Without(s, s[k]) == Removed(s, k)
  {
    if k == 0 {
      WithoutAbsent(s[1..], s[0]);
    } else {
      WithoutRemoves(s[1..], k - 1);
      assert Removed(s, k) == [s[0]] + Removed(s[1..], k - 1);
    }
  }

  /** Both queues after unlinking position `k` of the one and changing that responder to `now`. */
  lemma UnlinkedBoth(table: seq<Responder>, r: nat, now: Responder, first: int, last: int, s: seq<nat>, k: nat,
      kind: Kind, otherFirst: int, otherLast: int, other: seq<nat>, otherKind: Kind)
    requires Queue(table, first, last, s) && Holds(table, s, kind) && k < |s| && s[k] == r && kind != otherKind
    requires Queue(table, otherFirst, otherLast, other) && Holds(table, other, otherKind)
    requires now.triggered ==> now.kind != kind && now.kind != otherKind
    ensures Linked(table, r)
    ensures var table' := Bypassed(table, r)[r := now];
      && Queue(table', if table[r].prev == NULL then table[r].next else first,
               if table[r].next == NULL then table[r].prev else last, Without(s, r))
      && Holds(table', Without(s, r), kind)
      && Queue(table', otherFirst, otherLast, other) && Holds(table', other, otherKind)
      && SameStatesBut(table, table', r)
  {
    NeighboursExist(table, s, k);
    WithoutRemoves(s, k);
    UnlinkedQueue(table, r, now, first, last, s, k, kind);
    OtherQueue(table, r, now, otherFirst, otherLast, other, otherKind);
  }

  lemma QueueHead(table: seq<Responder>, first: nat, last: int, s: seq<nat>, kind: Kind)
    requires Queue(table, first, last, s) && Holds(table, s, kind)
    ensures s != [] && s[0] == first && Without(s, first) == s[1..]
    ensures first < |table| && table[first].prev == NULL && table[first].kind == kind
  {
    assert LinkedAt(table, s, 0);
    WithoutRemoves(s, 0);
  }

  ghost predicate SameKinds(table: seq<Responder>, table': seq<Responder>) {
    |table| == |table'| && forall q :: 0 <= q < |table| ==> table'[q].kind == table[q].kind
  }

  lemma KindsOf(table: seq<Responder>, table': seq<Responder>, r: nat)
    requires SameStatesBut(table, table', r) && r < |table| && table'[r].kind == table[r].kind
    ensures SameKinds(table, table')
  {
  }

  /** Giving a responder that is in no queue another kind is right for a queue exactly if it
      does not belong there then. */
  lemma AttachedIff(table: seq<Responder>, r: nat, now: Responder, first: int, last: int, s: seq<nat>, kind: Kind)
    requires Queue(table, first, last, s) && Holds(table, s, kind) && r < |table| && !Belongs(table[r], kind)
    requires now.next == table[r].next && now.prev == table[r].prev
    ensures Queue(table[r := now], first, last, s) && (Holds(table[r := now], s, kind) <==> !Belongs(now, kind))
  {
    QueueKept(table, table[r := now], first, last, s);
    if !Belongs(now, kind) {
      StateChanged(table, r, now, first, last, s, kind);
    }
  }

  /** All responders but `r` kept their kind and state. */
  ghost predicate SameStatesBut(table: seq<Responder>, table': seq<Responder>, r: nat) {
    && |table| == |table'|
    && forall q :: 0 <= q < |table| && q != r ==>
      table'[q].kind == table[q].kind && table'[q].triggered == table[q].triggered
  }

}

/** Event responders and the two queues of triggered ones, doubly linked through the
    responders themselves. */
module EventQueues {
  import opened QueueLinks
  import opened Sequences

  class EventResponder {
    var kind: Kind
    var triggered: bool
    var next: EventResponder?
    var prev: EventResponder?
    /** The number of this responder among all. */
    ghost const id: nat

    constructor (ghost id: nat)
      ensures this.id == id && kind == Detached && !triggered && next == null && prev == null
    {
      this.id := id;
      kind, triggered, next, prev := Detached, false, null, null;
    }

    ghost function Value(): Responder
      reads this
    {
      Responder(kind, triggered, Id(next), Id(prev))
    }
  }

  ghost function Id(r: EventResponder?): int {
    if r == null then NULL else r.id
  }

  ghost predicate Known(all: seq<EventResponder>, r: EventResponder?) {
    r != null ==> r.id < |all| && all[r.id] == r
  }

  /** Record `i` of the table tells what responder `i` holds, and its links stay among `all`. */
  ghost predicate MirrorAt(all: seq<EventResponder>, table: seq<Responder>, i: nat)
    requires i < |all| == |table|
    reads all[i]
  {
    all[i].id == i && table[i] == all[i].Value() && Known(all, all[i].next) && Known(all, all[i].prev)
  }

  /** The responders of one kind. */
  ghost function Attached(table: seq<Responder>, kind: Kind): set<nat> {
    set r: nat | r < |table| && table[r].kind == kind
  }

  /** A queue after some responders were triggered: each of `members` that was not in it
      joins at the end, in the order of the triggers. */
  ghost function Enqueued(members: set<nat>, queue: seq<nat>, rs: seq<EventResponder>): (q: seq<nat>)
    ensures queue <= q
  {
    if rs == [] then queue
    else
      var before, r := Enqueued(members, queue, rs[..|rs|-1]), rs[|rs|-1].id;
      if r in members && r !in before then before + [r] else before
  }

  function Smaller(a: int, b: int): int {
    if a < b then a else b
  }

  /** Nobody is queued but who was or is triggered, nobody is left out, and nobody is queued
      twice. */
  lemma {:induction false} EnqueuedAre(members: set<nat>, queue: seq<nat>, rs: seq<EventResponder>, id: nat)
    ensures var q := Enqueued(members, queue, rs);
      && (id in q <==> id in queue || (id in members && exists r :: r in rs && r.id == id))
      && (Distinct(queue) ==> Distinct(q))
  {
    if rs != [] {
      var before, r := rs[..|rs|-1], rs[|rs|-1];
      EnqueuedAre(members, queue, before, id);
      assert rs == before + [r];
      if r.id in members && r.id !in Enqueued(members, queue, before) {
        assert Distinct(queue) ==> Distinct(Enqueued(members, queue, before) + [r.id]);
      }
    }
  }

  /** Whoever is triggered earlier is queued earlier. */
  lemma {:induction false} EnqueuedInOrder(members: set<nat>, queue: seq<nat>, rs: seq<EventResponder>, k: nat)
    requires k <= |rs|
    ensures Enqueued(members, queue, rs[..k]) <= Enqueued(members, queue, rs)
    decreases |rs|
  {
    if k < |rs| {
      EnqueuedInOrder(members, queue, rs[..|rs|-1], k);
      assert rs[..|rs|-1][..k] == rs[..k];
    } else {
      assert rs[..k] == rs;
    }
  }

  function First(triggers: seq<seq<EventResponder>>): seq<EventResponder> {
    if triggers == [] then [] else triggers[0]
  }

  function Rest(triggers: seq<seq<EventResponder>>): seq<seq<EventResponder>> {
    if triggers == [] then [] else triggers[1..]
  }

  function Flattened(triggers: seq<seq<EventResponder>>): seq<EventResponder> {
    if triggers == [] then [] else triggers[0] + Flattened(triggers[1..])
  }

  /** The calls made until a queue is empty: always the oldest responder, whose function
      triggers what the next element of `triggers` says. */
  ghost function Served(members: set<nat>, queue: seq<nat>, triggers: seq<seq<EventResponder>>): seq<nat>
    decreases |triggers|, |queue|
  {
    if queue == [] then []
    else [queue[0]] + Served(members, Enqueued(members, queue[1..], First(triggers)), Rest(triggers))
  }

  /** Another queue after those calls. */
  ghost function Yielded(members: set<nat>, queue: seq<nat>, others: set<nat>, yieldQueue: seq<nat>,
      triggers: seq<seq<EventResponder>>): seq<nat>
    decreases |triggers|, |queue|
  {
    if queue == [] then yieldQueue
    else Yielded(members, Enqueued(members, queue[1..], First(triggers)),
                 others, Enqueued(others, yieldQueue, First(triggers)), Rest(triggers))
  }

  lemma SameAttached(table: seq<Responder>, table': seq<Responder>, kind: Kind)
    requires SameKinds(table, table')
    ensures Attached(table', kind) == Attached(table, kind)
  {
  }

  lemma {:induction false} EnqueuedBoth(members: set<nat>, queue: seq<nat>, a: seq<EventResponder>,
      b: seq<EventResponder>)
    ensures Enqueued(members, Enqueued(members, queue, a), b) == Enqueued(members, queue, a + b)
  {
    if b == [] {
      assert a + b == a;
    } else {
      EnqueuedBoth(members, queue, a, b[..|b|-1]);
      assert (a + b)[..|a + b|-1] == a + b[..|b|-1];
    }
  }

  /** The calls begin with the queue as it is. */
  lemma {:induction false} ServedInOrder(members: set<nat>, queue: seq<nat>, triggers: seq<seq<EventResponder>>)
    ensures queue <= Served(members, queue, triggers)
    decreases |triggers|, |queue|
  {
    if queue != [] {
      ServedInOrder(members, Enqueued(members, queue[1..], First(triggers)), Rest(triggers));
    }
  }

  /** The yield queue, too, gets what the functions called trigger, in that order. */
  lemma {:induction false} YieldedIs(members: set<nat>, queue: seq<nat>, others: set<nat>, yieldQueue: seq<nat>,
      triggers: seq<seq<EventResponder>>)
    ensures var used := Smaller(|Served(members, queue, triggers)|, |triggers|);
      Yielded(members, queue, others, yieldQueue, triggers)
        == Enqueued(others, yieldQueue, Flattened(triggers[..used]))
    decreases |triggers|, |queue|
  {
    if queue == [] {
      assert triggers[..0] == [] && Flattened([]) == [];
    } else if triggers == [] {
      YieldedIs(members, queue[1..], others, yieldQueue, []);
      assert triggers[..0] == [] && Flattened([]) == [];
    } else {
      var queue', rest := Enqueued(members, queue[1..], triggers[0]), triggers[1..];
      var k := Smaller(|Served(members, queue', rest)|, |rest|);
      YieldedIs(members, queue', others, Enqueued(others, yieldQueue, triggers[0]), rest);
      assert triggers[..k + 1][1..] == rest[..k];
      EnqueuedBoth(others, yieldQueue, triggers[0], Flattened(rest[..k]));
    }
  }

  /** Triggering these responders only queues them. */
  ghost predicate Deferred(all: seq<EventResponder>, table: seq<Responder>, rs: seq<EventResponder>) {
    |all| == |table| && forall r :: r in rs ==> Known(all, r) && table[r.id].kind != Immediate
  }

  lemma StillDeferred(all: seq<EventResponder>, table: seq<Responder>, table': seq<Responder>, rs: seq<EventResponder>,
      triggers: seq<seq<EventResponder>>)
    requires SameKinds(table, table') && |all| == |table'| && (rs == [] || rs in triggers)
    requires forall t :: t in triggers ==> Deferred(all, table, t)
    ensures Deferred(all, table', rs)
  {
    assert rs != [] ==> Deferred(all, table, rs);
  }

  lemma CallsMoved(calls: seq<nat>, first: nat, later: seq<nat>)
    ensures calls + ([first] + later) == calls + [first] + later
  {
  }

  lemma PrefixMoved(calls: seq<nat>, a: seq<nat>, b: seq<nat>)
    requires a <= b
    ensures calls + a <= calls + b
  {
  }

  lemma NothingEnqueued(members: set<nat>, queue: seq<nat>)
    ensures Enqueued(members, queue, []) == queue
  {
  }

  class Responders {
    var firstYield: EventResponder?
    var lastYield: EventResponder?
    var firstInterrupt: EventResponder?
    var lastInterrupt: EventResponder?
    var runningFromYield: bool
    /** Every EventResponder, and all of them as values. */
    ghost var all: seq<EventResponder>
    ghost var table: seq<Responder>
    /** The queues, in order, by number, and the calls made so far. */
    ghost var yieldQueue: seq<nat>
    ghost var interruptQueue: seq<nat>
    ghost var calls: seq<nat>

    ghost predicate Mirror()
      reads this`all, this`table, all
    {
      |all| == |table| && forall i :: 0 <= i < |all| ==> MirrorAt(all, table, i)
    }

    ghost predicate YieldOk()
      reads this`all, this`table, this`firstYield, this`lastYield, this`yieldQueue
    {
      && Known(all, firstYield) && Known(all, lastYield)
      && Queue(table, Id(firstYield), Id(lastYield), yieldQueue) && Holds(table, yieldQueue, Yield)
    }

    ghost predicate InterruptOk()
      reads this`all, this`table, this`firstInterrupt, this`lastInterrupt, this`interruptQueue
    {
      && Known(all, firstInterrupt) && Known(all, lastInterrupt)
      && Queue(table, Id(firstInterrupt), Id(lastInterrupt), interruptQueue) && Holds(table, interruptQueue, Interrupt)
    }

    ghost predicate Valid()
      reads this, all
    {
      Mirror() && YieldOk() && InterruptOk()
    }

    constructor ()
      ensures Valid() && !runningFromYield && all == [] && table == [] && yieldQueue == interruptQueue == calls == []
    {
      firstYield, lastYield, firstInterrupt, lastInterrupt := null, null, null, null;
      runningFromYield, all, table, yieldQueue, interruptQueue, calls := false, [], [], [], [], [];
    }

    // ---------- reading and writing one responder ----------

    lemma Reflected(r: EventResponder)
      requires Mirror() && Known(all, r)
      ensures r.id < |table| && table[r.id] == r.Value() && Known(all, r.next) && Known(all, r.prev)
    {
      assert MirrorAt(all, table, r.id);
    }

    /** A responder's own fields tell whether it is in a queue. */
    lemma Memberships(r: EventResponder)
      requires Valid() && Known(all, r)
      ensures r.id in yieldQueue <==> r.kind == Yield && r.triggered
      ensures r.id in interruptQueue <==> r.kind == Interrupt && r.triggered
    {
      Reflected(r);
    }

    method SetNext(r: EventResponder, next: EventResponder?)
      requires Mirror() && Known(all, r) && Known(all, next)
      modifies r`next, this`table
      ensures Mirror() && r.next == next
      ensures |table| == |old(table)| && table == old(table)[r.id := old(table)[r.id].(next := Id(next))]
    {
      Reflected(r);
      r.next := next;
      table := table[r.id := table[r.id].(next := Id(next))];
      forall i | 0 <= i < |all|
        ensures MirrorAt(all, table, i)
      {
        assert old(MirrorAt(all, table, i));
      }
    }

    method SetPrev(r: EventResponder, prev: EventResponder?)
      requires Mirror() && Known(all, r) && Known(all, prev)
      modifies r`prev, this`table
      ensures Mirror() && r.prev == prev
      ensures |table| == |old(table)| && table == old(table)[r.id := old(table)[r.id].(prev := Id(prev))]
    {
      Reflected(r);
      r.prev := prev;
      table := table[r.id := table[r.id].(prev := Id(prev))];
      forall i | 0 <= i < |all|
        ensures MirrorAt(all, table, i)
      {
        assert old(MirrorAt(all, table, i));
      }
    }

    method SetState(r: EventResponder, kind: Kind, triggered: bool)
      requires Mirror() && Known(all, r)
      modifies r`kind, r`triggered, this`table
      ensures Mirror() && r.kind == kind && r.triggered == triggered
      ensures |table| == |old(table)| &&
        table == old(table)[r.id := old(table)[r.id].(kind := kind, triggered := triggered)]
    {
      Reflected(r);
      r.kind, r.triggered := kind, triggered;
      table := table[r.id := table[r.id].(kind := kind, triggered := triggered)];
      forall i | 0 <= i < |all|
        ensures MirrorAt(all, table, i)
      {
        assert old(MirrorAt(all, table, i));
      }
    }

    method New() returns (r: EventResponder)
      requires Valid()
      modifies this`all, this`table
      ensures Valid() && fresh(r) && all == old(all) + [r] && Known(all, r)
      ensures table == old(table) + [Responder(Detached, false, NULL, NULL)]
    {
      ghost var all0, t := all, table;
      r := new EventResponder(|all|);
      all := all + [r];
      table := table + [r.Value()];
      forall i | 0 <= i < |all|
        ensures MirrorAt(all, table, i)
      {
        assert i < |all0| ==> MirrorAt(all0, t, i);
      }
      KeptQueue(t, table, Id(firstYield), Id(lastYield), yieldQueue, Yield);
      KeptQueue(t, table, Id(firstInterrupt), Id(lastInterrupt), interruptQueue, Interrupt);
    }

    /** Links an untriggered responder in at the end of the yield queue. */
    method AppendYield(r: EventResponder)
      requires Valid() && Known(all, r) && !r.triggered && r.kind == Yield
      modifies all, this`table, this`firstYield, this`lastYield, this`yieldQueue
      ensures Valid() && yieldQueue == old(yieldQueue) + [r.id]
      ensures SameStatesBut(old(table), table, r.id) && table[r.id].kind == Yield && table[r.id].triggered
    {
      hide Queue, Holds, SameStatesBut;
      ghost var t, last := table, Id(lastYield);
      Reflected(r);
      AppendedQueue(t, Id(firstYield), last, yieldQueue, r.id, Yield);
      AppendedOther(t, yieldQueue, r.id, last, Yield, Id(firstInterrupt), Id(lastInterrupt), interruptQueue, Interrupt);
      SetNext(r, null);
      if firstYield == null {
        SetPrev(r, null);
        firstYield := r;
      } else {
        SetPrev(r, lastYield);
        SetNext(r.prev, r);
      }
      lastYield := r;
      SetState(r, Yield, true);
      assert table == Appended(t, r.id, last);
      yieldQueue := yieldQueue + [r.id];
    }

    method AppendInterrupt(r: EventResponder)
      requires Valid() && Known(all, r) && !r.triggered && r.kind == Interrupt
      modifies all, this`table, this`firstInterrupt, this`lastInterrupt, this`interruptQueue
      ensures Valid() && interruptQueue == old(interruptQueue) + [r.id]
      ensures SameStatesBut(old(table), table, r.id) && table[r.id].kind == Interrupt && table[r.id].triggered
    {
      hide Queue, Holds, SameStatesBut;
      ghost var t, last := table, Id(lastInterrupt);
      Reflected(r);
      AppendedQueue(t, Id(firstInterrupt), last, interruptQueue, r.id, Interrupt);
      AppendedOther(t, interruptQueue, r.id, last, Interrupt, Id(firstYield), Id(lastYield), yieldQueue, Yield);
      SetNext(r, null);
      if firstInterrupt == null {
        SetPrev(r, null);
        firstInterrupt := r;
      } else {
        SetPrev(r, lastInterrupt);
        SetNext(r.prev, r);
      }
      lastInterrupt := r;
      SetState(r, Interrupt, true);
      assert table == Appended(t, r.id, last);
      interruptQueue := interruptQueue + [r.id];
    }

    /** Triggering queues a responder once, however often it happens; an immediate one is
        called on the spot.  A responder that counts as triggered is left alone, also if it
        is in no queue. */
    method TriggerEvent(r: EventResponder)
      requires Mirror() && Known(all, r) && (Valid() || (r.triggered && r.kind != Immediate))
      modifies all, this`table, this`firstYield, this`lastYield, this`yieldQueue
      modifies this`firstInterrupt, this`lastInterrupt, this`interruptQueue, this`calls
      ensures Mirror() && (Valid() <==> old(Valid()))
      ensures old(r.triggered && r.kind != Immediate) ==> table == old(table)
      ensures old(r.kind) == Detached ==> table == old(table)[r.id := old(table)[r.id].(triggered := true)]
      ensures |table| == |old(table)| && SameStatesBut(old(table), table, r.id)
      ensures var t := old(table)[r.id];
        && yieldQueue == old(yieldQueue) + (if t.kind == Yield && !t.triggered then [r.id] else [])
        && interruptQueue == old(interruptQueue) + (if t.kind == Interrupt && !t.triggered then [r.id] else [])
        && calls == old(calls) + (if t.kind == Immediate then [r.id] else [])
        && table[r.id].kind == t.kind && (table[r.id].triggered <==> t.triggered || t.kind != Immediate)
    {
      hide Queue, Holds;
      Reflected(r);
      if r.kind == Immediate {
        calls := calls + [r.id];
        return;
      }
      if !r.triggered {
        if r.kind == Yield {
          AppendYield(r);
        } else if r.kind == Interrupt {
          AppendInterrupt(r);
        } else {
          ghost var now := table[r.id].(triggered := true);
          StateChanged(table, r.id, now, Id(firstYield), Id(lastYield), yieldQueue, Yield);
          StateChanged(table, r.id, now, Id(firstInterrupt), Id(lastInterrupt), interruptQueue, Interrupt);
          SetState(r, r.kind, true);
        }
      }
    }

    /** Makes the neighbours of `r` point past it. */
    method Bypass(r: EventResponder)
      requires Mirror() && Known(all, r) && r.prev != r && r.next != r
      modifies all, this`table
      ensures Mirror() && r.prev == old(r.prev) && r.next == old(r.next)
      ensures Linked(old(table), r.id) && table == Bypassed(old(table), r.id)
    {
      Reflected(r);
      if r.prev != null {
        SetNext(r.prev, r.next);
      }
      if r.next != null {
        SetPrev(r.next, r.prev);
      }
    }

    /** Takes `r` out between its neighbours and changes its kind and state. */
    method Detour(r: EventResponder, kind: Kind, triggered: bool)
      requires Mirror() && Known(all, r) && Linked(table, r.id)
      modifies all, this`table
      ensures Mirror() && r.prev == old(r.prev) && r.next == old(r.next) && Known(all, r.prev) && Known(all, r.next)
      ensures Linked(old(table), r.id)
      ensures table == Bypassed(old(table), r.id)[r.id := old(table)[r.id].(kind := kind, triggered := triggered)]
      ensures old(table)[r.id].prev == Id(r.prev) && old(table)[r.id].next == Id(r.next)
    {
      Reflected(r);
      Bypass(r);
      SetState(r, kind, triggered);
    }

    /** A responder that counts as one in the yield queue, whether it is in it or not. */
    ghost predicate Strayed(r: EventResponder)
      reads this`all, this`table, this`firstYield, this`lastYield, all, r
    {
      && Mirror() && Known(all, r) && Known(all, firstYield) && Known(all, lastYield)
      && r.kind == Yield && r.triggered && Linked(table, r.id)
    }

    /** The end pointers of the yield queue after `r` was taken out as if it were in it. */
    ghost predicate EndsCut(t: seq<Responder>, r: nat, first: int, last: int)
      requires r < |t|
      reads this`firstYield, this`lastYield
    {
      && Id(firstYield) == (if t[r].prev == NULL then t[r].next else first)
      && Id(lastYield) == (if t[r].next == NULL then t[r].prev else last)
    }

    /** What clearEvent and detach do to a responder that counts as one in the yield queue. */
    method CutYield(r: EventResponder, kind: Kind, triggered: bool)
      requires Mirror() && Known(all, r) && Linked(table, r.id) && Known(all, firstYield) && Known(all, lastYield)
      modifies all, this`table, this`firstYield, this`lastYield
      ensures Mirror() && Linked(old(table), r.id) && Known(all, firstYield) && Known(all, lastYield)
      ensures table == Bypassed(old(table), r.id)[r.id := old(table)[r.id].(kind := kind, triggered := triggered)]
      ensures EndsCut(old(table), r.id, old(Id(firstYield)), old(Id(lastYield)))
    {
      hide Bypassed, Linked;
      Detour(r, kind, triggered);
      if r.prev == null {
        firstYield := r.next;
      }
      if r.next == null {
        lastYield := r.prev;
      }
    }

    /** Unlinks a queued responder from the yield queue and changes its kind and state. */
    method UnlinkYield(r: EventResponder, kind: Kind, triggered: bool)
      requires Valid() && Known(all, r) && r.id in yieldQueue && (triggered ==> kind == Detached)
      modifies all, this`table, this`firstYield, this`lastYield, this`yieldQueue
      ensures Valid() && yieldQueue == Without(old(yieldQueue), r.id)
      ensures SameStatesBut(old(table), table, r.id) && table[r.id].kind == kind && table[r.id].triggered == triggered
    {
      hide Queue, Holds, SameStatesBut, Bypassed, Without, Linked;
      ghost var k :| 0 <= k < |yieldQueue| && yieldQueue[k] == r.id;
      UnlinkedBoth(table, r.id, table[r.id].(kind := kind, triggered := triggered), Id(firstYield), Id(lastYield),
        yieldQueue, k, Yield, Id(firstInterrupt), Id(lastInterrupt), interruptQueue, Interrupt);
      CutYield(r, kind, triggered);
      yieldQueue := Without(yieldQueue, r.id);
    }

    method UnlinkInterrupt(r: EventResponder, kind: Kind, triggered: bool)
      requires Valid() && Known(all, r) && r.id in interruptQueue && (triggered ==> kind == Detached)
      modifies all, this`table, this`firstInterrupt, this`lastInterrupt, this`interruptQueue
      ensures Valid() && interruptQueue == Without(old(interruptQueue), r.id)
      ensures SameStatesBut(old(table), table, r.id) && table[r.id].kind == kind && table[r.id].triggered == triggered
    {
      hide Queue, Holds, SameStatesBut, Bypassed, Without, Linked;
      ghost var k :| 0 <= k < |interruptQueue| && interruptQueue[k] == r.id;
      UnlinkedBoth(table, r.id, table[r.id].(kind := kind, triggered := triggered), Id(firstInterrupt),
        Id(lastInterrupt), interruptQueue, k, Interrupt, Id(firstYield), Id(lastYield), yieldQueue, Yield);
      Detour(r, kind, triggered);
      if r.prev == null {
        firstInterrupt := r.next;
      }
      if r.next == null {
        lastInterrupt := r.prev;
      }
      interruptQueue := Without(interruptQueue, r.id);
    }

    /** Unlinks a responder that counts as one in the yield queue. */
    method ClearYield(r: EventResponder)
      requires Known(all, r) && r.kind == Yield && r.triggered && (Valid() || Strayed(r))
      modifies all, this`table, this`firstYield, this`lastYield, this`yieldQueue
      ensures Mirror() && (old(Valid()) ==> Valid() && yieldQueue == Without(old(yieldQueue), r.id))
      ensures |table| == |old(table)| && SameStatesBut(old(table), table, r.id)
      ensures r.id < |table| && table[r.id].kind == Yield && !table[r.id].triggered
      ensures !old(Valid()) ==> EndsCut(old(table), r.id, old(Id(firstYield)), old(Id(lastYield)))
      ensures !old(Valid()) ==> yieldQueue == old(yieldQueue)
    {
      hide Queue, Holds, Without, Bypassed;
      Reflected(r);
      ghost var valid := Valid();
      if valid {
        Memberships(r);
        ghost var k :| 0 <= k < |yieldQueue| && yieldQueue[k] == r.id;
        UnlinkedBoth(table, r.id, table[r.id].(kind := Yield, triggered := false), Id(firstYield), Id(lastYield),
          yieldQueue, k, Yield, Id(firstInterrupt), Id(lastInterrupt), interruptQueue, Interrupt);
      }
      CutYield(r, Yield, false);
      if valid {
        yieldQueue := Without(yieldQueue, r.id);
      }
    }

    /** Takes back a trigger; the rest of the queue keeps its order.  A responder that only
        counts as one in the yield queue takes the ends of that queue with it. */
    method ClearEvent(r: EventResponder) returns (was: bool)
      requires Known(all, r) && (Valid() || Strayed(r))
      modifies all, this`table, this`firstYield, this`lastYield, this`yieldQueue
      modifies this`firstInterrupt, this`lastInterrupt, this`interruptQueue
      ensures |table| == |old(table)| && SameStatesBut(old(table), table, r.id)
      ensures r.id < |table| && was == old(table)[r.id].triggered
      ensures !table[r.id].triggered && table[r.id].kind == old(table)[r.id].kind
      ensures Mirror() && (old(Valid()) ==> Valid())
      ensures old(Valid()) ==>
        yieldQueue == Without(old(yieldQueue), r.id) && interruptQueue == Without(old(interruptQueue), r.id)
      ensures !old(Valid()) ==> EndsCut(old(table), r.id, old(Id(firstYield)), old(Id(lastYield)))
      ensures !old(Valid()) ==> yieldQueue == old(yieldQueue)
    {
      hide Queue, Holds, Without;
      Reflected(r);
      if Valid() {
        Memberships(r);
      }
      WithoutAbsent(yieldQueue, r.id);
      WithoutAbsent(interruptQueue, r.id);
      was := r.triggered;
      if was {
        if r.kind == Yield {
          ClearYield(r);
        } else if r.kind == Interrupt {
          UnlinkInterrupt(r, Interrupt, false);
        } else {
          ghost var now := table[r.id].(triggered := false);
          StateChanged(table, r.id, now, Id(firstYield), Id(lastYield), yieldQueue, Yield);
          StateChanged(table, r.id, now, Id(firstInterrupt), Id(lastInterrupt), interruptQueue, Interrupt);
          SetState(r, r.kind, false);
        }
      }
    }

    method PopYield(first: EventResponder)
      requires Valid() && first == firstYield
      modifies all, this`table, this`firstYield, this`lastYield, this`yieldQueue
      ensures Valid() && Known(all, first) && old(yieldQueue) != [] && first.id == old(yieldQueue)[0]
      ensures yieldQueue == old(yieldQueue)[1..] && SameStatesBut(old(table), table, first.id)
      ensures table[first.id].kind == Yield && !table[first.id].triggered
    {
      hide Queue, Holds, Without, SameStatesBut;
      ghost var t, now := table, table[first.id].(kind := Yield, triggered := false);
      Reflected(first);
      QueueHead(t, first.id, Id(lastYield), yieldQueue, Yield);
      UnlinkedBoth(t, first.id, now, Id(firstYield), Id(lastYield), yieldQueue, 0, Yield,
        Id(firstInterrupt), Id(lastInterrupt), interruptQueue, Interrupt);
      firstYield := first.next;
      if firstYield != null {
        SetPrev(firstYield, null);
      } else {
        lastYield := null;
      }
      SetState(first, Yield, false);
      assert table == Bypassed(t, first.id)[first.id := now];
      yieldQueue := Without(yieldQueue, first.id);
    }

    /** runFromYield up to the call: takes the first responder of the yield queue.  Nothing
        happens in an interrupt or while an earlier call has not returned. */
    method BeginYield(inInterrupt: bool) returns (first: EventResponder?)
      requires Valid()
      modifies all, this`table, this`firstYield, this`lastYield, this`yieldQueue, this`runningFromYield, this`calls
      ensures Valid() && Known(all, first) && |table| == |old(table)|
      ensures first != null <==> old(yieldQueue) != [] && !inInterrupt && !old(runningFromYield)
      ensures first == null ==> table == old(table) && yieldQueue == old(yieldQueue) && calls == old(calls)
      ensures first == null ==> runningFromYield == old(runningFromYield)
      ensures first != null ==> first.id == old(yieldQueue)[0] && yieldQueue == old(yieldQueue)[1..]
      ensures first != null ==> calls == old(calls) + [first.id] && runningFromYield
      ensures first != null ==>
        SameStatesBut(old(table), table, first.id) && table[first.id].kind == Yield && !table[first.id].triggered
    {
      if firstYield == null || inInterrupt || runningFromYield {
        return null;
      }
      first := firstYield;
      runningFromYield := true;
      PopYield(first);
      calls := calls + [first.id];
    }

    /** The called function has returned. */
    method EndYield()
      requires Valid()
      modifies this`runningFromYield
      ensures Valid() && !runningFromYield
    {
      runningFromYield := false;
    }

    /** Takes the first responder of the interrupt queue. */
    method PopInterrupt() returns (first: EventResponder)
      requires Valid() && firstInterrupt != null
      modifies all, this`table, this`firstInterrupt, this`lastInterrupt, this`interruptQueue, this`calls
      ensures Valid() && Known(all, first) && old(interruptQueue) != [] && first.id == old(interruptQueue)[0]
      ensures interruptQueue == old(interruptQueue)[1..] && SameStatesBut(old(table), table, first.id)
      ensures table[first.id].kind == Interrupt && !table[first.id].triggered
      ensures calls == old(calls) + [first.id] && SameKinds(old(table), table)
    {
      hide Queue, Holds, Without, SameStatesBut;
      first := firstInterrupt;
      ghost var t, now := table, table[first.id].(kind := Interrupt, triggered := false);
      Reflected(first);
      QueueHead(t, first.id, Id(lastInterrupt), interruptQueue, Interrupt);
      UnlinkedBoth(t, first.id, now, Id(firstInterrupt), Id(lastInterrupt), interruptQueue, 0, Interrupt,
        Id(firstYield), Id(lastYield), yieldQueue, Yield);
      firstInterrupt := first.next;
      if firstInterrupt != null {
        SetPrev(firstInterrupt, null);
      } else {
        lastInterrupt := null;
      }
      SetState(first, Interrupt, false);
      assert table == Bypassed(t, first.id)[first.id := now];
      interruptQueue := Without(interruptQueue, first.id);
      calls := calls + [first.id];
      KindsOf(t, table, first.id);
    }

    lemma AllInTable()
      requires Valid()
      ensures |all| == |table|
    {
    }

    lemma NoneQueued()
      requires Valid() && firstInterrupt == null
      ensures interruptQueue == []
    {
    }

    method TriggerAll(rs: seq<EventResponder>)
      requires Valid() && Deferred(all, table, rs)
      modifies all, this`table, this`firstYield, this`lastYield, this`yieldQueue
      modifies this`firstInterrupt, this`lastInterrupt, this`interruptQueue, this`calls
      ensures Valid() && calls == old(calls) && SameKinds(old(table), table)
      ensures interruptQueue == Enqueued(old(Attached(table, Interrupt)), old(interruptQueue), rs)
      ensures yieldQueue == Enqueued(old(Attached(table, Yield)), old(yieldQueue), rs)
    {
      hide Queue, Holds, YieldOk, InterruptOk, Mirror;
      for i := 0 to |rs|
        invariant Valid() && calls == old(calls) && SameKinds(old(table), table)
        invariant interruptQueue == Enqueued(old(Attached(table, Interrupt)), old(interruptQueue), rs[..i])
        invariant yieldQueue == Enqueued(old(Attached(table, Yield)), old(yieldQueue), rs[..i])
      {
        assert rs[i] in rs && rs[..i + 1][..i] == rs[..i];
        ghost var t := table;
        Reflected(rs[i]);
        Memberships(rs[i]);
        TriggerEvent(rs[i]);
        KindsOf(t, table, rs[i].id);
      }
      assert rs[..|rs|] == rs;
    }

    /** Calls the oldest responder of the interrupt queue, whose function triggers `rs`. */
    method ServeOne(rs: seq<EventResponder>)
      requires Valid() && firstInterrupt != null && Deferred(all, table, rs)
      modifies all, this`table, this`firstYield, this`lastYield, this`yieldQueue
      modifies this`firstInterrupt, this`lastInterrupt, this`interruptQueue, this`calls
      ensures Valid() && SameKinds(old(table), table) && old(interruptQueue) != []
      ensures calls == old(calls) + [old(interruptQueue)[0]]
      ensures interruptQueue == Enqueued(old(Attached(table, Interrupt)), old(interruptQueue)[1..], rs)
      ensures yieldQueue == Enqueued(old(Attached(table, Yield)), old(yieldQueue), rs)
    {
      hide Mirror, YieldOk, InterruptOk, Queue, Holds, Attached, Enqueued;
      var first := PopInterrupt();
      SameAttached(old(table), table, Interrupt);
      SameAttached(old(table), table, Yield);
      TriggerAll(rs);
    }

    /** Calls queued responders until the interrupt queue is empty; `triggers[i]` lists the
        non-immediate responders that the i-th called function triggers, after the list has
        been used up the called functions trigger none.  The calls start with the queue as
        it was. */
    method RunFromInterrupt(triggers: seq<seq<EventResponder>>)
      requires Valid()
      requires forall t :: t in triggers ==> Deferred(all, table, t)
      modifies all, this`table, this`firstYield, this`lastYield, this`yieldQueue
      modifies this`firstInterrupt, this`lastInterrupt, this`interruptQueue, this`calls
      ensures Valid() && interruptQueue == [] && old(calls) + old(interruptQueue) <= calls
      ensures calls == old(calls) + Served(old(Attached(table, Interrupt)), old(interruptQueue), triggers)
      ensures var used := triggers[..Smaller(|calls| - |old(calls)|, |triggers|)];
        yieldQueue == Enqueued(old(Attached(table, Yield)), old(yieldQueue), Flattened(used))
    {
      hide Mirror, YieldOk, InterruptOk, Queue, Holds, Attached, Enqueued, Flattened;
      ghost var members, others := Attached(table, Interrupt), Attached(table, Yield);
      ServedInOrder(members, interruptQueue, triggers);
      PrefixMoved(calls, interruptQueue, Served(members, interruptQueue, triggers));
      YieldedIs(members, interruptQueue, others, yieldQueue, triggers);
      var rest := triggers;
      while firstInterrupt != null
        invariant Valid() && SameKinds(old(table), table)
        invariant forall t :: t in rest ==> t in triggers
        invariant calls + Served(members, interruptQueue, rest)
          == old(calls) + Served(members, old(interruptQueue), triggers)
        invariant Yielded(members, interruptQueue, others, yieldQueue, rest)
          == Yielded(members, old(interruptQueue), others, old(yieldQueue), triggers)
        decreases |rest|, |interruptQueue|
      {
        ghost var calls0, queue := calls, interruptQueue;
        SameAttached(old(table), table, Interrupt);
        SameAttached(old(table), table, Yield);
        AllInTable();
        StillDeferred(all, old(table), table, First(rest), triggers);
        ServeOne(First(rest));
        CallsMoved(calls0, queue[0], Served(members, interruptQueue, Rest(rest)));
        NothingEnqueued(members, queue[1..]);
        rest := Rest(rest);
      }
      NoneQueued();
      assert calls + [] == calls;
    }

    /** Takes a responder out of its queue, if it is in one, and detaches it; a trigger that
        was pending stays pending. */
    method Detach(r: EventResponder)
      requires Valid() && Known(all, r)
      modifies all, this`table, this`firstYield, this`lastYield, this`yieldQueue
      modifies this`firstInterrupt, this`lastInterrupt, this`interruptQueue
      ensures Valid() && SameStatesBut(old(table), table, r.id) && table[r.id].triggered == old(table)[r.id].triggered
      ensures table[r.id].kind == if old(table)[r.id].kind == Immediate then Immediate else Detached
      ensures old(r.kind) == Detached ==> table == old(table)
      ensures yieldQueue == Without(old(yieldQueue), r.id) && interruptQueue == Without(old(interruptQueue), r.id)
    {
      hide Queue, Holds, Without;
      Reflected(r);
      Memberships(r);
      WithoutAbsent(yieldQueue, r.id);
      WithoutAbsent(interruptQueue, r.id);
      if r.kind == Yield && r.triggered {
        UnlinkYield(r, Detached, true);
      } else if r.kind == Interrupt && r.triggered {
        UnlinkInterrupt(r, Detached, true);
      } else if r.kind == Yield || r.kind == Interrupt {
        ghost var now := table[r.id].(kind := Detached);
        StateChanged(table, r.id, now, Id(firstYield), Id(lastYield), yieldQueue, Yield);
        StateChanged(table, r.id, now, Id(firstInterrupt), Id(lastInterrupt), interruptQueue, Interrupt);
        SetState(r, Detached, r.triggered);
      }
    }

    /** Attaching to a queue is safe exactly when no trigger is pending: the responder counts
        as triggered, but it is in no queue. */
    method Attach(r: EventResponder, kind: Kind)
      requires Valid() && Known(all, r) && kind != Detached
      modifies all, this`table, this`firstYield, this`lastYield, this`yieldQueue
      modifies this`firstInterrupt, this`lastInterrupt, this`interruptQueue
      ensures SameStatesBut(old(table), table, r.id)
      ensures table[r.id].kind == kind && table[r.id].triggered == old(table)[r.id].triggered
      ensures yieldQueue == Without(old(yieldQueue), r.id) && interruptQueue == Without(old(interruptQueue), r.id)
      ensures Valid() <==> kind == Immediate || !old(table)[r.id].triggered
      ensures Mirror() && Known(all, firstYield) && Known(all, lastYield)
      ensures old(r.kind) == Detached ==> table == old(table)[r.id := old(table)[r.id].(kind := kind)]
    {
      hide Queue, Holds, Without;
      Detach(r);
      Reflected(r);
      Memberships(r);
      ghost var t, now := table, table[r.id].(kind := kind);
      AttachedIff(t, r.id, now, Id(firstYield), Id(lastYield), yieldQueue, Yield);
      AttachedIff(t, r.id, now, Id(firstInterrupt), Id(lastInterrupt), interruptQueue, Interrupt);
      SetState(r, kind, r.triggered);
    }
  }

  /** Attaching a responder again while its trigger is pending breaks its queue: it counts
      as triggered and is in neither queue, and triggering it again changes nothing. */
  method AttachTwice(kind: Kind) returns (rs: Responders, r: EventResponder)
    requires kind == Yield || kind == Interrupt
    ensures fresh(rs) && !rs.Valid() && rs.Mirror() && Known(rs.all, r)
    ensures r.kind == kind && r.triggered && rs.calls == []
    ensures r.id !in rs.yieldQueue && r.id !in rs.interruptQueue
  {
    hide Responders.YieldOk, Responders.InterruptOk, Responders.Mirror;
    rs := new Responders();
    r := rs.New();
    rs.Attach(r, kind);
    assert Without([], r.id) == [];
    rs.TriggerEvent(r);
    rs.Reflected(r);
    assert Without([r.id], r.id) == [];
    rs.Attach(r, kind);
    rs.Reflected(r);
    rs.TriggerEvent(r);
    rs.Reflected(r);
  }

  /** One responder in the yield queue, and another one that is in none. */
  method OneQueued() returns (rs: Responders, other: EventResponder, r: EventResponder)
    ensures fresh(rs) && fresh(other) && fresh(r) && rs.Valid() && rs.all == [other, r] && other.id == 0 && r.id == 1
    ensures rs.yieldQueue == [0] && rs.interruptQueue == [] && rs.table[0].kind == Yield && rs.table[0].triggered
    ensures rs.table[1] == Responder(Detached, false, NULL, NULL)
  {
    hide Responders.YieldOk, Responders.InterruptOk, Responders.Mirror;
    rs := new Responders();
    other := rs.New();
    rs.Attach(other, Yield);
    assert Without([], other.id) == [];
    rs.TriggerEvent(other);
    r := rs.New();
  }

  /** And clearing such a responder empties the yield queue for the others: `other` was
      triggered and nothing was done to it, but no queue leads to it any more. */
  method ClearAttachedTwice() returns (rs: Responders, other: EventResponder)
    ensures fresh(rs) && rs.firstYield == null && rs.lastYield == null
    ensures Known(rs.all, other) && other.kind == Yield && other.triggered && other.id in rs.yieldQueue
  {
    hide Responders.YieldOk, Responders.InterruptOk, Responders.Mirror;
    var r;
    rs, other, r := OneQueued();
    rs.Reflected(r);
    rs.TriggerEvent(r);
    rs.Reflected(r);
    rs.Attach(r, Yield);
    rs.Reflected(r);
    assert Without([0], 1) == [0];
    var was := rs.ClearEvent(r);
    rs.Reflected(other);
  }
}
