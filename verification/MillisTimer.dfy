/** What a user can observe of the timers, one timer at a time. */
module TimerViews {
  const TWO_32 := 0x1_0000_0000
  type U32 = x: int | 0 <= x < TWO_32

  datatype View =
    | Idle
    | Pending(wait: U32, reload: U32)
    | Counting(left: U32, reload: U32)

  datatype Op<T> =
    | Begin(t: T, milliseconds: U32, repeating: bool)
    | End(t: T)
    | Tick

  /** The view of a timer that has just been started. */
  function Started(milliseconds: U32, repeating: bool): View {
    if milliseconds == 0 then Idle
    else Pending(if milliseconds > 2 then milliseconds - 2 else 0, if repeating then milliseconds else 0)
  }

  predicate FiresNext(v: View) {
    v.Counting? && v.left == 0
  }

  /** A timer that fires is reloaded before the tick counts. */
  function Reloaded(v: View): View
    requires v.Counting?
  {
    if v.reload > 0 then Counting(v.reload, v.reload) else Idle
  }

  function CountedDown(v: View): View {
    if v.Counting? && v.left > 0 then Counting(v.left - 1, v.reload) else v
  }

  function AfterFiring(v: View): View {
    if FiresNext(v) then CountedDown(Reloaded(v)) else CountedDown(v)
  }

  function Joined(v: View): View {
    if v.Pending? then Counting(v.wait, v.reload) else v
  }

  /** One timer through one tick, on its own. */
  function Ticked(v: View): View {
    Joined(AfterFiring(v))
  }

  ghost function Applied<T>(views: map<T, View>, op: Op<T>): map<T, View> {
    match op
    case Begin(t, milliseconds, repeating) => views[t := Started(milliseconds, repeating)]
    case End(t) => views[t := Idle]
    case Tick => map t | t in views :: Ticked(views[t])
  }

  ghost function Run<T>(views: map<T, View>, ops: seq<Op<T>>): map<T, View> {
    if ops == [] then views else Applied(Run(views, ops[..|ops|-1]), ops[|ops|-1])
  }

  ghost function Due<T>(views: map<T, View>, op: Op<T>): set<T> {
    set t | t in views && op.Tick? && FiresNext(views[t])
  }

  /** `fired` lists the timers that operation `i` of a history has to fire. */
  ghost predicate FiredAt<T>(views: map<T, View>, ops: seq<Op<T>>, i: nat, fired: seq<T>)
    requires i < |ops|
  {
    (set t | t in fired) == Due(Run(views, ops[..i]), ops[i])
  }

  function Ticks<T>(ops: seq<Op<T>>): nat {
    if ops == [] then 0 else Ticks(ops[..|ops|-1]) + if ops[|ops|-1].Tick? then 1 else 0
  }

  /** No operation of `ops` starts or stops `t`. */
  ghost predicate LeavesAlone<T>(ops: seq<Op<T>>, t: T) {
    forall op :: op in ops ==> op.Tick? || op.t != t
  }

  function FirstTick(milliseconds: U32): U32 {
    if milliseconds > 2 then milliseconds else 2
  }

  /** The ticks, counted from the start of a timer, on which it has to fire: the first
      one and, if it repeats, every tick `milliseconds` after one of them. */
  predicate Scheduled(milliseconds: U32, repeating: bool, n: nat) {
    milliseconds > 0 && (
    || n == FirstTick(milliseconds)
    || (repeating && n >= FirstTick(milliseconds) + milliseconds &&
      Scheduled(milliseconds, repeating, n - milliseconds)))
  }

  /** The tick of firing number `k` of a repeating timer. */
  function TickOf(milliseconds: U32, k: nat): nat {
    (if milliseconds > 2 then milliseconds else 2) + k * milliseconds
  }

  /** The schedule in closed form. */
  lemma {:induction false} ScheduledIff(milliseconds: U32, repeating: bool, n: nat)
    ensures Scheduled(milliseconds, repeating, n) <==>
      milliseconds > 0 && exists k: nat :: n == TickOf(milliseconds, k) && (k == 0 || repeating)
  {
    if milliseconds > 0 {
      assert TickOf(milliseconds, 0) == FirstTick(milliseconds);
      if n >= FirstTick(milliseconds) + milliseconds {
        ScheduledIff(milliseconds, repeating, n - milliseconds);
        if k: nat :| n - milliseconds == TickOf(milliseconds, k) && (k == 0 || repeating) {
          NextTick(milliseconds, k);
          assert repeating ==> n == TickOf(milliseconds, k + 1);
        }
        if k: nat :| n == TickOf(milliseconds, k) && (k == 0 || repeating) {
          NextTick(milliseconds, k - 1);
          assert n - milliseconds == TickOf(milliseconds, k - 1);
        }
      } else if k: nat :| n == TickOf(milliseconds, k) && k > 0 {
        NextTick(milliseconds, k - 1);
      }
    }
  }

  lemma NextTick(milliseconds: U32, k: nat)
    ensures TickOf(milliseconds, k + 1) == TickOf(milliseconds, k) + milliseconds >= milliseconds
  {
    assert (k + 1) * milliseconds == k * milliseconds + milliseconds;
  }

  /** The view of a timer `n` ticks after it was started. */
  function ViewAt(milliseconds: U32, repeating: bool, n: nat): View
    requires milliseconds > 0
  {
    var first, reload := FirstTick(milliseconds), if repeating then milliseconds else 0;
    if n == 0 then Pending(first - 2, reload)
    else if n < first then Counting(first - 1 - n, reload)
    else if !repeating then Idle
    else if n < first + milliseconds then Counting(first + milliseconds - 1 - n, reload)
    else ViewAt(milliseconds, repeating, n - milliseconds)
  }

  lemma {:induction false} ViewAtStep(milliseconds: U32, repeating: bool, n: nat)
    requires milliseconds > 0
    ensures Ticked(ViewAt(milliseconds, repeating, n)) == ViewAt(milliseconds, repeating, n + 1)
    ensures FiresNext(ViewAt(milliseconds, repeating, n)) <==> Scheduled(milliseconds, repeating, n + 1)
  {
    if repeating && n >= FirstTick(milliseconds) + milliseconds {
      ViewAtStep(milliseconds, repeating, n - milliseconds);
    }
  }

  lemma {:induction false} RunView<T>(views: map<T, View>, t: T, milliseconds: U32, repeating: bool, ops: seq<Op<T>>)
    requires milliseconds > 0 && LeavesAlone(ops, t)
    requires t in views && views[t] == Started(milliseconds, repeating)
    ensures t in Run(views, ops) && Run(views, ops)[t] == ViewAt(milliseconds, repeating, Ticks(ops))
  {
    if ops != [] {
      var before := ops[..|ops|-1];
      RunView(views, t, milliseconds, repeating, before);
      ViewAtStep(milliseconds, repeating, Ticks(before));
    }
  }

  /** A timer started once fires on tick max(milliseconds, 2) and on no other; a repeating
      one fires first on that tick and then every `milliseconds` ticks, whatever is done to
      the other timers in between; one started with no milliseconds never fires. */
  lemma FiringSchedule<T>(views: map<T, View>, t: T, milliseconds: U32, repeating: bool, ops: seq<Op<T>>)
    requires LeavesAlone(ops, t)
    ensures var now := Run(Applied(views, Begin(t, milliseconds, repeating)), ops);
            t in now && (FiresNext(now[t]) <==> Scheduled(milliseconds, repeating, Ticks(ops) + 1))
  {
    var started := Applied(views, Begin(t, milliseconds, repeating));
    if milliseconds == 0 {
      StaysIdle(started, t, ops);
    } else {
      RunView(started, t, milliseconds, repeating, ops);
      ViewAtStep(milliseconds, repeating, Ticks(ops));
    }
  }

  lemma {:induction false} StaysIdle<T>(views: map<T, View>, t: T, ops: seq<Op<T>>)
    requires LeavesAlone(ops, t) && t in views && views[t] == Idle
    ensures t in Run(views, ops) && Run(views, ops)[t] == Idle
  {
    if ops != [] {
      StaysIdle(views, t, ops[..|ops|-1]);
    }
  }

  /** A timer that was stopped does not fire until it is started again. */
  lemma NeverAfterEnd<T>(views: map<T, View>, ops: seq<Op<T>>, k: nat, i: nat, fired: seq<T>)
    requires k < i < |ops| && ops[k].End?
    requires LeavesAlone(ops[k + 1..i], ops[k].t) && FiredAt(views, ops, i, fired)
    ensures ops[k].t !in fired
  {
    var after := ops[k + 1..i];
    RunSplit(views, ops[..i], k + 1);
    assert ops[..i][..k + 1] == ops[..k + 1] && ops[..i][k + 1..] == after;
    assert ops[..k + 1][..k] == ops[..k];
    StaysIdle(Applied(Run(views, ops[..k]), ops[k]), ops[k].t, after);
    assert ops[k].t in fired <==> ops[k].t in Due(Run(views, ops[..i]), ops[i]);
  }

  lemma RunStep<T>(views: map<T, View>, ops: seq<Op<T>>, i: nat)
    requires i < |ops|
    ensures Run(views, ops[..i + 1]) == Applied(Run(views, ops[..i]), ops[i])
  {
    assert ops[..i + 1][..i] == ops[..i];
  }

  lemma {:induction false} RunSplit<T>(views: map<T, View>, ops: seq<Op<T>>, k: nat)
    requires k <= |ops|
    ensures Run(views, ops) == Run(Run(views, ops[..k]), ops[k..])
  {
    if k == |ops| {
      assert ops[..k] == ops;
    } else {
      var most := ops[..|ops|-1];
      RunSplit(views, most, k);
      assert most[..k] == ops[..k];
      assert ops[k..][..|ops| - k - 1] == most[k..];
    }
  }

  /** In any history a tick fires a timer if and only if its number, counted from the
      timer's last start, is one of those scheduled by that start. */
  lemma FiresExactly<T>(views: map<T, View>, ops: seq<Op<T>>, k: nat, i: nat, fired: seq<T>)
    requires k < i < |ops| && ops[k].Begin? && ops[i].Tick?
    requires LeavesAlone(ops[k + 1..i], ops[k].t) && FiredAt(views, ops, i, fired)
    ensures ops[k].t in fired
      <==> Scheduled(ops[k].milliseconds, ops[k].repeating, Ticks(ops[k + 1..i]) + 1)
  {
    var before, after := ops[..k], ops[k + 1..i];
    RunSplit(views, ops[..i], k + 1);
    assert ops[..i][..k + 1] == ops[..k + 1] && ops[..i][k + 1..] == after;
    assert ops[..k + 1][..k] == before;
    assert ops[k].t in fired <==> ops[k].t in Due(Run(views, ops[..i]), ops[i]);
    FiringSchedule(Run(views, before), ops[k].t, ops[k].milliseconds, ops[k].repeating, after);
  }
}

/** The millisecond timers of the Teensy core.

    Running timers sit on a doubly linked list in which every timer stores its
    wait as a difference from its predecessor.  A user thinks of each timer on its
    own, counting down an absolute number of ticks (module TimerViews).  This module
    proves that the lists agree with that view under every operation. */
module MillisTimers {
  import opened Sequences
  import opened TimerViews

  datatype TimerState = TimerOff | TimerWaiting | TimerActive

  class MillisTimer {
    var ms: U32
    var reload: U32
    var next: MillisTimer?
    var prev: MillisTimer?
    var state: TimerState
    /** Ticks left before the firing tick; `Adjacent` ties it to the stored waits. */
    ghost var left: U32

    constructor ()
      ensures state == TimerOff
    {
      ms, reload, next, prev, state, left := 0, 0, null, null, TimerOff, 0;
    }

    ghost function View(): View
      reads this
    {
      match state
      case TimerOff => Idle
      case TimerWaiting => Pending(ms, reload)
      case TimerActive => Counting(left, reload)
    }
  }

  /** The links between positions `i` and `i + 1` mirror each other, and the later timer
      stores the difference of the two absolute waits. */
  ghost predicate Adjacent(s: seq<MillisTimer>, i: nat)
    requires i + 1 < |s|
    reads s
  {
    var a, b := s[i], s[i+1];
    a.next == b && b.prev == a && b.ms == b.left - a.left
  }

  /** The doubly linked list from `head` runs through exactly `s`. */
  ghost predicate ListOk(head: MillisTimer?, s: seq<MillisTimer>)
    reads s
  {
    && Distinct(s)
    && (s == [] <==> head == null)
    && (s != [] ==> s[0] == head && s[0].prev == null && s[0].ms == s[0].left && s[|s|-1].next == null)
    && (forall i :: 0 <= i < |s| - 1 ==> Adjacent(s, i))
  }

  /** The sum of the first `n` stored waits. */
  ghost function SummedMs(s: seq<MillisTimer>, n: nat): nat
    requires n <= |s|
    reads s
  {
    if n == 0 then 0 else SummedMs(s, n - 1) + s[n-1].ms
  }

  /** The absolute wait is what a reader would get by adding up the list. */
  lemma {:induction false} LeftIsSummedMs(head: MillisTimer?, s: seq<MillisTimer>, i: nat)
    requires ListOk(head, s) && i < |s|
    ensures s[i].left == SummedMs(s, i + 1)
  {
    if i > 0 {
      LeftIsSummedMs(head, s, i - 1);
      assert Adjacent(s, i - 1);
    }
  }

  /** Nobody on the list fires before its head does. */
  lemma {:induction false} HeadIsFirst(head: MillisTimer?, s: seq<MillisTimer>, i: nat)
    requires ListOk(head, s) && i < |s|
    ensures s[0].left <= s[i].left
  {
    if i > 0 {
      HeadIsFirst(head, s, i - 1);
      assert Adjacent(s, i - 1);
    }
  }

  /** The links of position `k`, and that merging its wait into the next one fits in 32 bits. */
  lemma Neighbours(head: MillisTimer?, s: seq<MillisTimer>, k: nat)
    requires ListOk(head, s) && k < |s|
    ensures s[k].next == if k + 1 < |s| then s[k+1] else null
    ensures s[k].prev == if k > 0 then s[k-1] else null
    ensures k + 1 < |s| ==> s[k].ms + s[k+1].ms <= s[k+1].left
  {
    if k > 0 {
      assert Adjacent(s, k - 1);
    }
    if k + 1 < |s| {
      assert Adjacent(s, k);
    }
  }

  /** A timer `t`, and a position `k` on the list `s` that starts at `head`. */
  datatype Site = Site(head: MillisTimer?, s: seq<MillisTimer>, k: nat, t: MillisTimer)

  ghost function Inserted(s: seq<MillisTimer>, k: nat, t: MillisTimer): seq<MillisTimer>
    requires k <= |s|
  {
    s[..k] + [t] + s[k..]
  }

  /** The timers at the front of a list whose wait is over, in their order. */
  ghost function Over(s: seq<MillisTimer>): seq<MillisTimer>
    reads s
  {
    if s == [] || s[0].left > 0 then [] else [s[0]] + Over(s[1..])
  }

  lemma {:induction false} OverCut(a: seq<MillisTimer>, b: seq<MillisTimer>)
    requires b == [] || b[0].left > 0
    ensures Over(a + b) == Over(a)
  {
    if a == [] {
      assert a + b == b;
    } else {
      assert (a + b)[1..] == a[1..] + b;
      OverCut(a[1..], b);
    }
  }

  /** A timer that still has to wait changes nothing about who is over, wherever it goes in
      order. */
  lemma OverInserted(s: seq<MillisTimer>, k: nat, t: MillisTimer)
    requires k <= |s| && t.left > 0 && (k < |s| ==> t.left < s[k].left)
    ensures Over(Inserted(s, k, t)) == Over(s)
  {
    hide Over;
    var a, b := s[..k], s[k..];
    OverCut(a, [t] + b);
    OverCut(a, b);
    assert Inserted(s, k, t) == a + ([t] + b);
    assert s == a + b;
  }

  twostate lemma {:induction false} OverKept(s: seq<MillisTimer>)
    requires forall i :: 0 <= i < |s| ==> s[i].left == old(s[i].left)
    ensures Over(s) == old(Over(s))
  {
    if s != [] {
      OverKept(s[1..]);
    }
  }

  lemma DistinctInserted(s: seq<MillisTimer>, k: nat, t: MillisTimer)
    requires Distinct(s) && k <= |s| && t !in s
    ensures Distinct(Inserted(s, k, t))
  {
  }

  /** Between two states, nothing that matters to the list `s` changed in `u` but the
      named links and the stored wait of the timer at position `k`. */
  twostate predicate SameBut(p: Site)
    reads p.s
  {
    && (forall i :: 0 <= i < |p.s| ==> p.s[i].left == old(p.s[i].left))
    && (forall i :: 0 <= i < |p.s| && i != p.k - 1 ==> p.s[i].next == old(p.s[i].next))
    && (forall i :: 0 <= i < |p.s| && i != p.k ==> p.s[i].prev == old(p.s[i].prev) && p.s[i].ms == old(p.s[i].ms))
  }

  twostate lemma SiteInserted(p: Site)
    requires old(ListOk(p.head, p.s)) && p.k <= |p.s| && p.t !in p.s
    requires SameBut(p)
    requires p.t.next == if p.k < |p.s| then p.s[p.k] else null
    requires p.t.prev == if p.k > 0 then p.s[p.k-1] else null
    requires p.k > 0 ==> p.s[p.k-1].next == p.t
    requires p.k < |p.s| ==> p.s[p.k].prev == p.t && p.s[p.k].ms == old(p.s[p.k].ms) - p.t.ms
    requires p.t.ms == p.t.left - (if p.k > 0 then p.s[p.k-1].left else 0)
    ensures ListOk(if p.k == 0 then p.t else p.head, Inserted(p.s, p.k, p.t))
  {
    var r := Inserted(p.s, p.k, p.t);
    DistinctInserted(p.s, p.k, p.t);
    forall i | 0 <= i < |r| - 1
      ensures Adjacent(r, i)
    {
      if i < p.k - 1 {
        assert old(Adjacent(p.s, i));
      } else if i > p.k {
        assert old(Adjacent(p.s, i - 1));
      } else if 0 < p.k < |p.s| {
        assert old(Adjacent(p.s, p.k - 1));
      }
    }
  }

  /** Between two states, only the unlinking of position `k` changed the list `s`. */
  twostate predicate Unlinked(p: Site)
    requires p.k < |p.s|
    reads p.s
  {
    && (forall i :: 0 <= i < |p.s| && i != p.k ==> p.s[i].left == old(p.s[i].left))
    && (forall i :: 0 <= i < |p.s| && i != p.k && i != p.k - 1 ==> p.s[i].next == old(p.s[i].next))
    && (forall i :: 0 <= i < |p.s| && i != p.k && i != p.k + 1 ==>
          p.s[i].prev == old(p.s[i].prev) && p.s[i].ms == old(p.s[i].ms))
    && (p.k > 0 ==> p.s[p.k-1].next == old(p.s[p.k].next))
    && (p.k + 1 < |p.s| ==>
          p.s[p.k+1].prev == old(p.s[p.k].prev) && p.s[p.k+1].ms == old(p.s[p.k+1].ms + p.s[p.k].ms))
  }

  twostate lemma SiteRemoved(p: Site)
    requires old(ListOk(p.head, p.s)) && p.k < |p.s|
    requires Unlinked(p)
    ensures ListOk(if p.k == 0 then old(p.s[0].next) else p.head, Removed(p.s, p.k))
    ensures forall u :: u in Removed(p.s, p.k) <==> u in p.s && u != p.s[p.k]
  {
    var r := Removed(p.s, p.k);
    DistinctRemoved(p.s, p.k);
    if p.k > 0 {
      assert old(Adjacent(p.s, p.k - 1));
    }
    if p.k + 1 < |p.s| {
      assert old(Adjacent(p.s, p.k));
    }
    forall i | 0 <= i < |r| - 1
      ensures Adjacent(r, i)
    {
      if i < p.k - 1 {
        assert old(Adjacent(p.s, i));
      } else if i >= p.k {
        assert old(Adjacent(p.s, i + 1));
      }
    }
  }

  /** Between two states, a first timer without any wait left was unlinked. */
  twostate lemma HeadRemoved(p: Site)
    requires old(ListOk(p.head, p.s)) && p.s != [] && old(p.s[0].ms) == 0
    requires forall i :: 0 < i < |p.s| ==>
      p.s[i].left == old(p.s[i].left) && p.s[i].next == old(p.s[i].next) && p.s[i].ms == old(p.s[i].ms)
    requires forall i :: 1 < i < |p.s| ==> p.s[i].prev == old(p.s[i].prev)
    requires |p.s| > 1 ==> p.s[1].prev == null
    ensures ListOk(old(p.s[0].next), p.s[1..])
  {
    var r := p.s[1..];
    if |p.s| > 1 {
      assert old(Adjacent(p.s, 0));
    }
    forall i | 0 <= i < |r| - 1
      ensures Adjacent(r, i)
    {
      assert old(Adjacent(p.s, i + 1));
    }
  }

  /** Between two states, the first stored wait and every absolute wait went down by one. */
  twostate lemma SiteCounted(p: Site)
    requires old(ListOk(p.head, p.s)) && p.s != []
    requires forall i :: 0 <= i < |p.s| ==>
      p.s[i].next == old(p.s[i].next) && p.s[i].prev == old(p.s[i].prev) && p.s[i].left == old(p.s[i].left) - 1
    requires p.s[0].ms == old(p.s[0].ms) - 1
    requires forall i :: 0 < i < |p.s| ==> p.s[i].ms == old(p.s[i].ms)
    ensures ListOk(p.head, p.s)
  {
    forall i | 0 <= i < |p.s| - 1
      ensures Adjacent(p.s, i)
    {
      assert old(Adjacent(p.s, i));
    }
  }

  ghost predicate NextAt(s: seq<MillisTimer>, i: nat)
    requires i + 1 < |s|
    reads s
  {
    s[i].next == s[i+1]
  }

  /** The singly linked list from `head` runs through exactly `s`. */
  ghost predicate Chain(head: MillisTimer?, s: seq<MillisTimer>)
    reads s
  {
    && Distinct(s)
    && (s == [] <==> head == null)
    && (s != [] ==> s[0] == head && s[|s|-1].next == null)
    && (forall i :: 0 <= i < |s| - 1 ==> NextAt(s, i))
  }

  lemma ChainTail(head: MillisTimer?, s: seq<MillisTimer>)
    requires Chain(head, s) && s != []
    ensures head != null && Chain(head.next, s[1..]) && head !in s[1..]
  {
    if |s| > 1 {
      assert NextAt(s, 0);
    }
    forall i | 0 <= i < |s[1..]| - 1
      ensures NextAt(s[1..], i)
    {
      assert NextAt(s, i + 1);
    }
  }

  twostate lemma ChainSkipped(p: Site)
    requires old(Chain(p.head, p.s)) && p.k < |p.s|
    requires forall i :: 0 <= i < |p.s| && i != p.k - 1 ==> p.s[i].next == old(p.s[i].next)
    requires p.k > 0 ==> p.s[p.k-1].next == old(p.s[p.k].next)
    ensures Chain(if p.k == 0 then old(p.s[0].next) else p.head, Removed(p.s, p.k))
  {
    var r := Removed(p.s, p.k);
    DistinctRemoved(p.s, p.k);
    if p.k + 1 < |p.s| {
      assert old(NextAt(p.s, p.k));
    }
    forall i | 0 <= i < |r| - 1
      ensures NextAt(r, i)
    {
      if i < p.k - 1 {
        assert old(NextAt(p.s, i));
      } else if i >= p.k {
        assert old(NextAt(p.s, i + 1));
      }
    }
  }

  twostate lemma ChainKept(p: Site)
    requires old(Chain(p.head, p.s))
    requires forall u :: u in p.s ==> u.next == old(u.next)
    ensures Chain(p.head, p.s)
  {
    forall i | 0 <= i < |p.s| - 1
      ensures NextAt(p.s, i)
    {
      assert old(NextAt(p.s, i));
    }
  }

  twostate lemma ListKept(p: Site)
    requires old(ListOk(p.head, p.s))
    requires forall u :: u in p.s ==>
      u.next == old(u.next) && u.prev == old(u.prev) && u.ms == old(u.ms) && u.left == old(u.left)
    ensures ListOk(p.head, p.s)
  {
    forall i | 0 <= i < |p.s| - 1
      ensures Adjacent(p.s, i)
    {
      assert old(Adjacent(p.s, i));
    }
  }

  twostate lemma ChainPushed(p: Site)
    requires old(Chain(p.head, p.s)) && p.t !in p.s && p.t.next == p.head
    requires forall i :: 0 <= i < |p.s| ==> p.s[i].next == old(p.s[i].next)
    ensures Chain(p.t, [p.t] + p.s)
  {
    var r := [p.t] + p.s;
    forall i | 0 <= i < |r| - 1
      ensures NextAt(r, i)
    {
      if i > 0 {
        assert old(NextAt(p.s, i - 1));
      }
    }
  }

  /** Everything a user can see of `t`. */
  twostate predicate SameView(t: MillisTimer)
    reads t
  {
    t.left == old(t.left) && t.state == old(t.state) && t.reload == old(t.reload)
  }

  class TimerLists {
    var listWaiting: MillisTimer?
    var listActive: MillisTimer?
    ghost var waiting: seq<MillisTimer>
    ghost var active: seq<MillisTimer>
    /** Every timer of the program, started or not. */
    ghost var timers: set<MillisTimer>

    /** `waiters` and `active` are exactly the timers whose state says so. */
    ghost predicate Members(waiters: seq<MillisTimer>)
      reads this, timers
    {
      && (forall t :: t in active ==> t in timers)
      && (forall t :: t in waiters ==> t in timers)
      && (forall t :: t in timers ==> (t.state == TimerActive <==> t in active))
      && (forall t :: t in timers ==> (t.state == TimerWaiting <==> t in waiters))
    }

    ghost predicate Valid()
      reads this, timers, active, waiting
    {
      && Members(waiting)
      && ListOk(listActive, active)
      && Chain(listWaiting, waiting)
    }

    ghost function Views(): map<MillisTimer, View>
      reads this, timers
    {
      map t | t in timers :: t.View()
    }

    constructor (ghost all: set<MillisTimer>)
      requires forall t :: t in all ==> t.state == TimerOff
      ensures Valid() && timers == all
    {
      listWaiting, listActive := null, null;
      waiting, active, timers := [], [], all;
    }

    method LinkFirst(t: MillisTimer)
      requires ListOk(listActive, active) && t !in active
      requires active != [] ==> t.ms < active[0].ms
      modifies t, this`listActive, this`active, active
      ensures ListOk(listActive, active) && active == Inserted(old(active), 0, t)
      ensures old(active) != [] ==> t.left < old(active)[0].left
      ensures t.left == old(t.ms) && t.state == TimerActive && t.reload == old(t.reload)
      ensures forall u :: u in old(active) ==> SameView(u)
    {
      ghost var p := Site(listActive, active, 0, t);
      t.left := t.ms;
      t.next := listActive;
      t.prev := null;
      if listActive != null {
        listActive.prev := t;
        listActive.ms := listActive.ms - t.ms;
      }
      listActive := t;
      t.state := TimerActive;
      active := Inserted(active, 0, t);
      SiteInserted(p);
    }

    method LinkBefore(t: MillisTimer, timer: MillisTimer, ghost k: nat)
      requires ListOk(listActive, active) && t !in active
      requires 0 < k < |active| && active[k] == timer && t.ms < timer.ms
      requires active[k-1].left + t.ms == t.left
      modifies t, this`active, active
      ensures ListOk(listActive, active) && active == Inserted(old(active), k, t)
      ensures old(active)[k-1].left <= t.left < old(active)[k].left
      ensures t.left == old(t.left) && t.state == TimerActive && t.reload == old(t.reload)
      ensures forall u :: u in old(active) ==> SameView(u)
    {
      ghost var p := Site(listActive, active, k, t);
      assert Adjacent(active, k - 1);
      t.next := timer;
      t.prev := timer.prev;
      timer.prev := t;
      t.prev.next := t;
      timer.ms := timer.ms - t.ms;
      t.state := TimerActive;
      active := Inserted(active, k, t);
      SiteInserted(p);
    }

    method LinkLast(t: MillisTimer, timer: MillisTimer)
      requires ListOk(listActive, active) && t !in active
      requires active != [] && active[|active|-1] == timer && t.ms >= timer.ms
      requires t.left == timer.left + t.ms - timer.ms
      modifies t, this`active, active
      ensures ListOk(listActive, active) && active == Inserted(old(active), |old(active)|, t)
      ensures timer.left <= t.left
      ensures t.left == old(t.left) && t.state == TimerActive && t.reload == old(t.reload)
      ensures forall u :: u in old(active) ==> SameView(u)
    {
      ghost var p := Site(listActive, active, |active|, t);
      t.ms := t.ms - timer.ms;
      t.next := null;
      t.prev := timer;
      timer.next := t;
      t.state := TimerActive;
      active := Inserted(active, |active|, t);
      SiteInserted(p);
    }

    /** Inserts a timer so that it has `t.ms` ticks left and nobody else's wait changes. */
    method AddToActiveList(t: MillisTimer) returns (ghost k: nat)
      requires ListOk(listActive, active) && t !in active
      modifies t, this`listActive, this`active, active
      ensures ListOk(listActive, active)
      ensures k <= |old(active)| && active == Inserted(old(active), k, t)
      ensures forall u :: u in active <==> u == t || u in old(active)
      ensures k > 0 ==> old(active)[k-1].left <= t.left
      ensures k < |old(active)| ==> t.left < old(active)[k].left
      ensures t.left == old(t.ms) && t.state == TimerActive && t.reload == old(t.reload)
      ensures forall u :: u in old(active) ==> SameView(u)
    {
      k := 0;
      if listActive == null || t.ms < listActive.ms {
        LinkFirst(t);
      } else {
        t.left := t.ms;
        var timer := listActive;
        while timer.next != null
          modifies t`ms
          invariant k < |active| && timer == active[k] && timer.ms <= t.ms
          invariant t.left == t.ms + timer.left - timer.ms
          decreases |active| - k
        {
          assert Adjacent(active, k);
          t.ms := t.ms - timer.ms;
          timer := timer.next;
          k := k + 1;
          if t.ms < timer.ms {
            break;
          }
        }
        if t.ms < timer.ms {
          LinkBefore(t, timer, k);
        } else {
          Neighbours(listActive, active, k);
          k := k + 1;
          LinkLast(t, timer);
        }
      }
    }

    method Unlink(t: MillisTimer, ghost k: nat)
      requires ListOk(listActive, active) && k < |active| && active[k] == t
      modifies this`listActive, this`active, active
      ensures ListOk(listActive, active) && active == Removed(old(active), k)
      ensures t.state == TimerOff
      ensures forall u :: u in active ==> SameView(u)
      ensures forall u :: u in active <==> u in old(active) && u != t
    {
      hide Removed, Adjacent;
      ghost var p := Site(listActive, active, k, t);
      Neighbours(listActive, active, k);
      if t.next != null {
        t.next.prev := t.prev;
        t.next.ms := t.next.ms + t.ms;
      }
      if t.prev != null {
        t.prev.next := t.next;
      } else {
        listActive := t.next;
      }
      t.state := TimerOff;
      active := Removed(active, k);
      SiteRemoved(p);
    }

    /** Finds the timer that points at `t` on the waiting list. */
    method FindBefore(t: MillisTimer) returns (timer: MillisTimer, ghost i: nat)
      requires Chain(listWaiting, waiting) && t in waiting && t != listWaiting
      ensures i + 1 < |waiting| && timer == waiting[i] && t == waiting[i+1] && timer.next == t
    {
      timer, i := listWaiting, 0;
      while timer.next != t
        invariant i < |waiting| && timer == waiting[i] && t in waiting[i+1..]
        decreases |waiting| - i
      {
        assert NextAt(waiting, i);
        timer := timer.next;
        i := i + 1;
      }
      assert NextAt(waiting, i);
    }

    /** Drops `t` from the waiting list, wherever it stands there. */
    method DropWaiting(t: MillisTimer) returns (ghost k: nat)
      requires Chain(listWaiting, waiting) && t in waiting
      modifies this`listWaiting, this`waiting, waiting`next, t`state
      ensures k < |old(waiting)| && t == old(waiting)[k] && waiting == Removed(old(waiting), k)
      ensures Chain(listWaiting, waiting) && t.state == TimerOff
      ensures forall u :: u in waiting <==> u in old(waiting) && u != t
    {
      k := 0;
      ghost var p := Site(listWaiting, waiting, 0, t);
      if listWaiting == t {
        listWaiting := t.next;
      } else {
        var timer;
        timer, k := FindBefore(t);
        k := k + 1;
        p := p.(k := k);
        timer.next := t.next;
      }
      t.state := TimerOff;
      ChainSkipped(p);
      DistinctRemoved(waiting, k);
      waiting := Removed(waiting, k);
    }

    /** Stops a timer in any state; nobody else's view changes. */
    method End(t: MillisTimer)
      requires Valid() && t in timers
      modifies this`listActive, this`active, this`listWaiting, this`waiting, timers
      ensures Valid() && t.state == TimerOff
      ensures forall u :: u in timers && u != t ==> u.View() == old(u.View())
    {
      hide ListOk, Chain;
      if t.state == TimerActive {
        ghost var p := Site(listWaiting, waiting, 0, t);
        ghost var k :| 0 <= k < |active| && active[k] == t;
        Unlink(t, k);
        ChainKept(p);
      } else if t.state == TimerWaiting {
        ghost var p := Site(listActive, active, 0, t);
        ghost var k := DropWaiting(t);
        ListKept(p);
      }
    }

    /** Puts an idle timer on the waiting list with the given wait. */
    method AddToWaitingList(t: MillisTimer, wait: U32, reload: U32)
      requires Valid() && t in timers && t.state == TimerOff
      modifies t, this`listWaiting, this`waiting
      ensures Valid() && t.View() == Pending(wait, reload)
      ensures t.prev == null && waiting == [t] + old(waiting)
    {
      hide ListOk;
      ghost var p := Site(listWaiting, waiting, 0, t);
      t.ms := wait;
      t.reload := reload;
      t.prev := null;
      t.next := listWaiting;
      listWaiting := t;
      t.state := TimerWaiting;
      ChainPushed(p);
      waiting := [t] + waiting;
      ListKept(Site(listActive, active, 0, t));
    }

    /** Starts `t` to fire once (`repeating` false) or every `milliseconds` ticks. */
    method Start(t: MillisTimer, milliseconds: U32, repeating: bool)
      requires Valid() && t in timers
      modifies this`listActive, this`active, this`listWaiting, this`waiting, timers
      ensures Valid() && t.View() == Started(milliseconds, repeating)
      ensures forall u :: u in timers && u != t ==> u.View() == old(u.View())
    {
      if t.state != TimerOff {
        End(t);
      }
      if milliseconds != 0 {
        AddToWaitingList(t, if milliseconds > 2 then milliseconds - 2 else 0, if repeating then milliseconds else 0);
      }
    }

    /** Takes the first timer off the active list when its wait is over. */
    method PopHead() returns (timer: MillisTimer)
      requires ListOk(listActive, active) && active != [] && listActive.ms == 0
      modifies this`listActive, this`active, active
      ensures timer == old(active)[0] && active == old(active)[1..] && timer !in active
      ensures ListOk(listActive, active)
      ensures forall u :: u in old(active) <==> u == timer || u in active
      ensures timer.state == TimerOff && timer.reload == old(timer.reload) == timer.ms
      ensures forall u :: u in active ==> SameView(u)
      ensures [timer] + Over(active) == old(Over(active))
    {
      ghost var p := Site(listActive, active, 0, listActive);
      Neighbours(listActive, active, 0);
      timer := listActive;
      if timer.next != null {
        timer.next.prev := null;
      }
      listActive := timer.next;
      timer.state := TimerOff;
      timer.ms := timer.reload;
      active := active[1..];
      HeadRemoved(p);
      OverKept(active);
    }

    /** Puts a timer that has fired back on the list. */
    method Reload(t: MillisTimer)
      requires ListOk(listActive, active) && t !in active && t.ms > 0
      modifies t, this`listActive, this`active, active
      ensures ListOk(listActive, active) && Over(active) == old(Over(active))
      ensures forall u :: u in active <==> u == t || u in old(active)
      ensures t.left == old(t.ms) && t.state == TimerActive && t.reload == old(t.reload)
      ensures forall u :: u in old(active) ==> SameView(u)
    {
      ghost var rest := active;
      ghost var k := AddToActiveList(t);
      OverInserted(rest, k, t);
      assert forall i :: 0 <= i < |rest| ==> SameView(rest[i]);
      OverKept(rest);
    }

    /** Fires the first timer, whose wait is over, and reloads it if it repeats. */
    method FireHead() returns (timer: MillisTimer)
      requires Valid() && listActive != null && listActive.ms == 0
      modifies this`listActive, this`active, active
      ensures Valid() && timer in timers && FiresNext(old(timer.View()))
      ensures timer.View() == Reloaded(old(timer.View()))
      ensures forall u :: u in timers && u != timer ==> u.View() == old(u.View())
      ensures [timer] + Over(active) == old(Over(active))
    {
      hide Over;
      ghost var p := Site(listWaiting, waiting, 0, listActive);
      timer := PopHead();
      if timer.reload != 0 {
        Reload(timer);
      }
      ChainKept(p);
    }

    /** Nothing is due: one tick passes for every timer on the active list. */
    method CountDown()
      requires Valid() && listActive != null && listActive.ms > 0
      modifies active
      ensures Valid()
      ensures forall t :: t in timers ==> !FiresNext(old(t.View())) && t.View() == CountedDown(old(t.View()))
    {
      ghost var p := Site(listActive, active, 0, listActive);
      ghost var q := Site(listWaiting, waiting, 0, listActive);
      forall i | 0 <= i < |active|
        ensures active[i].left > 0
      {
        HeadIsFirst(listActive, active, i);
      }
      listActive.ms := listActive.ms - 1;
      forall t | t in active {
        t.left := t.left - 1;
      }
      SiteCounted(p);
      ChainKept(q);
    }

    /** The first half of a tick: every due timer fires once, then the rest count down. */
    method FireDue() returns (fired: seq<MillisTimer>)
      requires Valid()
      modifies this`listActive, this`active, timers
      ensures Valid()
      ensures Distinct(fired)
      ensures forall t :: t in fired <==> t in timers && FiresNext(old(t.View()))
      ensures fired == old(Over(active))
      ensures forall t :: t in timers ==> t.View() == AfterFiring(old(t.View()))
    {
      hide Adjacent, NextAt, Over;
      NoneOver();
      fired := [];
      ghost var unfired := timers;
      while listActive != null && listActive.ms == 0
        invariant Valid() && Distinct(fired) && fired + Over(active) == old(Over(active))
        invariant forall t :: t in fired ==>
          t in timers && FiresNext(old(t.View())) && t.View() == Reloaded(old(t.View()))
        invariant forall t :: t in timers ==> (t in unfired <==> t !in fired)
        invariant forall t :: t in unfired ==> t in timers && t.View() == old(t.View())
        decreases unfired
      {
        var timer := FireHead();
        assert fired + ([timer] + Over(active)) == fired + [timer] + Over(active);
        unfired := unfired - {timer};
        fired := fired + [timer];
      }
      NoneOver();
      assert fired + [] == fired;
      if listActive != null {
        CountDown();
      }
    }

    lemma NoneOver()
      requires ListOk(listActive, active)
      ensures listActive == null || listActive.ms > 0 ==> Over(active) == []
    {
    }

    /** Moves the first of the timers `rest` to the active list. */
    method Join(timer: MillisTimer, ghost rest: seq<MillisTimer>) returns (next: MillisTimer?)
      requires ListOk(listActive, active) && Chain(timer, rest) && Members(rest)
      modifies timer, this`listActive, this`active, active
      ensures ListOk(listActive, active) && rest != [] && timer == rest[0] && timer !in rest[1..]
      ensures Chain(next, rest[1..]) && Members(rest[1..])
      ensures timer.View() == Joined(old(timer.View()))
      ensures forall u :: u in timers && u != timer ==> u.View() == old(u.View())
    {
      hide Adjacent, NextAt;
      next := timer.next;
      ChainTail(timer, rest);
      assert forall u :: u in rest[1..] ==> u in rest && u != timer && u !in active;
      ghost var k := AddToActiveList(timer);
      ChainKept(Site(next, rest[1..], 0, timer));
    }

    /** The second half of a tick: every waiting timer joins the active list. */
    method StartWaiting()
      requires Valid()
      modifies this`listActive, this`active, this`listWaiting, this`waiting, timers
      ensures Valid()
      ensures forall t :: t in timers ==> t.View() == Joined(old(t.View()))
    {
      hide Adjacent, NextAt;
      var timer := listWaiting;
      ghost var rest := waiting;
      listWaiting := null;
      waiting := [];
      while timer != null
        invariant listWaiting == null && waiting == []
        invariant ListOk(listActive, active) && Chain(timer, rest) && Members(rest)
        invariant forall t :: t in timers ==>
          t.View() == if t in rest then old(t.View()) else Joined(old(t.View()))
        decreases |rest|
      {
        timer := Join(timer, rest);
        rest := rest[1..];
      }
    }

    /** One millisecond tick.  `fired` lists the timers whose event was triggered. */
    method RunFromTimer() returns (fired: seq<MillisTimer>)
      requires Valid()
      modifies this`listActive, this`active, this`listWaiting, this`waiting, timers
      ensures Valid()
      ensures Distinct(fired)
      ensures forall t :: t in fired <==> t in timers && FiresNext(old(t.View()))
      ensures fired == old(Over(active))
      ensures forall t :: t in timers ==> t.View() == Ticked(old(t.View()))
    {
      fired := FireDue();
      StartWaiting();
    }

    /** Any operation changes the views exactly as `Applied` says, and a tick fires
        exactly the timers whose view says so. */
    method Perform(op: Op<MillisTimer>) returns (fired: seq<MillisTimer>)
      requires Valid() && (op.Tick? || op.t in timers)
      modifies this`listActive, this`active, this`listWaiting, this`waiting, timers
      ensures Valid() && Views() == Applied(old(Views()), op)
      ensures Distinct(fired) && (set t | t in fired) == Due(old(Views()), op)
    {
      hide ListOk, Chain, Members;
      fired := [];
      ghost var views := Views();
      match op
      case Begin(t, milliseconds, repeating) =>
        Start(t, milliseconds, repeating);
        assert Views() == views[t := Started(milliseconds, repeating)];
      case End(t) =>
        End(t);
        assert Views() == views[t := Idle];
      case Tick =>
        fired := RunFromTimer();
        assert Views() == map t | t in views :: Ticked(views[t]);
    }

    /** Any history of operations: each tick fires exactly the timers that are due in the
        view the history so far has led to. */
    method PerformAll(ops: seq<Op<MillisTimer>>) returns (log: seq<seq<MillisTimer>>)
      requires Valid() && forall op :: op in ops ==> op.Tick? || op.t in timers
      modifies this`listActive, this`active, this`listWaiting, this`waiting, timers
      ensures Valid() && Views() == Run(old(Views()), ops) && |log| == |ops|
      ensures forall i :: 0 <= i < |ops| ==> Distinct(log[i]) && FiredAt(old(Views()), ops, i, log[i])
    {
      hide Valid;
      log := [];
      for i := 0 to |ops|
        invariant Valid() && Views() == Run(old(Views()), ops[..i]) && |log| == i
        invariant forall j :: 0 <= j < i ==> Distinct(log[j]) && FiredAt(old(Views()), ops, j, log[j])
      {
        RunStep(old(Views()), ops, i);
        var fired := Perform(ops[i]);
        assert FiredAt(old(Views()), ops, i, fired);
        log := log + [fired];
      }
      assert ops[..|ops|] == ops;
    }
  }
}
