/** Linked lists of connections, threaded through the `next` fields of a table. */
module CordLists {
  import opened Sequences

  const NULL := -1

  /** One AudioConnection; `live` until it is destroyed. */
  datatype Cord = Cord(src: int, dst: int, srcIndex: nat, destIndex: nat, next: int, isConnected: bool, live: bool)

  predicate LinkAt(cords: seq<Cord>, s: seq<nat>, i: nat)
    requires i < |s| && s[i] < |cords|
  {
    cords[s[i]].next == if i + 1 < |s| then s[i+1] else NULL
  }

  /** The list from `head` runs through exactly the cords `s`. */
  predicate Chain(cords: seq<Cord>, head: int, s: seq<nat>) {
    && Distinct(s)
    && head == (if s == [] then NULL else s[0])
    && (forall i :: 0 <= i < |s| ==> s[i] < |cords|)
    && (forall i :: 0 <= i < |s| ==> LinkAt(cords, s, i))
  }

  /** Only the `next` fields of the cords on a list matter to it. */
  lemma ChainKept(cords: seq<Cord>, cords': seq<Cord>, head: int, s: seq<nat>)
    requires Chain(cords, head, s) && |cords| <= |cords'|
    requires forall c :: c in s ==> cords'[c].next == cords[c].next
    ensures Chain(cords', head, s)
  {
    forall i | 0 <= i < |s|
      ensures LinkAt(cords', s, i)
    {
      assert LinkAt(cords, s, i);
    }
  }

  lemma LinkSkipped(cords: seq<Cord>, cords': seq<Cord>, head: int, s: seq<nat>, k: nat, i: nat)
    requires Chain(cords, head, s) && k < |s| && |cords| == |cords'| && i < |s| - 1
    requires forall c :: c in s && c != s[k] && (k > 0 ==> c != s[k-1]) ==> cords'[c].next == cords[c].next
    requires k > 0 ==> cords'[s[k-1]].next == cords[s[k]].next
    ensures Removed(s, k)[i] < |cords'| && LinkAt(cords', Removed(s, k), i)
  {
    var j := if i < k then i else i + 1;
    assert Removed(s, k)[i] == s[j];
    assert LinkAt(cords, s, j);
    if i + 1 == k {
      assert LinkAt(cords, s, k);
    } else {
      assert s[j] in s && s[j] != s[k] && (k > 0 ==> s[j] != s[k-1]);
    }
  }

  /** Unlinking position `k`; afterwards the unlinked cord's own link does not matter. */
  lemma ChainSkipped(cords: seq<Cord>, cords': seq<Cord>, head: int, s: seq<nat>, k: nat)
    requires Chain(cords, head, s) && k < |s| && |cords| == |cords'|
    requires forall c :: c in s && c != s[k] && (k > 0 ==> c != s[k-1]) ==> cords'[c].next == cords[c].next
    requires k > 0 ==> cords'[s[k-1]].next == cords[s[k]].next
    ensures Chain(cords', if k == 0 then cords[s[0]].next else head, Removed(s, k))
  {
    var r := Removed(s, k);
    DistinctRemoved(s, k);
    assert k == 0 ==> LinkAt(cords, s, 0);
    forall i | 0 <= i < |r|
      ensures LinkAt(cords', r, i)
    {
      LinkSkipped(cords, cords', head, s, k, i);
    }
  }

  lemma ChainPushed(cords: seq<Cord>, cords': seq<Cord>, head: int, s: seq<nat>, c: nat)
    requires Chain(cords, head, s) && c !in s && c < |cords'| && |cords| <= |cords'|
    requires cords'[c].next == head
    requires forall d :: d in s ==> cords'[d].next == cords[d].next
    ensures Chain(cords', c, [c] + s)
  {
    var r := [c] + s;
    forall i | 0 <= i < |r|
      ensures LinkAt(cords', r, i)
    {
      if i > 0 {
        assert LinkAt(cords, s, i - 1);
      }
    }
  }

  lemma ChainAppended(cords: seq<Cord>, cords': seq<Cord>, head: int, s: seq<nat>, c: nat)
    requires Chain(cords, head, s) && c !in s && c < |cords'| && |cords| == |cords'|
    requires cords'[c].next == NULL
    requires s != [] ==> cords'[s[|s|-1]].next == c
    requires forall i :: 0 <= i < |s| - 1 ==> cords'[s[i]].next == cords[s[i]].next
    ensures Chain(cords', if s == [] then c else head, s + [c])
  {
    var r := s + [c];
    forall i | 0 <= i < |r|
      ensures LinkAt(cords', r, i)
    {
      if i < |s| - 1 {
        assert LinkAt(cords, s, i);
      }
    }
  }

  // ---------- counting the ends of connected cords ----------

  function EndsAt(c: Cord, s: nat): nat {
    if !c.isConnected then 0 else (if c.src == s then 1 else 0) + (if c.dst == s then 1 else 0)
  }

  /** How many ends of connected cords touch stream `s`. */
  function Ends(cords: seq<Cord>, s: nat): nat {
    if cords == [] then 0 else Ends(cords[..|cords|-1], s) + EndsAt(cords[|cords|-1], s)
  }

  lemma {:induction false} EndsUpdated(cords: seq<Cord>, c: nat, cord: Cord, s: nat)
    requires c < |cords|
    ensures Ends(cords[c := cord], s) == Ends(cords, s) - EndsAt(cords[c], s) + EndsAt(cord, s)
  {
    var n := |cords| - 1;
    if c == n {
      assert cords[c := cord][..n] == cords[..n];
    } else {
      assert cords[c := cord][..n] == cords[..n][c := cord];
      EndsUpdated(cords[..n], c, cord, s);
    }
  }

  /** Changes that keep who is connected to whom keep all counts. */
  lemma {:induction false} EndsKept(cords: seq<Cord>, cords': seq<Cord>, s: nat)
    requires |cords| == |cords'|
    requires forall c :: 0 <= c < |cords| ==> EndsAt(cords'[c], s) == EndsAt(cords[c], s)
    ensures Ends(cords', s) == Ends(cords, s)
  {
    if cords != [] {
      EndsKept(cords[..|cords|-1], cords'[..|cords|-1], s);
    }
  }
}

/** Cords and streams as values: what every list, count and input has to do with the others. */
module CordTables {
  import opened CordLists
  import opened Sequences

  const NO_BLOCK := -1

  /** What the graph knows of one AudioStream. */
  datatype Stream = Stream(
    numInputs: nat, queue: seq<int>, destinationList: int, numConnections: nat, active: bool)

  ghost predicate ListAt(cords: seq<Cord>, streams: seq<Stream>, dests: seq<seq<nat>>, s: nat)
    requires s < |streams| == |dests|
  {
    Chain(cords, streams[s].destinationList, dests[s])
  }

  ghost predicate Lists(cords: seq<Cord>, streams: seq<Stream>, unused: int, spare: seq<nat>, dests: seq<seq<nat>>) {
    && Chain(cords, unused, spare)
    && |dests| == |streams|
    && forall s :: 0 <= s < |streams| ==> ListAt(cords, streams, dests, s)
  }

  /** A live cord is on its source's list if it is connected, and otherwise on the unused list. */
  ghost predicate PlacedAt(cords: seq<Cord>, spare: seq<nat>, dests: seq<seq<nat>>, c: nat)
    requires c < |cords|
  {
    var cord := cords[c];
    if cord.isConnected then cord.live && 0 <= cord.src < |dests| && 0 <= cord.dst < |dests| && c in dests[cord.src]
    else cord.live ==> c in spare
  }

  ghost predicate DestsAt(cords: seq<Cord>, dests: seq<seq<nat>>, s: nat)
    requires s < |dests|
  {
    forall c :: c in dests[s] ==> c < |cords| && cords[c].isConnected && cords[c].src == s
  }

  ghost predicate Spare(cords: seq<Cord>, spare: seq<nat>) {
    forall c :: c in spare ==> c < |cords| && cords[c].live && !cords[c].isConnected
  }

  /** Every live cord is on exactly one list. */
  ghost predicate Placed(cords: seq<Cord>, spare: seq<nat>, dests: seq<seq<nat>>) {
    && Spare(cords, spare)
    && (forall c :: 0 <= c < |cords| ==> PlacedAt(cords, spare, dests, c))
    && (forall s :: 0 <= s < |dests| ==> DestsAt(cords, dests, s))
  }

  predicate SameInput(cords: seq<Cord>, c: nat, d: nat)
    requires c < |cords| && d < |cords|
  {
    cords[c].isConnected && cords[d].isConnected && cords[c].dst == cords[d].dst &&
      cords[c].destIndex == cords[d].destIndex
  }

  /** No two cords lead to the same input. */
  ghost predicate Exclusive(cords: seq<Cord>) {
    forall c, d :: 0 <= c < d < |cords| ==> !SameInput(cords, c, d)
  }

  ghost predicate InputAt(cords: seq<Cord>, streams: seq<Stream>, c: nat)
    requires c < |cords|
  {
    cords[c].isConnected ==> 0 <= cords[c].dst < |streams| && cords[c].destIndex < streams[cords[c].dst].numInputs
  }

  ghost predicate InputsExist(cords: seq<Cord>, streams: seq<Stream>) {
    && (forall s :: 0 <= s < |streams| ==> |streams[s].queue| == streams[s].numInputs)
    && (forall c :: 0 <= c < |cords| ==> InputAt(cords, streams, c))
  }

  /** The counter of a stream is one byte wide. */
  ghost predicate CountedAt(cords: seq<Cord>, streams: seq<Stream>, s: nat)
    requires s < |streams|
  {
    streams[s].numConnections == Ends(cords, s) % 256
  }

  ghost predicate Counted(cords: seq<Cord>, streams: seq<Stream>) {
    forall s :: 0 <= s < |streams| ==> CountedAt(cords, streams, s)
  }

  /** A stream is active exactly while some connected cord touches it. */
  ghost predicate AwakeAt(cords: seq<Cord>, streams: seq<Stream>, s: nat)
    requires s < |streams|
  {
    streams[s].active <==> Ends(cords, s) > 0
  }

  ghost predicate Awake(cords: seq<Cord>, streams: seq<Stream>) {
    forall s :: 0 <= s < |streams| ==> AwakeAt(cords, streams, s)
  }

  /** Disconnecting cord `c` lets the byte-wide counter of stream `s` pass zero, although
      other cords still touch the stream. */
  ghost predicate Oversleeps(cords: seq<Cord>, c: nat, s: nat)
    requires c < |cords|
  {
    var src, dst := cords[c].src, cords[c].dst;
    var left := Ends(cords, s) - EndsAt(cords[c], s);
    && (src == s || dst == s) && left > 0
    && (left % 256 == 0 || (src == dst && (left + 1) % 256 == 0))
  }

  /** One of the two streams at cord `c` would fall asleep although cords still touch it. */
  ghost predicate PutsToSleep(cords: seq<Cord>, c: nat)
    requires c < |cords|
  {
    exists s: nat :: Oversleeps(cords, c, s)
  }

  /** How the activity of all streams comes out when cord `c` is disconnected. */
  ghost predicate SleepsAfter(cords: seq<Cord>, streams: seq<Stream>, cords': seq<Cord>, streams': seq<Stream>, c: nat)
    requires c < |cords|
  {
    && |streams'| == |streams|
    && forall s :: 0 <= s < |streams| && AwakeAt(cords, streams, s) ==>
      (AwakeAt(cords', streams', s) <==> !Oversleeps(cords, c, s))
  }

  function WithNext(cords: seq<Cord>, c: nat, next: int): (r: seq<Cord>)
    requires c < |cords|
    ensures |r| == |cords| && r[c] == cords[c].(next := next) && forall d :: 0 <= d < |cords| && d != c ==>
      r[d] == cords[d]
  {
    cords[c := cords[c].(next := next)]
  }

  /** Apart from cord `c`, only `next` fields differ. */
  ghost predicate SameBut(cords: seq<Cord>, cords': seq<Cord>, c: nat) {
    |cords'| == |cords| && c < |cords| && forall d :: 0 <= d < |cords| && d != c ==>
      cords'[d] == cords[d].(next := cords'[d].next)
  }

  // ---------- from the unused list to a source's list ----------

  lemma RelinkedPlaced(cords: seq<Cord>, cords': seq<Cord>, spare: seq<nat>, dests: seq<seq<nat>>, c: nat, k: nat)
    requires Placed(cords, spare, dests) && Distinct(spare) && SameBut(cords, cords', c)
    requires k < |spare| && spare[k] == c && 0 <= cords[c].src < |dests| && 0 <= cords[c].dst < |dests|
    requires cords'[c] == cords[c].(next := NULL, isConnected := true)
    ensures Placed(cords', Removed(spare, k), dests[cords[c].src := dests[cords[c].src] + [c]])
  {
    var src := cords[c].src;
    var spare', dests' := Removed(spare, k), dests[src := dests[src] + [c]];
    DistinctRemoved(spare, k);
    forall d | 0 <= d < |cords'|
      ensures PlacedAt(cords', spare', dests', d)
    {
      assert PlacedAt(cords, spare, dests, d);
    }
    forall s | 0 <= s < |dests'|
      ensures DestsAt(cords', dests', s)
    {
      assert DestsAt(cords, dests, s);
    }
  }

  lemma RelinkedLists(cords: seq<Cord>, cords': seq<Cord>, unused: int, spare: seq<nat>,
      streams: seq<Stream>, streams': seq<Stream>, dests: seq<seq<nat>>, c: nat, k: nat)
    requires Lists(cords, streams, unused, spare, dests) && Placed(cords, spare, dests) && |cords'| == |cords|
    requires k < |spare| && spare[k] == c && 0 <= cords[c].src < |streams| && cords'[c].next == NULL
    requires k > 0 ==> cords'[spare[k-1]].next == cords[c].next
    requires forall d :: d in spare && d != c && (k > 0 ==> d != spare[k-1]) ==> cords'[d].next == cords[d].next
    requires var dest := dests[cords[c].src];
      && (dest != [] ==> dest[|dest|-1] < |cords| && cords'[dest[|dest|-1]].next == c)
      && (forall d :: 0 <= d < |cords| && d !in spare && (dest != [] ==> d != dest[|dest|-1]) ==>
        cords'[d].next == cords[d].next)
    requires var src := cords[c].src;
      streams' == if dests[src] == [] then streams[src := streams[src].(destinationList := c)] else streams
    ensures var src := cords[c].src;
      Lists(cords', streams', if k == 0 then cords[c].next else unused, Removed(spare, k),
            dests[src := dests[src] + [c]])
  {
    var src := cords[c].src;
    var dests' := dests[src := dests[src] + [c]];
    ChainSkipped(cords, cords', unused, spare, k);
    assert DestsAt(cords, dests, src);
    forall s | 0 <= s < |streams'|
      ensures ListAt(cords', streams', dests', s)
    {
      assert DestsAt(cords, dests, s) && ListAt(cords, streams, dests, s);
      if s == src {
        ChainAppended(cords, cords', streams[s].destinationList, dests[s], c);
      } else {
        ChainKept(cords, cords', streams[s].destinationList, dests[s]);
      }
    }
  }

  /** What a search finds before cord `c` is connected. */
  lemma BeforeRelinking(cords: seq<Cord>, streams: seq<Stream>, unused: int, spare: seq<nat>, dests: seq<seq<nat>>,
        c: nat)
    requires Lists(cords, streams, unused, spare, dests) && Placed(cords, spare, dests)
    requires c < |cords| && cords[c].live && !cords[c].isConnected && 0 <= cords[c].src < |streams|
    ensures Chain(cords, unused, spare) && Distinct(spare) && c in spare && |dests| == |streams|
    ensures Chain(cords, streams[cords[c].src].destinationList, dests[cords[c].src])
    ensures forall d :: d in spare ==> d < |cords| && !cords[d].isConnected
    ensures forall d :: d in dests[cords[c].src] ==> d < |cords| && cords[d].isConnected
  {
    assert PlacedAt(cords, spare, dests, c) && DestsAt(cords, dests, cords[c].src) &&
      ListAt(cords, streams, dests, cords[c].src);
  }

  /** Splicing cord `c` out behind `prev` and in behind `last` moves it between the lists. */
  lemma Relinked(cords: seq<Cord>, cords': seq<Cord>, streams: seq<Stream>, streams': seq<Stream>, unused: int,
      spare: seq<nat>, dests: seq<seq<nat>>, c: nat, k: nat, prev: int, last: int)
    requires Lists(cords, streams, unused, spare, dests) && Placed(cords, spare, dests) && SameBut(cords, cords', c)
    requires 0 <= cords[c].src < |streams| && 0 <= cords[c].dst < |streams|
    requires k < |spare| && spare[k] == c && prev == if k > 0 then spare[k-1] else NULL
    requires var dest := dests[cords[c].src]; last == if dest == [] then NULL else dest[|dest|-1]
    requires cords'[c] == cords[c].(next := NULL, isConnected := true)
    requires last != NULL ==> last < |cords| && cords'[last].next == c
    requires prev != NULL ==> prev < |cords| && cords'[prev].next == cords[c].next
    requires forall d :: 0 <= d < |cords| && d != c && d != prev && d != last ==> cords'[d] == cords[d]
    requires var src := cords[c].src;
      streams' == if last == NULL then streams[src := streams[src].(destinationList := c)] else streams
    ensures var src := cords[c].src;
      Lists(cords', streams', if k == 0 then cords[c].next else unused, Removed(spare, k),
            dests[src := dests[src] + [c]])
    ensures Placed(cords', Removed(spare, k), dests[cords[c].src := dests[cords[c].src] + [c]])
  {
    BeforeRelinking(cords, streams, unused, spare, dests, c);
    RelinkedPlaced(cords, cords', spare, dests, c, k);
    RelinkedLists(cords, cords', unused, spare, streams, streams', dests, c, k);
  }

  // ---------- from a source's list to the unused list ----------

  lemma UnlinkedPlaced(cords: seq<Cord>, cords': seq<Cord>, spare: seq<nat>, dests: seq<seq<nat>>, c: nat, k: nat)
    requires Placed(cords, spare, dests) && SameBut(cords, cords', c) && cords[c].isConnected
    requires 0 <= cords[c].src < |dests| && k < |dests[cords[c].src]| && dests[cords[c].src][k] == c
    requires Distinct(dests[cords[c].src])
    requires cords'[c] == cords[c].(next := cords'[c].next, isConnected := false)
    ensures Placed(cords', [c] + spare, dests[cords[c].src := Removed(dests[cords[c].src], k)])
  {
    var src := cords[c].src;
    var spare', dests' := [c] + spare, dests[src := Removed(dests[src], k)];
    DistinctRemoved(dests[src], k);
    assert PlacedAt(cords, spare, dests, c);
    forall d | 0 <= d < |cords'|
      ensures PlacedAt(cords', spare', dests', d)
    {
      assert PlacedAt(cords, spare, dests, d);
    }
    forall s | 0 <= s < |dests'|
      ensures DestsAt(cords', dests', s)
    {
      assert DestsAt(cords, dests, s);
    }
  }

  lemma UnlinkedLists(cords: seq<Cord>, cords': seq<Cord>, unused: int, spare: seq<nat>,
      streams: seq<Stream>, streams': seq<Stream>, dests: seq<seq<nat>>, c: nat, k: nat)
    requires Lists(cords, streams, unused, spare, dests) && Placed(cords, spare, dests) && |cords'| == |cords|
    requires c < |cords| && cords[c].isConnected && 0 <= cords[c].src < |streams| && cords'[c].next == unused
    requires k < |dests[cords[c].src]| && dests[cords[c].src][k] == c
    requires var dest := dests[cords[c].src];
      && (k > 0 ==> dest[k-1] < |cords| && cords'[dest[k-1]].next == cords[c].next)
      && (forall d :: 0 <= d < |cords| && d != c && (k > 0 ==> d != dest[k-1]) ==> cords'[d].next == cords[d].next)
    requires var src := cords[c].src;
      streams' == if k == 0 then streams[src := streams[src].(destinationList := cords[c].next)] else streams
    ensures var src := cords[c].src;
      Lists(cords', streams', c, [c] + spare, dests[src := Removed(dests[src], k)])
  {
    var src := cords[c].src;
    var dests' := dests[src := Removed(dests[src], k)];
    assert DestsAt(cords, dests, src);
    ChainPushed(cords, cords', unused, spare, c);
    forall s | 0 <= s < |streams'|
      ensures ListAt(cords', streams', dests', s)
    {
      assert DestsAt(cords, dests, s) && ListAt(cords, streams, dests, s);
      if s == src {
        ChainSkipped(cords, cords', streams[s].destinationList, dests[s], k);
      } else {
        ChainKept(cords, cords', streams[s].destinationList, dests[s]);
      }
    }
  }

  // ---------- inputs and counts ----------

  /** When connect succeeds. */
  ghost predicate Connectable(cords: seq<Cord>, streams: seq<Stream>, c: nat)
    requires c < |cords|
  {
    var cord := cords[c];
    && !cord.isConnected && 0 <= cord.src < |streams| && 0 <= cord.dst < |streams|
    && cord.destIndex < streams[cord.dst].numInputs
    && !Taken(cords, cord.dst, cord.destIndex)
  }

  /** Some connected cord leads to this input. */
  ghost predicate Taken(cords: seq<Cord>, dst: int, destIndex: nat) {
    exists d :: 0 <= d < |cords| && cords[d].isConnected && cords[d].dst == dst && cords[d].destIndex == destIndex
  }

  lemma ConnectedInputs(cords: seq<Cord>, cords': seq<Cord>, streams: seq<Stream>, c: nat)
    requires c < |cords| && Connectable(cords, streams, c) && SameBut(cords, cords', c)
    requires cords'[c] == cords[c].(next := NULL, isConnected := true)
    requires Exclusive(cords) && InputsExist(cords, streams)
    ensures Exclusive(cords') && InputsExist(cords', streams)
  {
    forall d, e | 0 <= d < e < |cords'|
      ensures !SameInput(cords', d, e)
    {
      assert !SameInput(cords, d, e);
    }
    forall d | 0 <= d < |cords'|
      ensures InputAt(cords', streams, d)
    {
      assert InputAt(cords, streams, d);
    }
  }

  /** With fewer connected cords nothing goes wrong at the inputs. */
  lemma FewerInputs(cords: seq<Cord>, cords': seq<Cord>, streams: seq<Stream>)
    requires Exclusive(cords) && InputsExist(cords, streams) && |cords| <= |cords'|
    requires forall d :: 0 <= d < |cords'| && cords'[d].isConnected ==>
      d < |cords| && cords[d].isConnected && cords'[d].dst == cords[d].dst && cords'[d].destIndex == cords[d].destIndex
    ensures Exclusive(cords') && InputsExist(cords', streams)
  {
    forall d, e | 0 <= d < e < |cords'|
      ensures !SameInput(cords', d, e)
    {
      if e < |cords| {
        assert !SameInput(cords, d, e);
      }
    }
    forall d | 0 <= d < |cords'|
      ensures InputAt(cords', streams, d)
    {
      if d < |cords| {
        assert InputAt(cords, streams, d);
      }
    }
  }

  function EndAdded(streams: seq<Stream>, s: nat): (r: seq<Stream>)
    requires s < |streams|
    ensures |r| == |streams|
  {
    streams[s := streams[s].(numConnections := (streams[s].numConnections + 1) % 256, active := true)]
  }

  /** `numConnections--; if it is zero the stream falls asleep`, on one byte. */
  function EndDropped(streams: seq<Stream>, s: nat): (r: seq<Stream>)
    requires s < |streams|
    ensures |r| == |streams|
  {
    var n := (streams[s].numConnections + 255) % 256;
    streams[s := streams[s].(numConnections := n, active := streams[s].active && n != 0)]
  }

  lemma EndsChanged(cords: seq<Cord>, cords': seq<Cord>, c: nat, s: nat)
    requires SameBut(cords, cords', c)
    ensures Ends(cords', s) == Ends(cords, s) - EndsAt(cords[c], s) + EndsAt(cords'[c], s)
  {
    EndsKept(cords[c := cords'[c]], cords', s);
    EndsUpdated(cords, c, cords'[c], s);
  }

  /** Two states of the streams that agree in everything the counts depend on. */
  ghost predicate SameCounts(streams: seq<Stream>, streams': seq<Stream>) {
    |streams| == |streams'| && forall s :: 0 <= s < |streams| ==>
      streams'[s].numConnections == streams[s].numConnections && streams'[s].active == streams[s].active
  }

  function Touches(a: nat, b: nat, s: nat): nat {
    (if a == s then 1 else 0) + if b == s then 1 else 0
  }

  lemma EndsAdded(streams: seq<Stream>, a: nat, b: nat, s: nat, ends: nat)
    requires a < |streams| && b < |streams| && s < |streams|
    requires streams[s].numConnections == ends % 256
    ensures var after := EndAdded(EndAdded(streams, a), b)[s];
      && after.numConnections == (ends + Touches(a, b, s)) % 256
      && after.active == (streams[s].active || Touches(a, b, s) > 0)
  {
  }

  lemma EndDroppedAt(streams: seq<Stream>, a: nat, s: nat, ends: nat)
    requires a < |streams| && s < |streams| && (a == s ==> ends > 0)
    requires streams[s].numConnections == ends % 256
    ensures var after, d := EndDropped(streams, a)[s], if a == s then 1 else 0;
      && after.numConnections == (ends - d) % 256
      && (after.active <==> streams[s].active && (d == 0 || (ends - d) % 256 != 0))
  {
  }

  lemma EndsDropped(streams: seq<Stream>, a: nat, b: nat, s: nat, ends: nat)
    requires a < |streams| && b < |streams| && s < |streams| && ends >= Touches(a, b, s)
    requires streams[s].numConnections == ends % 256
    ensures var after := EndDropped(EndDropped(streams, a), b)[s];
      && after.numConnections == (ends - Touches(a, b, s)) % 256
      && (after.active <==> streams[s].active && (a != s || (ends - 1) % 256 != 0)
                            && (b != s || (ends - Touches(a, b, s)) % 256 != 0))
  {
    EndDroppedAt(streams, a, s, ends);
    EndDroppedAt(EndDropped(streams, a), b, s, ends - if a == s then 1 else 0);
  }

  lemma ConnectedCountsAt(cords: seq<Cord>, cords': seq<Cord>, streams0: seq<Stream>, streams: seq<Stream>, c: nat,
        s: nat)
    requires SameBut(cords, cords', c) && !cords[c].isConnected && cords'[c].isConnected
    requires 0 <= cords'[c].src < |streams| && 0 <= cords'[c].dst < |streams| && s < |streams|
    requires SameCounts(streams0, streams) && CountedAt(cords, streams0, s)
    ensures var streams' := EndAdded(EndAdded(streams, cords'[c].src), cords'[c].dst);
      && CountedAt(cords', streams', s)
      && (AwakeAt(cords', streams', s) <==> AwakeAt(cords, streams0, s) || Touches(cords'[c].src, cords'[c].dst, s) > 0)
  {
    EndsChanged(cords, cords', c, s);
    EndsAdded(streams, cords'[c].src, cords'[c].dst, s, Ends(cords, s));
  }

  lemma ConnectedCounts(cords: seq<Cord>, cords': seq<Cord>, streams0: seq<Stream>, streams: seq<Stream>, c: nat)
    requires SameBut(cords, cords', c) && !cords[c].isConnected && cords'[c].isConnected
    requires 0 <= cords'[c].src < |streams| && 0 <= cords'[c].dst < |streams|
    requires SameCounts(streams0, streams) && Counted(cords, streams0)
    ensures var streams' := EndAdded(EndAdded(streams, cords'[c].src), cords'[c].dst);
      Counted(cords', streams') && (Awake(cords, streams0) ==> Awake(cords', streams'))
  {
    var streams' := EndAdded(EndAdded(streams, cords'[c].src), cords'[c].dst);
    forall s | 0 <= s < |streams'|
      ensures CountedAt(cords', streams', s)
      ensures Awake(cords, streams0) ==> AwakeAt(cords', streams', s)
    {
      assert Awake(cords, streams0) ==> AwakeAt(cords, streams0, s);
      ConnectedCountsAt(cords, cords', streams0, streams, c, s);
    }
  }

  lemma UnconnectedCountsAt(cords: seq<Cord>, cords': seq<Cord>, streams0: seq<Stream>, streams: seq<Stream>, c: nat,
        s: nat)
    requires SameBut(cords, cords', c) && cords[c].isConnected && !cords'[c].isConnected
    requires 0 <= cords[c].src < |streams| && 0 <= cords[c].dst < |streams| && s < |streams|
    requires SameCounts(streams0, streams) && CountedAt(cords, streams0, s)
    ensures var streams' := EndDropped(EndDropped(streams, cords[c].src), cords[c].dst);
      && CountedAt(cords', streams', s)
      && (AwakeAt(cords, streams0, s) ==> (AwakeAt(cords', streams', s) <==> !Oversleeps(cords, c, s)))
  {
    EndsChanged(cords, cords', c, s);
    EndsDropped(streams, cords[c].src, cords[c].dst, s, Ends(cords, s));
  }

  lemma UnconnectedCounts(cords: seq<Cord>, cords': seq<Cord>, streams0: seq<Stream>, streams: seq<Stream>, c: nat)
    requires SameBut(cords, cords', c) && cords[c].isConnected && !cords'[c].isConnected
    requires 0 <= cords[c].src < |streams| && 0 <= cords[c].dst < |streams|
    requires SameCounts(streams0, streams) && Counted(cords, streams0)
    ensures var streams' := EndDropped(EndDropped(streams, cords[c].src), cords[c].dst);
      Counted(cords', streams') && SleepsAfter(cords, streams0, cords', streams', c)
  {
    var streams' := EndDropped(EndDropped(streams, cords[c].src), cords[c].dst);
    forall s | 0 <= s < |streams'|
      ensures CountedAt(cords', streams', s)
      ensures AwakeAt(cords, streams0, s) ==> (AwakeAt(cords', streams', s) <==> !Oversleeps(cords, c, s))
    {
      assert CountedAt(cords, streams0, s);
      UnconnectedCountsAt(cords, cords', streams0, streams, c, s);
    }
  }

  /** Disconnecting cord `c` keeps the activity of all streams right if and only if it lets
      no counter pass zero while other cords still touch the stream. */
  lemma AwakeAfterIff(cords: seq<Cord>, streams: seq<Stream>, cords': seq<Cord>, streams': seq<Stream>, c: nat)
    requires c < |cords| && 0 <= cords[c].src < |streams| && 0 <= cords[c].dst < |streams|
    requires SleepsAfter(cords, streams, cords', streams', c) && Awake(cords, streams)
    ensures Awake(cords', streams') <==> !PutsToSleep(cords, c)
  {
    forall s | 0 <= s < |streams|
      ensures AwakeAt(cords', streams', s) <==> !Oversleeps(cords, c, s)
    {
      assert AwakeAt(cords, streams, s);
    }
    if PutsToSleep(cords, c) {
      var s: nat :| Oversleeps(cords, c, s);
      assert !AwakeAt(cords', streams', s);
    }
  }

  /** All cords are connected and lead away from stream `s`. */
  ghost predicate Fan(cords: seq<Cord>, s: nat) {
    forall c :: 0 <= c < |cords| ==> cords[c].isConnected && cords[c].src == s && cords[c].dst != s
  }

  lemma {:induction false} FanEnds(cords: seq<Cord>, s: nat)
    requires Fan(cords, s)
    ensures Ends(cords, s) == |cords|
  {
    if cords != [] {
      FanEnds(cords[..|cords|-1], s);
    }
  }

  /** Up to 256 ends at either stream that cannot happen. */
  lemma UncrowdedSleepsWell(cords: seq<Cord>, c: nat)
    requires c < |cords| && cords[c].src >= 0 && cords[c].dst >= 0 && cords[c].isConnected
    requires Ends(cords, cords[c].src) <= 256 && Ends(cords, cords[c].dst) <= 256
    ensures !PutsToSleep(cords, c)
  {
  }

  /** Counts stay right when no connection changes. */
  lemma SameEndsCounts(cords: seq<Cord>, cords': seq<Cord>, streams: seq<Stream>)
    requires forall s :: 0 <= s < |streams| ==> Ends(cords', s) == Ends(cords, s)
    requires Counted(cords, streams)
    ensures Counted(cords', streams) && (Awake(cords, streams) ==> Awake(cords', streams))
  {
    forall s | 0 <= s < |streams|
      ensures CountedAt(cords', streams, s) && (Awake(cords, streams) ==> AwakeAt(cords', streams, s))
    {
      assert CountedAt(cords, streams, s);
      assert Awake(cords, streams) ==> AwakeAt(cords, streams, s);
    }
  }

  /** Counters and queues of the streams matter neither to the lists nor to the inputs. */
  lemma StreamsTouched(cords: seq<Cord>, streams: seq<Stream>, streams': seq<Stream>, unused: int, spare: seq<nat>,
        dests: seq<seq<nat>>)
    requires |streams'| == |streams| && forall s :: 0 <= s < |streams| ==>
      && streams'[s].destinationList == streams[s].destinationList && streams'[s].numInputs == streams[s].numInputs
      && |streams'[s].queue| == |streams[s].queue|
    ensures Lists(cords, streams, unused, spare, dests) ==> Lists(cords, streams', unused, spare, dests)
    ensures InputsExist(cords, streams) ==> InputsExist(cords, streams')
  {
    if Lists(cords, streams, unused, spare, dests) {
      forall s | 0 <= s < |streams|
        ensures ListAt(cords, streams', dests, s)
      {
        assert ListAt(cords, streams, dests, s);
      }
    }
    if InputsExist(cords, streams) {
      forall c | 0 <= c < |cords|
        ensures InputAt(cords, streams', c)
      {
        assert InputAt(cords, streams, c);
      }
    }
  }

  /** Where lists start does not matter to the inputs. */
  lemma HeadsTouched(cords: seq<Cord>, streams: seq<Stream>, streams': seq<Stream>)
    requires |streams'| == |streams| && forall s :: 0 <= s < |streams| ==>
      && streams'[s].numInputs == streams[s].numInputs && |streams'[s].queue| == |streams[s].queue|
    requires InputsExist(cords, streams)
    ensures InputsExist(cords, streams')
  {
    forall c | 0 <= c < |cords|
      ensures InputAt(cords, streams', c)
    {
      assert InputAt(cords, streams, c);
    }
  }

  // ---------- cords and streams that come, change and go unconnected ----------

  lemma Aimed(cords: seq<Cord>, streams: seq<Stream>, unused: int, spare: seq<nat>, dests: seq<seq<nat>>, c: nat,
        aimed: Cord)
    requires Lists(cords, streams, unused, spare, dests) && Placed(cords, spare, dests)
    requires c < |cords| && cords[c].live && !cords[c].isConnected
    requires aimed == cords[c].(src := aimed.src, srcIndex := aimed.srcIndex, dst := aimed.dst,
      destIndex := aimed.destIndex)
    ensures var cords' := cords[c := aimed];
      && Lists(cords', streams, unused, spare, dests) && Placed(cords', spare, dests)
      && forall s :: 0 <= s < |streams| ==> Ends(cords', s) == Ends(cords, s)
  {
    var cords' := cords[c := aimed];
    ChainKept(cords, cords', unused, spare);
    forall s | 0 <= s < |streams|
      ensures ListAt(cords', streams, dests, s) && DestsAt(cords', dests, s)
      ensures Ends(cords', s) == Ends(cords, s)
    {
      assert DestsAt(cords, dests, s) && ListAt(cords, streams, dests, s);
      ChainKept(cords, cords', streams[s].destinationList, dests[s]);
      EndsKept(cords, cords', s);
    }
    forall d | 0 <= d < |cords'|
      ensures PlacedAt(cords', spare, dests, d)
    {
      assert PlacedAt(cords, spare, dests, d);
    }
  }

  lemma AddedPlaced(cords: seq<Cord>, spare: seq<nat>, dests: seq<seq<nat>>, cord: Cord)
    requires Placed(cords, spare, dests) && !cord.isConnected && cord.live
    ensures Placed(cords + [cord], [|cords|] + spare, dests)
  {
    var cords', spare' := cords + [cord], [|cords|] + spare;
    forall s | 0 <= s < |dests|
      ensures DestsAt(cords', dests, s)
    {
      assert DestsAt(cords, dests, s);
    }
    forall d | 0 <= d < |cords'|
      ensures PlacedAt(cords', spare', dests, d)
    {
      if d < |cords| {
        assert PlacedAt(cords, spare, dests, d);
      }
    }
  }

  lemma AddedLists(cords: seq<Cord>, streams: seq<Stream>, unused: int, spare: seq<nat>, dests: seq<seq<nat>>,
        cord: Cord)
    requires Lists(cords, streams, unused, spare, dests) && cord.next == unused
    ensures Lists(cords + [cord], streams, |cords|, [|cords|] + spare, dests)
  {
    var cords' := cords + [cord];
    ChainPushed(cords, cords', unused, spare, |cords|);
    forall s | 0 <= s < |streams|
      ensures ListAt(cords', streams, dests, s)
    {
      assert ListAt(cords, streams, dests, s);
      ChainKept(cords, cords', streams[s].destinationList, dests[s]);
    }
  }

  lemma AddedEnds(cords: seq<Cord>, cord: Cord, s: nat)
    requires !cord.isConnected
    ensures Ends(cords + [cord], s) == Ends(cords, s)
  {
    assert (cords + [cord])[..|cords|] == cords;
  }

  /** Two tables with the same connected cords have the same inputs taken. */
  lemma SameTaken(cords: seq<Cord>, cords': seq<Cord>, dst: int, destIndex: nat)
    requires |cords| <= |cords'|
    requires forall d :: 0 <= d < |cords'| ==> (cords'[d].isConnected <==> d < |cords| && cords[d].isConnected)
    requires forall d :: 0 <= d < |cords| && cords[d].isConnected ==>
      cords'[d].dst == cords[d].dst && cords'[d].destIndex == cords[d].destIndex
    ensures Taken(cords', dst, destIndex) <==> Taken(cords, dst, destIndex)
  {
  }

  /** Takes an unconnected cord off the unused list for good. */
  lemma Dropped(cords: seq<Cord>, cords': seq<Cord>, streams: seq<Stream>, unused: int, spare: seq<nat>,
      dests: seq<seq<nat>>, c: nat, k: nat)
    requires Lists(cords, streams, unused, spare, dests) && Placed(cords, spare, dests)
    requires SameBut(cords, cords', c) && cords'[c] == cords[c].(live := false) && !cords[c].isConnected
    requires k < |spare| && spare[k] == c
    requires k > 0 ==> cords'[spare[k-1]].next == cords[c].next
    requires forall d :: 0 <= d < |cords| && (k > 0 ==> d != spare[k-1]) ==> cords'[d].next == cords[d].next
    ensures Lists(cords', streams, if k == 0 then cords[c].next else unused, Removed(spare, k), dests)
    ensures Placed(cords', Removed(spare, k), dests)
    ensures forall s :: 0 <= s < |streams| ==> Ends(cords', s) == Ends(cords, s)
  {
    ChainSkipped(cords, cords', unused, spare, k);
    DistinctRemoved(spare, k);
    forall s | 0 <= s < |streams|
      ensures ListAt(cords', streams, dests, s) && DestsAt(cords', dests, s)
      ensures Ends(cords', s) == Ends(cords, s)
    {
      assert DestsAt(cords, dests, s) && ListAt(cords, streams, dests, s);
      ChainKept(cords, cords', streams[s].destinationList, dests[s]);
      EndsKept(cords, cords', s);
    }
    forall d | 0 <= d < |cords'|
      ensures PlacedAt(cords', Removed(spare, k), dests, d)
    {
      assert PlacedAt(cords, spare, dests, d);
    }
  }

  /** No cord touches a stream that does not exist yet. */
  lemma {:induction false} NoEnds(cords: seq<Cord>, s: nat)
    requires forall c :: 0 <= c < |cords| && cords[c].isConnected ==> cords[c].src != s && cords[c].dst != s
    ensures Ends(cords, s) == 0
  {
    if cords != [] {
      NoEnds(cords[..|cords|-1], s);
    }
  }

  lemma StreamAdded(cords: seq<Cord>, streams: seq<Stream>, unused: int, spare: seq<nat>, dests: seq<seq<nat>>,
        stream: Stream)
    requires Lists(cords, streams, unused, spare, dests) && Placed(cords, spare, dests)
    requires Counted(cords, streams) && InputsExist(cords, streams)
    requires stream.numConnections == 0 && !stream.active && stream.destinationList == NULL &&
      |stream.queue| == stream.numInputs
    ensures var streams', dests' := streams + [stream], dests + [[]];
      && Lists(cords, streams', unused, spare, dests') && Placed(cords, spare, dests')
      && Counted(cords, streams') && InputsExist(cords, streams') && (Awake(cords, streams) ==> Awake(cords, streams'))
  {
    var streams', dests' := streams + [stream], dests + [[]];
    forall c | 0 <= c < |cords|
      ensures PlacedAt(cords, spare, dests', c) && InputAt(cords, streams', c)
      ensures cords[c].isConnected ==> cords[c].src != |streams| && cords[c].dst != |streams|
    {
      assert PlacedAt(cords, spare, dests, c) && InputAt(cords, streams, c);
    }
    NoEnds(cords, |streams|);
    forall s | 0 <= s < |streams'|
      ensures DestsAt(cords, dests', s) && ListAt(cords, streams', dests', s) && CountedAt(cords, streams', s)
      ensures Awake(cords, streams) ==> AwakeAt(cords, streams', s)
    {
      if s < |streams| {
        assert DestsAt(cords, dests, s) && ListAt(cords, streams, dests, s) && CountedAt(cords, streams, s);
        assert Awake(cords, streams) ==> AwakeAt(cords, streams, s);
      }
    }
  }

  function Emptied(streams: seq<Stream>, s: nat, input: nat): (r: seq<Stream>)
    requires s < |streams| && input < |streams[s].queue|
    ensures |r| == |streams|
  {
    streams[s := streams[s].(queue := streams[s].queue[input := NO_BLOCK])]
  }

  /** Every stream has the same inputs, with the same blocks waiting. */
  ghost predicate SameQueues(streams: seq<Stream>, streams': seq<Stream>) {
    |streams'| == |streams| && forall s :: 0 <= s < |streams| ==>
      streams'[s].queue == streams[s].queue && streams'[s].numInputs == streams[s].numInputs
  }

  /** Slot by slot: the input is empty, and every other input has what it had. */
  lemma EmptiedSlots(streams: seq<Stream>, streams': seq<Stream>, s: nat, input: nat)
    requires s < |streams| && input < |streams[s].queue| && SameQueues(Emptied(streams, s, input), streams')
    ensures |streams'| == |streams| && |streams'[s].queue| == |streams[s].queue|
    ensures streams'[s].queue[input] == NO_BLOCK
    ensures forall t :: 0 <= t < |streams| ==> |streams'[t].queue| == |streams[t].queue|
    ensures forall t, i :: 0 <= t < |streams| && 0 <= i < |streams[t].queue| && (t != s || i != input) ==>
      streams'[t].queue[i] == streams[t].queue[i]
  {
  }

  /** Cord `c` was cut out of position `k` of its source's list; the others keep their order. */
  ghost predicate Cut(cords: seq<Cord>, dests: seq<seq<nat>>, c: nat, k: nat, dests': seq<seq<nat>>)
    requires c < |cords|
  {
    var src := cords[c].src;
    && 0 <= src < |dests| && k < |dests[src]| && dests[src][k] == c
    && dests' == dests[src := Removed(dests[src], k)]
  }

  // ---------- everything that holds between calls ----------

  ghost predicate Sound(cords: seq<Cord>, streams: seq<Stream>, unused: int, spare: seq<nat>, dests: seq<seq<nat>>) {
    && Lists(cords, streams, unused, spare, dests)
    && Placed(cords, spare, dests)
    && Exclusive(cords)
    && InputsExist(cords, streams)
    && Counted(cords, streams)
  }

  /** Connecting keeps everything. */
  lemma Plugged(cords: seq<Cord>, cords': seq<Cord>, streams: seq<Stream>, streams1: seq<Stream>, unused: int,
      spare: seq<nat>, dests: seq<seq<nat>>, c: nat, k: nat, prev: int, last: int)
    requires Sound(cords, streams, unused, spare, dests) && SameBut(cords, cords', c) && Connectable(cords, streams, c)
    requires k < |spare| && spare[k] == c && prev == if k > 0 then spare[k-1] else NULL
    requires cords[c].src < |dests| &&
      var dest := dests[cords[c].src]; last == if dest == [] then NULL else dest[|dest|-1]
    requires cords'[c] == cords[c].(next := NULL, isConnected := true)
    requires last != NULL ==> last < |cords| && cords'[last].next == c
    requires prev != NULL ==> prev < |cords| && cords'[prev].next == cords[c].next
    requires forall d :: 0 <= d < |cords| && d != c && d != prev && d != last ==> cords'[d] == cords[d]
    requires var src := cords[c].src;
      streams1 == if last == NULL then streams[src := streams[src].(destinationList := c)] else streams
    ensures var src, streams' := cords[c].src, EndAdded(EndAdded(streams1, cords[c].src), cords[c].dst);
      && Sound(cords', streams', if prev == NULL then cords[c].next else unused, Removed(spare, k),
               dests[src := dests[src] + [c]])
      && SameQueues(streams, streams') && (Awake(cords, streams) ==> Awake(cords', streams'))
  {
    Relinked(cords, cords', streams, streams1, unused, spare, dests, c, k, prev, last);
    ConnectedInputs(cords, cords', streams, c);
    ConnectedCounts(cords, cords', streams, streams1, c);
    var streams' := EndAdded(EndAdded(streams1, cords[c].src), cords[c].dst);
    HeadsTouched(cords', streams, streams');
    StreamsTouched(cords', streams1, streams', if prev == NULL then cords[c].next else unused, Removed(spare, k),
      dests[cords[c].src := dests[cords[c].src] + [c]]);
  }

  /** What a search finds before cord `c` is disconnected. */
  lemma BeforeUnlinking(cords: seq<Cord>, streams: seq<Stream>, unused: int, spare: seq<nat>, dests: seq<seq<nat>>,
        c: nat)
    requires Sound(cords, streams, unused, spare, dests) && c < |cords| && cords[c].isConnected
    ensures 0 <= cords[c].src < |streams| == |dests| && 0 <= cords[c].dst < |streams| && c in dests[cords[c].src]
    ensures Chain(cords, streams[cords[c].src].destinationList, dests[cords[c].src])
    ensures cords[c].destIndex < |streams[cords[c].dst].queue| == streams[cords[c].dst].numInputs
  {
    assert PlacedAt(cords, spare, dests, c) && ListAt(cords, streams, dests, cords[c].src) &&
      InputAt(cords, streams, c);
  }

  /** The counts and the activity after disconnecting. */
  lemma UnpluggedCounts(cords: seq<Cord>, cords': seq<Cord>, streams: seq<Stream>, streams1: seq<Stream>, c: nat)
    requires SameBut(cords, cords', c) && cords[c].isConnected && !cords'[c].isConnected
    requires 0 <= cords[c].src < |streams| && 0 <= cords[c].dst < |streams|
    requires SameCounts(streams, streams1) && Counted(cords, streams)
    ensures var streams' := EndDropped(EndDropped(streams1, cords[c].src), cords[c].dst);
      && Counted(cords', streams') && SleepsAfter(cords, streams, cords', streams', c)
      && (Awake(cords, streams) ==> (Awake(cords', streams') <==> !PutsToSleep(cords, c)))
  {
    hide Counted, SleepsAfter, Awake, PutsToSleep, EndDropped;
    UnconnectedCounts(cords, cords', streams, streams1, c);
    if Awake(cords, streams) {
      AwakeAfterIff(cords, streams, cords', EndDropped(EndDropped(streams1, cords[c].src), cords[c].dst), c);
    }
  }

  /** Disconnecting keeps everything, and all inputs but the one that was emptied. */
  lemma Unplugged(cords: seq<Cord>, cords': seq<Cord>, streams: seq<Stream>, streams1: seq<Stream>, unused: int,
      spare: seq<nat>, dests: seq<seq<nat>>, c: nat, k: nat, prev: int)
    requires Sound(cords, streams, unused, spare, dests) && SameBut(cords, cords', c) && cords[c].isConnected
    requires 0 <= cords[c].src < |streams| == |dests| && 0 <= cords[c].dst < |streams|
    requires cords[c].destIndex < |streams[cords[c].dst].queue|
    requires k < |dests[cords[c].src]| && dests[cords[c].src][k] == c
    requires prev == if k > 0 then dests[cords[c].src][k-1] else NULL
    requires cords'[c] == cords[c].(next := unused, isConnected := false)
    requires prev != NULL ==> prev < |cords| && cords'[prev].next == cords[c].next
    requires forall d :: 0 <= d < |cords| && d != c && d != prev ==> cords'[d] == cords[d]
    requires var src := cords[c].src;
      streams1 == if prev == NULL then streams[src := streams[src].(destinationList := cords[c].next)] else streams
    ensures |streams1| == |streams| && cords[c].destIndex < |streams1[cords[c].dst].queue|
    ensures var src, dst, input := cords[c].src, cords[c].dst, cords[c].destIndex;
      var streams' := EndDropped(EndDropped(Emptied(streams1, dst, input), src), dst);
      && Sound(cords', streams', c, [c] + spare, dests[src := Removed(dests[src], k)])
      && SameQueues(Emptied(streams, dst, input), streams') && SleepsAfter(cords, streams, cords', streams', c)
      && (Awake(cords, streams) ==> (Awake(cords', streams') <==> !PutsToSleep(cords, c)))
      && Cut(cords, dests, c, k, dests[src := Removed(dests[src], k)])
  {
    hide Awake, PutsToSleep, SleepsAfter, Removed, Distinct;
    var src, dst, input := cords[c].src, cords[c].dst, cords[c].destIndex;
    assert ListAt(cords, streams, dests, src) && DestsAt(cords, dests, src);
    UnlinkedPlaced(cords, cords', spare, dests, c, k);
    UnlinkedLists(cords, cords', unused, spare, streams, streams1, dests, c, k);
    FewerInputs(cords, cords', streams);
    var emptied := Emptied(streams1, dst, input);
    hide Counted;
    UnpluggedCounts(cords, cords', streams, emptied, c);
    var streams' := EndDropped(EndDropped(emptied, src), dst);
    HeadsTouched(cords', streams, streams');
    StreamsTouched(cords', streams1, streams', c, [c] + spare, dests[src := Removed(dests[src], k)]);
  }

  /** Aiming an unconnected cord at other ends keeps everything. */
  lemma AimedSound(cords: seq<Cord>, streams: seq<Stream>, unused: int, spare: seq<nat>, dests: seq<seq<nat>>, c: nat,
        aimed: Cord)
    requires Sound(cords, streams, unused, spare, dests) && c < |cords| && cords[c].live && !cords[c].isConnected
    requires aimed == cords[c].(src := aimed.src, srcIndex := aimed.srcIndex, dst := aimed.dst,
      destIndex := aimed.destIndex)
    ensures Sound(cords[c := aimed], streams, unused, spare, dests)
    ensures Awake(cords, streams) ==> Awake(cords[c := aimed], streams)
  {
    Aimed(cords, streams, unused, spare, dests, c, aimed);
    FewerInputs(cords, cords[c := aimed], streams);
    SameEndsCounts(cords, cords[c := aimed], streams);
  }

  /** So does a new cord, */
  lemma AddedSound(cords: seq<Cord>, streams: seq<Stream>, unused: int, spare: seq<nat>, dests: seq<seq<nat>>,
        cord: Cord)
    requires Sound(cords, streams, unused, spare, dests) && !cord.isConnected && cord.live && cord.next == unused
    ensures Sound(cords + [cord], streams, |cords|, [|cords|] + spare, dests)
    ensures Awake(cords, streams) ==> Awake(cords + [cord], streams)
  {
    AddedPlaced(cords, spare, dests, cord);
    AddedLists(cords, streams, unused, spare, dests, cord);
    FewerInputs(cords, cords + [cord], streams);
    forall s | 0 <= s < |streams|
      ensures Ends(cords + [cord], s) == Ends(cords, s)
    {
      AddedEnds(cords, cord, s);
    }
    SameEndsCounts(cords, cords + [cord], streams);
  }

  /** the end of an unused cord, */
  lemma DroppedSound(cords: seq<Cord>, cords': seq<Cord>, streams: seq<Stream>, unused: int, spare: seq<nat>,
      dests: seq<seq<nat>>, c: nat, k: nat, prev: int)
    requires Sound(cords, streams, unused, spare, dests)
    requires SameBut(cords, cords', c) && cords'[c] == cords[c].(live := false) && !cords[c].isConnected
    requires k < |spare| && spare[k] == c && prev == if k > 0 then spare[k-1] else NULL
    requires prev != NULL ==> prev < |cords| && cords'[prev].next == cords[c].next
    requires forall d :: 0 <= d < |cords| && d != prev ==> cords'[d].next == cords[d].next
    ensures Sound(cords', streams, if prev == NULL then cords[c].next else unused, Removed(spare, k), dests)
    ensures Awake(cords, streams) ==> Awake(cords', streams)
  {
    Dropped(cords, cords', streams, unused, spare, dests, c, k);
    FewerInputs(cords, cords', streams);
    SameEndsCounts(cords, cords', streams);
  }

  /** and a new stream. */
  lemma StreamSound(cords: seq<Cord>, streams: seq<Stream>, unused: int, spare: seq<nat>, dests: seq<seq<nat>>,
        stream: Stream)
    requires Sound(cords, streams, unused, spare, dests)
    requires stream.numConnections == 0 && !stream.active && stream.destinationList == NULL &&
      |stream.queue| == stream.numInputs
    ensures Sound(cords, streams + [stream], unused, spare, dests + [[]])
    ensures Awake(cords, streams) ==> Awake(cords, streams + [stream])
  {
    StreamAdded(cords, streams, unused, spare, dests, stream);
  }

  /** Where a live unconnected cord is. */
  lemma Unused(cords: seq<Cord>, streams: seq<Stream>, unused: int, spare: seq<nat>, dests: seq<seq<nat>>, c: nat)
    requires Sound(cords, streams, unused, spare, dests) && c < |cords| && cords[c].live && !cords[c].isConnected
    ensures Chain(cords, unused, spare) && c in spare
  {
    assert PlacedAt(cords, spare, dests, c);
  }
}

/** The patch cords between audio streams: one list of cords per source stream, one of
    unused cords, and a count of connected ends per stream. */
module PatchCords {
  import opened CordLists
  import opened Sequences
  import opened CordTables

  class AudioStream {
    const numInputs: nat
    /** The blocks waiting at the inputs. */
    var inputQueue: seq<int>
    var destinationList: AudioConnection?
    var nextUpdate: AudioStream?
    var numConnections: nat
    var active: bool
    /** The number of this stream among all. */
    ghost const id: nat

    constructor (numInputs: nat, ghost id: nat)
      ensures this.numInputs == numInputs && this.id == id && nextUpdate == null && destinationList == null
      ensures Value() == Stream(numInputs, seq(numInputs, _ => NO_BLOCK), NULL, 0, false)
    {
      this.numInputs, this.id := numInputs, id;
      inputQueue := seq(numInputs, _ => NO_BLOCK);
      destinationList, nextUpdate, numConnections, active := null, null, 0, false;
    }

    ghost function Value(): Stream
      reads this
    {
      Stream(numInputs, inputQueue, CordId(destinationList), numConnections, active)
    }
  }

  class AudioConnection {
    var src: AudioStream?
    var dst: AudioStream?
    var srcIndex: nat
    var destIndex: nat
    var nextDest: AudioConnection?
    var isConnected: bool
    /** Not destroyed yet. */
    ghost var live: bool
    /** The number of this cord among all. */
    ghost const id: nat

    /** A cord that is linked in before the unused one `next`. */
    constructor (next: AudioConnection?, ghost id: nat)
      ensures this.id == id && nextDest == next && src == null && dst == null
      ensures Value() == Cord(NULL, NULL, 0, 0, CordId(next), false, true)
    {
      this.id := id;
      src, dst, srcIndex, destIndex, nextDest, isConnected, live := null, null, 0, 0, next, false, true;
    }

    ghost function Value(): Cord
      reads this
    {
      Cord(StreamId(src), StreamId(dst), srcIndex, destIndex, CordId(nextDest), isConnected, live)
    }
  }

  ghost function CordId(c: AudioConnection?): int {
    if c == null then NULL else c.id
  }

  ghost function StreamId(s: AudioStream?): int {
    if s == null then NULL else s.id
  }

  ghost predicate KnownCord(all: seq<AudioConnection>, c: AudioConnection?) {
    c != null ==> c.id < |all| && all[c.id] == c
  }

  ghost predicate KnownStream(all: seq<AudioStream>, s: AudioStream?) {
    s != null ==> s.id < |all| && all[s.id] == s
  }

  /** Record `i` of the table tells what cord `i` holds, and its links stay among the known. */
  ghost predicate CordAt(all: seq<AudioConnection>, streams: seq<AudioStream>, cords: seq<Cord>, i: nat)
    requires i < |all| == |cords|
    reads all[i]
  {
    && all[i].id == i && cords[i] == all[i].Value()
    && KnownCord(all, all[i].nextDest) && KnownStream(streams, all[i].src) && KnownStream(streams, all[i].dst)
  }

  /** The same for streams, which are linked in the order they were made in. */
  ghost predicate StreamAt(all: seq<AudioStream>, cords: seq<AudioConnection>, streams: seq<Stream>, s: nat)
    requires s < |all| == |streams|
    reads all[s]
  {
    && all[s].id == s && streams[s] == all[s].Value() && KnownCord(cords, all[s].destinationList)
    && all[s].nextUpdate == if s + 1 < |all| then all[s+1] else null
  }

  class Graph {
    var firstUpdate: AudioStream?
    var unused: AudioConnection?
    /** Every cord and every stream, and all of them as values; streams stay for good. */
    ghost var allCords: seq<AudioConnection>
    ghost var allStreams: seq<AudioStream>
    ghost var cords: seq<Cord>
    ghost var streams: seq<Stream>
    /** The list of unused cords, and the list of every stream. */
    ghost var spare: seq<nat>
    ghost var dests: seq<seq<nat>>
    /** Has disconnecting a cord ever put a stream to sleep that other cords still touched? */
    ghost var overslept: bool

    ghost predicate Mirror()
      reads this`allCords, this`allStreams, this`cords, this`streams, this`firstUpdate, allCords, allStreams
    {
      && |allCords| == |cords| && |allStreams| == |streams|
      && (forall i :: 0 <= i < |allCords| ==> CordAt(allCords, allStreams, cords, i))
      && (forall s :: 0 <= s < |allStreams| ==> StreamAt(allStreams, allCords, streams, s))
      && firstUpdate == if allStreams == [] then null else allStreams[0]
    }

    ghost predicate Valid()
      reads this, allCords, allStreams
    {
      && Mirror() && KnownCord(allCords, unused) && Sound(cords, streams, CordId(unused), spare, dests)
      && (!overslept ==> Awake(cords, streams))
    }

    // ---------- reading and writing one object ----------

    lemma CordReflected(c: AudioConnection)
      requires Mirror() && KnownCord(allCords, c)
      ensures c.id < |cords| && cords[c.id] == c.Value()
      ensures KnownCord(allCords, c.nextDest) && KnownStream(allStreams, c.src) && KnownStream(allStreams, c.dst)
    {
      assert CordAt(allCords, allStreams, cords, c.id);
    }

    lemma StreamReflected(s: AudioStream)
      requires Mirror() && KnownStream(allStreams, s)
      ensures s.id < |streams| && streams[s.id] == s.Value() && KnownCord(allCords, s.destinationList)
      ensures s.nextUpdate == if s.id + 1 < |allStreams| then allStreams[s.id+1] else null
    {
      assert StreamAt(allStreams, allCords, streams, s.id);
    }

    /** After a change to cord `c` only. */
    twostate lemma CordWritten(c: AudioConnection)
      requires old(Mirror()) && KnownCord(allCords, c) && c.id < |cords| == old(|cords|)
      requires allCords == old(allCords) && allStreams == old(allStreams) && streams == old(streams) &&
        firstUpdate == old(firstUpdate)
      requires cords == old(cords)[c.id := c.Value()]
      requires KnownCord(allCords, c.nextDest) && KnownStream(allStreams, c.src) && KnownStream(allStreams, c.dst)
      requires unchanged(set d | d in allCords && d != c) && unchanged(allStreams)
      ensures Mirror()
    {
      forall i | 0 <= i < |allCords|
        ensures CordAt(allCords, allStreams, cords, i)
      {
        assert old(CordAt(allCords, allStreams, cords, i));
      }
      forall s | 0 <= s < |allStreams|
        ensures StreamAt(allStreams, allCords, streams, s)
      {
        assert old(StreamAt(allStreams, allCords, streams, s));
      }
    }

    method SetNext(c: AudioConnection, next: AudioConnection?)
      requires Mirror() && KnownCord(allCords, c) && KnownCord(allCords, next)
      modifies c`nextDest, this`cords
      ensures Mirror() && c.nextDest == next
      ensures c.id < |old(cords)| && cords == WithNext(old(cords), c.id, CordId(next))
    {
      CordReflected(c);
      c.nextDest := next;
      cords := cords[c.id := c.Value()];
      CordWritten(c);
    }

    method SetConnected(c: AudioConnection, isConnected: bool)
      requires Mirror() && KnownCord(allCords, c)
      modifies c`isConnected, this`cords
      ensures Mirror() && c.isConnected == isConnected
      ensures c.id < |old(cords)| && cords == old(cords)[c.id := old(cords)[c.id].(isConnected := isConnected)]
    {
      CordReflected(c);
      c.isConnected := isConnected;
      cords := cords[c.id := c.Value()];
      CordWritten(c);
    }

    method SetEnds(c: AudioConnection, src: AudioStream, srcIndex: nat, dst: AudioStream, destIndex: nat)
      requires Mirror() && KnownCord(allCords, c) && KnownStream(allStreams, src) && KnownStream(allStreams, dst)
      modifies c`src, c`srcIndex, c`dst, c`destIndex, this`cords
      ensures Mirror() && c.id < |old(cords)|
      ensures cords == old(cords)[c.id := old(cords)[c.id].(src := src.id, srcIndex := srcIndex, dst := dst.id,
        destIndex := destIndex)]
    {
      CordReflected(c);
      c.src, c.dst, c.srcIndex, c.destIndex := src, dst, srcIndex, destIndex;
      cords := cords[c.id := c.Value()];
      CordWritten(c);
    }

    /** The end of a cord's life; it has to be off all lists. */
    ghost method Bury(c: AudioConnection)
      requires Mirror() && KnownCord(allCords, c)
      modifies c`live, this`cords
      ensures Mirror() && c.id < |old(cords)| && cords == old(cords)[c.id := old(cords)[c.id].(live := false)]
    {
      CordReflected(c);
      c.live := false;
      cords := cords[c.id := c.Value()];
      CordWritten(c);
    }

    /** After a change to stream `s` only. */
    twostate lemma StreamWritten(s: AudioStream)
      requires old(Mirror()) && KnownStream(allStreams, s) && s.id < |streams| == old(|streams|)
      requires allCords == old(allCords) && allStreams == old(allStreams) && cords == old(cords) &&
        firstUpdate == old(firstUpdate)
      requires streams == old(streams)[s.id := s.Value()]
      requires KnownCord(allCords, s.destinationList) && s.nextUpdate == old(s.nextUpdate)
      requires unchanged(set t | t in allStreams && t != s) && unchanged(allCords)
      ensures Mirror()
    {
      forall i | 0 <= i < |allCords|
        ensures CordAt(allCords, allStreams, cords, i)
      {
        assert old(CordAt(allCords, allStreams, cords, i));
      }
      forall t | 0 <= t < |allStreams|
        ensures StreamAt(allStreams, allCords, streams, t)
      {
        assert old(StreamAt(allStreams, allCords, streams, t));
      }
    }

    method SetDestinations(s: AudioStream, head: AudioConnection?)
      requires Mirror() && KnownStream(allStreams, s) && KnownCord(allCords, head)
      modifies s`destinationList, this`streams
      ensures Mirror() && s.destinationList == head
      ensures s.id < |old(streams)| &&
        streams == old(streams)[s.id := old(streams)[s.id].(destinationList := CordId(head))]
    {
      StreamReflected(s);
      s.destinationList := head;
      streams := streams[s.id := s.Value()];
      StreamWritten(s);
    }

    method AddEnd(s: AudioStream)
      requires Mirror() && KnownStream(allStreams, s)
      modifies s`numConnections, s`active, this`streams
      ensures Mirror() && s.id < |old(streams)| && streams == EndAdded(old(streams), s.id)
    {
      StreamReflected(s);
      s.numConnections := (s.numConnections + 1) % 256;
      s.active := true;
      streams := streams[s.id := s.Value()];
      StreamWritten(s);
    }

    method DropEnd(s: AudioStream)
      requires Mirror() && KnownStream(allStreams, s)
      modifies s`numConnections, s`active, this`streams
      ensures Mirror() && s.id < |old(streams)| && streams == EndDropped(old(streams), s.id)
    {
      StreamReflected(s);
      s.numConnections := (s.numConnections + 255) % 256;
      if s.numConnections == 0 {
        s.active := false;
      }
      streams := streams[s.id := s.Value()];
      StreamWritten(s);
    }

    /** Takes what waits at an input. */
    method EmptyInput(s: AudioStream, input: nat) returns (block: int)
      requires Mirror() && KnownStream(allStreams, s) && input < |s.inputQueue|
      modifies s`inputQueue, this`streams
      ensures Mirror() && s.id < |old(streams)| && input < |old(streams)[s.id].queue|
      ensures block == old(streams)[s.id].queue[input] && streams == Emptied(old(streams), s.id, input)
    {
      StreamReflected(s);
      block := s.inputQueue[input];
      s.inputQueue := s.inputQueue[input := NO_BLOCK];
      streams := streams[s.id := s.Value()];
      StreamWritten(s);
    }

    // ---------- searching ----------

    /** Is some cord on the list of `s` leading to this input? */
    method LeadsTo(s: AudioStream, dst: AudioStream, destIndex: nat) returns (leads: bool)
      requires Valid() && KnownStream(allStreams, s) && KnownStream(allStreams, dst) && s.id < |dests|
      ensures leads ==> Taken(cords, dst.id, destIndex)
      ensures !leads ==> forall c :: c in dests[s.id] ==>
        c < |cords| && (cords[c].dst != dst.id || cords[c].destIndex != destIndex)
    {
      ghost var list := dests[s.id];
      StreamReflected(s);
      assert ListAt(cords, streams, dests, s.id) && DestsAt(cords, dests, s.id);
      var p := s.destinationList;
      ghost var j := 0;
      while p != null
        invariant j <= |list| && KnownCord(allCords, p) && CordId(p) == if j < |list| then list[j] else NULL
        invariant forall i :: 0 <= i < j ==> cords[list[i]].dst != dst.id || cords[list[i]].destIndex != destIndex
        decreases |list| - j
      {
        CordReflected(p);
        if p.dst == dst && p.destIndex == destIndex {
          return true;
        }
        assert LinkAt(cords, list, j);
        p := p.nextDest;
        j := j + 1;
      }
      leads := false;
    }

    /** Is some cord leading to this input? */
    method InputInUse(dst: AudioStream, destIndex: nat) returns (used: bool)
      requires Valid() && KnownStream(allStreams, dst)
      ensures used <==> Taken(cords, dst.id, destIndex)
    {
      var s := firstUpdate;
      ghost var k := 0;
      while s != null
        invariant k <= |allStreams| && s == if k < |allStreams| then allStreams[k] else null
        invariant forall r :: 0 <= r < k ==> forall c :: c in dests[r] ==>
          c < |cords| && (cords[c].dst != dst.id || cords[c].destIndex != destIndex)
        decreases |allStreams| - k
      {
        assert StreamAt(allStreams, allCords, streams, k);
        used := LeadsTo(s, dst, destIndex);
        if used {
          return;
        }
        s := s.nextUpdate;
        k := k + 1;
      }
      forall c | 0 <= c < |cords| && cords[c].isConnected
        ensures cords[c].dst != dst.id || cords[c].destIndex != destIndex
      {
        assert PlacedAt(cords, spare, dests, c);
      }
      used := false;
    }

    /** The cord before `c` on the list from `head`, null if `c` is the first one. */
    method FindBefore(head: AudioConnection?, ghost s: seq<nat>, c: AudioConnection)
      returns (prev: AudioConnection?, ghost k: nat)
      requires Mirror() && KnownCord(allCords, head) && KnownCord(allCords, c)
      requires Chain(cords, CordId(head), s) && c.id in s
      ensures k < |s| && s[k] == c.id && KnownCord(allCords, prev)
      ensures CordId(prev) == if k > 0 then s[k-1] else NULL
    {
      prev, k := null, 0;
      var p := head;
      while p != c
        invariant k < |s| && p != null && KnownCord(allCords, p) && p.id == s[k] && c.id in s[k..]
        invariant KnownCord(allCords, prev) && CordId(prev) == if k > 0 then s[k-1] else NULL
        decreases |s| - k
      {
        CordReflected(p);
        assert LinkAt(cords, s, k);
        prev := p;
        p := p.nextDest;
        k := k + 1;
      }
    }

    /** Links `c` in behind `last`, out from behind `prev`, and marks it connected. */
    method Splice(prev: AudioConnection?, last: AudioConnection?, c: AudioConnection)
      requires Mirror() && KnownCord(allCords, c) && KnownCord(allCords, prev) && KnownCord(allCords, last)
      requires prev != c && last != c && (prev == last ==> prev == null)
      modifies allCords, this`cords
      ensures Mirror() && c.id < |old(cords)| && SameBut(old(cords), cords, c.id)
      ensures cords[c.id] == old(cords)[c.id].(next := NULL, isConnected := true)
      ensures last != null ==> cords[last.id].next == c.id
      ensures prev != null ==> cords[prev.id].next == old(cords)[c.id].next
      ensures forall d :: 0 <= d < |cords| && d != c.id && d != CordId(prev) && d != CordId(last) ==>
        cords[d] == old(cords)[d]
    {
      if last != null {
        SetNext(last, c);
      }
      if prev != null {
        CordReflected(c);
        SetNext(prev, c.nextDest);
      }
      SetNext(c, null);
      SetConnected(c, true);
    }

    // ---------- connecting ----------

    /** Looks for `c` on the unused list, and for the cord before it there. */
    method FindUnused(c: AudioConnection) returns (found: bool, prev: AudioConnection?, ghost k: nat)
      requires Mirror() && KnownCord(allCords, unused) && KnownCord(allCords, c) && Chain(cords, CordId(unused), spare)
      ensures found <==> c.id in spare
      ensures found ==> k < |spare| && spare[k] == c.id && CordId(prev) == if k > 0 then spare[k-1] else NULL
      ensures KnownCord(allCords, prev)
    {
      prev, k := null, 0;
      var p := unused;
      while p != null && p != c
        invariant k <= |spare| && KnownCord(allCords, p) && CordId(p) == if k < |spare| then spare[k] else NULL
        invariant KnownCord(allCords, prev) && CordId(prev) == if k > 0 then spare[k-1] else NULL
        invariant c.id !in spare[..k]
        decreases |spare| - k
      {
        CordReflected(p);
        assert LinkAt(cords, spare, k);
        prev := p;
        p := p.nextDest;
        k := k + 1;
      }
      found := p != null;
    }

    /** Walks to the end of a list and looks for `c` before its last cord: comparing the
        addresses of the fields of two cords, as the original does, compares the cords. */
    method FindEnd(head: AudioConnection?, ghost s: seq<nat>, c: AudioConnection)
        returns (duplicate: bool, last: AudioConnection?)
      requires Mirror() && KnownCord(allCords, head) && KnownCord(allCords, c) && Chain(cords, CordId(head), s)
      ensures duplicate ==> c.id in s
      ensures KnownCord(allCords, last) && (!duplicate ==> CordId(last) == if s == [] then NULL else s[|s|-1])
    {
      duplicate, last := false, head;
      if head == null {
        return;
      }
      ghost var k := 0;
      CordReflected(last);
      assert LinkAt(cords, s, 0);
      while last.nextDest != null
        invariant k < |s| && last != null && KnownCord(allCords, last) && last.id == s[k] && LinkAt(cords, s, k)
        invariant CordId(last.nextDest) == cords[last.id].next
        decreases |s| - k
      {
        if last == c {
          return true, last;
        }
        CordReflected(last);
        last := last.nextDest;
        CordReflected(last);
        k := k + 1;
        assert LinkAt(cords, s, k);
      }
    }

    /** Splices `c` out of the unused list and in at the end of its source's list. */
    method Move(prev: AudioConnection?, last: AudioConnection?, c: AudioConnection)
      requires Mirror() && KnownCord(allCords, c) && KnownCord(allCords, prev) && KnownCord(allCords, last)
      requires KnownCord(allCords, unused) && c.src != null
      requires prev != c && last != c && (prev == last ==> prev == null)
      modifies allCords, allStreams, this`cords, this`streams, this`unused
      ensures Mirror() && c.id < |old(cords)| && SameBut(old(cords), cords, c.id)
      ensures cords[c.id] == old(cords)[c.id].(next := NULL, isConnected := true)
      ensures last != null ==> cords[last.id].next == c.id
      ensures prev != null ==> cords[prev.id].next == old(cords)[c.id].next
      ensures forall d :: 0 <= d < |cords| && d != c.id && d != CordId(prev) && d != CordId(last) ==>
        cords[d] == old(cords)[d]
      ensures KnownCord(allCords, unused) &&
        CordId(unused) == if prev == null then old(cords)[c.id].next else old(CordId(unused))
      ensures 0 <= old(cords)[c.id].src < |old(streams)| && var src := old(cords)[c.id].src;
        streams == if last == null then old(streams)[src := old(streams)[src].(destinationList := c.id)]
          else old(streams)
    {
      CordReflected(c);
      StreamReflected(c.src);
      if last == null {
        SetDestinations(c.src, c);
      }
      if prev == null {
        unused := c.nextDest;
      }
      Splice(prev, last, c);
    }

    /** Moves `c` to its source's list and wakes up the streams at both ends. */
    method MoveAndWake(prev: AudioConnection?, last: AudioConnection?, c: AudioConnection)
      returns (ghost streams1: seq<Stream>)
      requires Mirror() && KnownCord(allCords, c) && KnownCord(allCords, prev) && KnownCord(allCords, last)
      requires KnownCord(allCords, unused) && c.src != null && c.dst != null
      requires prev != c && last != c && (prev == last ==> prev == null)
      modifies allCords, allStreams, this`cords, this`streams, this`unused
      ensures Mirror() && c.id < |old(cords)| && SameBut(old(cords), cords, c.id)
      ensures cords[c.id] == old(cords)[c.id].(next := NULL, isConnected := true)
      ensures last != null ==> cords[last.id].next == c.id
      ensures prev != null ==> cords[prev.id].next == old(cords)[c.id].next
      ensures forall d :: 0 <= d < |cords| && d != c.id && d != CordId(prev) && d != CordId(last) ==>
        cords[d] == old(cords)[d]
      ensures KnownCord(allCords, unused) &&
        CordId(unused) == if prev == null then old(cords)[c.id].next else old(CordId(unused))
      ensures 0 <= old(cords)[c.id].src < |old(streams)| && 0 <= old(cords)[c.id].dst < |streams1|
      ensures var src := old(cords)[c.id].src;
        streams1 == if last == null then old(streams)[src := old(streams)[src].(destinationList := c.id)]
          else old(streams)
      ensures streams == EndAdded(EndAdded(streams1, old(cords)[c.id].src), old(cords)[c.id].dst)
    {
      hide SameBut, EndAdded;
      CordReflected(c);
      StreamReflected(c.dst);
      Move(prev, last, c);
      streams1 := streams;
      CordReflected(c);
      AddEnd(c.src);
      AddEnd(c.dst);
    }

    /** Connects a cord that can be connected; it goes to the end of its source's list. */
    method Plug(c: AudioConnection, prev: AudioConnection?, last: AudioConnection?, ghost k: nat)
      requires Valid() && KnownCord(allCords, c) && c.live && c.id < |cords| && Connectable(cords, streams, c.id)
      requires KnownCord(allCords, prev) && KnownCord(allCords, last) && prev != c && last != c &&
        (prev == last ==> prev == null)
      requires k < |spare| && spare[k] == c.id && CordId(prev) == if k > 0 then spare[k-1] else NULL
      requires cords[c.id].src < |dests| && var dest := dests[cords[c.id].src];
        CordId(last) == if dest == [] then NULL else dest[|dest|-1]
      modifies this`cords, this`streams, this`unused, this`spare, this`dests, allCords, allStreams
      ensures Valid() && c.id < |cords| && SameBut(old(cords), cords, c.id)
      ensures cords[c.id] == old(cords)[c.id].(next := NULL, isConnected := true)
      ensures SameQueues(old(streams), streams) && (old(Awake(cords, streams)) ==> Awake(cords, streams))
      ensures var src := old(cords)[c.id].src;
        0 <= src < |old(dests)| && dests == old(dests)[src := old(dests)[src] + [c.id]]
    {
      hide Sound, SameBut, SameQueues, Removed, EndAdded, Awake;
      ghost var cords0, streams0, unused0 := cords, streams, CordId(unused);
      CordReflected(c);
      ghost var streams1 := MoveAndWake(prev, last, c);
      Plugged(cords0, cords, streams0, streams1, unused0, spare, dests, c.id, k, CordId(prev), CordId(last));
      spare := Removed(spare, k);
      ghost var src := cords0[c.id].src;
      dests := dests[src := dests[src] + [c.id]];
    }

    /** connect() once the ends and the input have been checked: finds the cord on the unused
        list and the end of its source's list, where it is not yet. */
    method Relink(c: AudioConnection) returns (result: int)
      requires Valid() && KnownCord(allCords, c) && c.id < |cords| && Connectable(cords, streams, c.id)
      requires c.live && c.src != null && c.dst != null
      modifies this`cords, this`streams, this`unused, this`spare, this`dests, allCords, allStreams
      ensures result == 0 && Valid() && c.id < |cords| == |old(cords)| && SameQueues(old(streams), streams)
      ensures old(Awake(cords, streams)) ==> Awake(cords, streams)
      ensures SameBut(old(cords), cords, c.id) && cords[c.id] == old(cords)[c.id].(next := NULL, isConnected := true)
      ensures var src := old(cords)[c.id].src;
        0 <= src < |old(dests)| && dests == old(dests)[src := old(dests)[src] + [c.id]]
    {
      hide SameBut, Awake, Exclusive, InputsExist, Counted, Lists, Placed;
      CordReflected(c);
      StreamReflected(c.src);
      StreamReflected(c.dst);
      BeforeRelinking(cords, streams, CordId(unused), spare, dests, c.id);
      var found, duplicate, prev, last;
      ghost var k;
      found, prev, k := FindUnused(c);
      result := 0;
      if !found {
        result := 5;
      }
      if result == 0 {
        duplicate, last := FindEnd(c.src.destinationList, dests[c.src.id], c);
        if duplicate {
          result := 6;
        }
      }
      if result == 0 {
        assert last != null ==> last.id in dests[c.src.id] && cords[last.id].isConnected;
        assert prev != null ==> prev.id in spare && !cords[prev.id].isConnected;
        Plug(c, prev, last, k);
      }
    }

    /** Connects a cord whose ends are set, if it can be.  Results 5 and 6 never occur: a cord
        that is not connected is always on the unused list, and on no list of a stream. */
    method Connect(c: AudioConnection) returns (result: int)
      requires Valid() && KnownCord(allCords, c) && c.live
      modifies this`cords, this`streams, this`unused, this`spare, this`dests, allCords, allStreams
      ensures Valid() && c.id < |cords| == |old(cords)|
      ensures result == 0 <==> Connectable(old(cords), old(streams), c.id)
      ensures result == 1 <==> old(cords)[c.id].isConnected
      ensures result == 3 <==> !old(cords)[c.id].isConnected && (old(cords)[c.id].src < 0 || old(cords)[c.id].dst < 0)
      ensures result == 2 <==> (
        && !old(cords)[c.id].isConnected && old(cords)[c.id].src >= 0 && 0 <= old(cords)[c.id].dst < |old(streams)|
        && old(cords)[c.id].destIndex >= old(streams)[old(cords)[c.id].dst].numInputs)
      ensures 0 <= result <= 4 && SameQueues(old(streams), streams) &&
        (old(Awake(cords, streams)) ==> Awake(cords, streams))
      ensures if result == 0
        then SameBut(old(cords), cords, c.id) && cords[c.id] == old(cords)[c.id].(next := NULL, isConnected := true)
        else cords == old(cords) && streams == old(streams) && unused == old(unused) && dests == old(dests)
      ensures result == 0 ==> var src := old(cords)[c.id].src;
        0 <= src < |old(dests)| && dests == old(dests)[src := old(dests)[src] + [c.id]]
    {
      hide SameBut, Awake, Exclusive, InputsExist, Counted, Lists, Placed;
      CordReflected(c);
      if c.isConnected {
        return 1;
      }
      if c.src == null || c.dst == null {
        return 3;
      }
      StreamReflected(c.src);
      StreamReflected(c.dst);
      if c.destIndex >= c.dst.numInputs {
        return 2;
      }
      var used := InputInUse(c.dst, c.destIndex);
      if used {
        return 4;
      }
      result := Relink(c);
    }

    /** Aims a cord at new ends and connects it. */
    method ConnectTo(c: AudioConnection, src: AudioStream, srcIndex: nat, dst: AudioStream, destIndex: nat)
      returns (result: int)
      requires Valid() && KnownCord(allCords, c) && c.live && KnownStream(allStreams, src) &&
        KnownStream(allStreams, dst)
      modifies this`cords, this`streams, this`unused, this`spare, this`dests, allCords, allStreams
      ensures Valid() && c.id < |cords| == |old(cords)|
      ensures result == 1 <==> old(cords)[c.id].isConnected
      ensures old(cords)[c.id].isConnected ==> cords == old(cords) && streams == old(streams)
      ensures !old(cords)[c.id].isConnected ==>
        var aimed := old(cords)[c.id].(src := src.id, srcIndex := srcIndex, dst := dst.id, destIndex := destIndex);
        && (result == 0 <==> Connectable(old(cords)[c.id := aimed], old(streams), c.id))
        && (cords[c.id].isConnected <==> result == 0)
        && cords[c.id] == aimed.(next := cords[c.id].next, isConnected := cords[c.id].isConnected)
      ensures SameBut(old(cords), cords, c.id) && SameQueues(old(streams), streams)
      ensures old(Awake(cords, streams)) ==> Awake(cords, streams)
      ensures src.id < |old(dests)| &&
        dests == if result == 0 then old(dests)[src.id := old(dests)[src.id] + [c.id]] else old(dests)
    {
      hide Sound, Awake;
      CordReflected(c);
      StreamReflected(src);
      StreamsListed();
      result := 1;
      if !c.isConnected {
        AimedSound(cords, streams, CordId(unused), spare, dests, c.id,
          cords[c.id].(src := src.id, srcIndex := srcIndex, dst := dst.id, destIndex := destIndex));
        SetEnds(c, src, srcIndex, dst, destIndex);
        result := Connect(c);
      }
    }

    lemma StreamsListed()
      requires Valid()
      ensures |dests| == |streams| == |allStreams|
    {
    }

    // ---------- disconnecting ----------

    /** Cuts a connected cord out of its source's list, behind `prev`. */
    method CutOut(prev: AudioConnection?, c: AudioConnection)
      requires Mirror() && KnownCord(allCords, c) && KnownCord(allCords, prev) && prev != c && c.src != null
      modifies allCords, allStreams, this`cords, this`streams
      ensures Mirror() && c.id < |old(cords)| && 0 <= old(cords)[c.id].src < |old(streams)|
      ensures cords == if prev == null then old(cords) else WithNext(old(cords), prev.id, old(cords)[c.id].next)
      ensures var src := old(cords)[c.id].src;
        streams == if prev == null
          then old(streams)[src := old(streams)[src].(destinationList := old(cords)[c.id].next)] else old(streams)
    {
      CordReflected(c);
      StreamReflected(c.src);
      if prev == null {
        SetDestinations(c.src, c.nextDest);
      } else {
        CordReflected(prev);
        SetNext(prev, c.nextDest);
      }
    }

    /** Empties the input of a cord and lets the streams at both ends fall asleep. */
    method LetGo(c: AudioConnection) returns (released: int)
      requires Mirror() && KnownCord(allCords, c) && c.src != null && c.dst != null && c.destIndex < |c.dst.inputQueue|
      modifies allStreams, this`streams
      ensures Mirror() && c.id < |cords|
      ensures 0 <= cords[c.id].src < |old(streams)| && 0 <= cords[c.id].dst < |old(streams)|
      ensures var dst, input := cords[c.id].dst, cords[c.id].destIndex;
        && input < |old(streams)[dst].queue| && released == old(streams)[dst].queue[input]
        && streams == EndDropped(EndDropped(Emptied(old(streams), dst, input), cords[c.id].src), dst)
    {
      hide EndDropped, Emptied;
      CordReflected(c);
      StreamReflected(c.src);
      StreamReflected(c.dst);
      released := EmptyInput(c.dst, c.destIndex);
      CordReflected(c);
      DropEnd(c.src);
      DropEnd(c.dst);
    }

    /** Puts `c` at the front of the unused list. */
    method SetAside(c: AudioConnection)
      requires Mirror() && KnownCord(allCords, c) && KnownCord(allCords, unused)
      modifies c, this`cords, this`unused
      ensures Mirror() && c.id < |old(cords)| && KnownCord(allCords, unused) && CordId(unused) == c.id
      ensures cords == old(cords)[c.id := old(cords)[c.id].(next := old(CordId(unused)), isConnected := false)]
    {
      SetConnected(c, false);
      SetNext(c, unused);
      unused := c;
    }

    /** Takes a connected cord that is listed behind `prev` from its source to the unused list. */
    method TakeOut(prev: AudioConnection?, c: AudioConnection) returns (released: int, ghost streams1: seq<Stream>)
      requires Mirror() && KnownCord(allCords, c) && KnownCord(allCords, prev) && prev != c &&
        KnownCord(allCords, unused)
      requires c.src != null && c.dst != null && c.destIndex < |c.dst.inputQueue|
      modifies allCords, allStreams, this`cords, this`streams, this`unused
      ensures Mirror() && c.id < |old(cords)| && KnownCord(allCords, unused) && CordId(unused) == c.id
      ensures SameBut(old(cords), cords, c.id)
      ensures cords[c.id] == old(cords)[c.id].(next := old(CordId(unused)), isConnected := false)
      ensures prev != null ==> cords[prev.id].next == old(cords)[c.id].next
      ensures forall d :: 0 <= d < |cords| && d != c.id && d != CordId(prev) ==> cords[d] == old(cords)[d]
      ensures 0 <= old(cords)[c.id].src < |old(streams)| == |streams1| && 0 <= old(cords)[c.id].dst < |streams1|
      ensures var src := old(cords)[c.id].src;
        streams1 == if prev == null
          then old(streams)[src := old(streams)[src].(destinationList := old(cords)[c.id].next)] else old(streams)
      ensures var dst, input := old(cords)[c.id].dst, old(cords)[c.id].destIndex;
        && input < |streams1[dst].queue| == |old(streams)[dst].queue| && released == old(streams)[dst].queue[input]
        && streams == EndDropped(EndDropped(Emptied(streams1, dst, input), old(cords)[c.id].src), dst)
    {
      hide EndDropped, Emptied;
      CordReflected(c);
      StreamReflected(c.dst);
      CutOut(prev, c);
      streams1 := streams;
      CordReflected(c);
      StreamReflected(c.dst);
      released := LetGo(c);
      SetAside(c);
    }

    /** The cord before a connected cord on its source's list. */
    method FindListed(c: AudioConnection) returns (prev: AudioConnection?, ghost k: nat)
      requires Valid() && KnownCord(allCords, c) && c.isConnected
      ensures c.src != null && c.dst != null && c.src.id < |dests| == |streams| && c.dst.id < |streams|
      ensures c.destIndex < |c.dst.inputQueue| == |streams[c.dst.id].queue|
      ensures KnownCord(allCords, prev) && prev != c && k < |dests[c.src.id]| && dests[c.src.id][k] == c.id
      ensures CordId(prev) == if k > 0 then dests[c.src.id][k-1] else NULL
    {
      hide Sound;
      CordReflected(c);
      BeforeUnlinking(cords, streams, CordId(unused), spare, dests, c.id);
      StreamReflected(c.src);
      StreamReflected(c.dst);
      prev, k := FindBefore(c.src.destinationList, dests[c.src.id], c);
    }

    method Remove(c: AudioConnection) returns (released: int, ghost k: nat)
      requires Valid() && KnownCord(allCords, c) && c.live && c.isConnected
      modifies this`cords, this`streams, this`unused, this`spare, this`dests, this`overslept, allCords, allStreams
      ensures Valid() && c.id < |cords| == |old(cords)|
      ensures overslept <==> old(overslept) || PutsToSleep(old(cords), c.id)
      ensures SleepsAfter(old(cords), old(streams), cords, streams, c.id)
      ensures SameBut(old(cords), cords, c.id) && !cords[c.id].isConnected && cords[c.id].live
      ensures var dst, input := old(cords)[c.id].dst, old(cords)[c.id].destIndex;
        && 0 <= dst < |streams| == |old(streams)| && input < |old(streams)[dst].queue|
        && released == old(streams)[dst].queue[input]
        && SameQueues(Emptied(old(streams), dst, input), streams) && Cut(old(cords), old(dests), c.id, k, dests)
    {
      hide Sound, SameQueues, Emptied, EndDropped, SameBut, PutsToSleep, SleepsAfter, Awake, Cut, Removed;
      ghost var cords0, streams0, unused0 := cords, streams, CordId(unused);
      CordReflected(c);
      var prev;
      prev, k := FindListed(c);
      ghost var streams1;
      released, streams1 := TakeOut(prev, c);
      Unplugged(cords0, cords, streams0, streams1, unused0, spare, dests, c.id, k, CordId(prev));
      overslept := overslept || PutsToSleep(cords0, c.id);
      spare := [c.id] + spare;
      dests := dests[cords0[c.id].src := Removed(dests[cords0[c.id].src], k)];
    }

    /** Disconnects a cord; a block waiting at its input is handed back for release. */
    method Disconnect(c: AudioConnection) returns (result: nat, released: int, ghost k: nat)
      requires Valid() && KnownCord(allCords, c) && c.live
      modifies this`cords, this`streams, this`unused, this`spare, this`dests, this`overslept, allCords, allStreams
      ensures Valid() && c.id < |cords| == |old(cords)|
      ensures result == if old(cords)[c.id].isConnected then 0 else 1
      ensures !old(cords)[c.id].isConnected ==>
        released == NO_BLOCK && cords == old(cords) && streams == old(streams) && dests == old(dests)
      ensures overslept <==> old(overslept) || (old(cords)[c.id].isConnected && PutsToSleep(old(cords), c.id))
      ensures old(cords)[c.id].isConnected ==> SleepsAfter(old(cords), old(streams), cords, streams, c.id)
      ensures SameBut(old(cords), cords, c.id) && !cords[c.id].isConnected && cords[c.id].live
      ensures old(cords)[c.id].isConnected ==>
        var dst, input := old(cords)[c.id].dst, old(cords)[c.id].destIndex;
        && 0 <= dst < |streams| && input < |old(streams)[dst].queue|
        && released == old(streams)[dst].queue[input]
        && SameQueues(Emptied(old(streams), dst, input), streams) && Cut(old(cords), old(dests), c.id, k, dests)
      ensures old(cords)[c.id].isConnected ==>
        var dst, input := old(cords)[c.id].dst, old(cords)[c.id].destIndex;
        && 0 <= dst < |streams| == |old(streams)|
        && input < |streams[dst].queue| && streams[dst].queue[input] == NO_BLOCK
        && (forall s :: 0 <= s < |streams| ==> |streams[s].queue| == |old(streams)[s].queue|)
        && forall s, i :: 0 <= s < |streams| && 0 <= i < |streams[s].queue| && (s != dst || i != input) ==>
             streams[s].queue[i] == old(streams)[s].queue[i]
    {
      hide Sound, SameQueues, Emptied, EndDropped, PutsToSleep, SleepsAfter, Awake;
      CordReflected(c);
      ghost var streams0, cord := streams, cords[c.id];
      released, k := NO_BLOCK, 0;
      if !c.isConnected {
        return 1, NO_BLOCK, 0;
      }
      released, k := Remove(c);
      EmptiedSlots(streams0, streams, cord.dst, cord.destIndex);
      result := 0;
    }

    // ---------- cords and streams that come and go ----------

    /** A cord that is on the unused list and leads nowhere yet. */
    method Enlist() returns (c: AudioConnection)
      requires Valid()
      modifies this`allCords, this`cords, this`unused, this`spare
      ensures Valid() && fresh(c) && allCords == old(allCords) + [c] && c.id == |old(cords)| && c.live
      ensures cords == old(cords) + [Cord(NULL, NULL, 0, 0, old(CordId(unused)), false, true)]
      ensures old(Awake(cords, streams)) ==> Awake(cords, streams)
    {
      hide Sound, Awake;
      ghost var all := allCords;
      c := new AudioConnection(unused, |allCords|);
      AddedSound(cords, streams, CordId(unused), spare, dests, c.Value());
      allCords := allCords + [c];
      cords := cords + [c.Value()];
      unused := c;
      spare := [c.id] + spare;
      forall i | 0 <= i < |allCords|
        ensures CordAt(allCords, allStreams, cords, i)
      {
        assert i < |all| ==> old(CordAt(allCords, allStreams, cords, i));
      }
      forall s | 0 <= s < |allStreams|
        ensures StreamAt(allStreams, allCords, streams, s)
      {
        assert old(StreamAt(allStreams, allCords, streams, s));
      }
    }

    /** A new cord starts on the unused list and tries to connect. */
    method NewCord(src: AudioStream, srcIndex: nat, dst: AudioStream, destIndex: nat)
      returns (c: AudioConnection, result: int)
      requires Valid() && KnownStream(allStreams, src) && KnownStream(allStreams, dst)
      modifies this`allCords, this`cords, this`streams, this`unused, this`spare, this`dests, allCords, allStreams
      ensures Valid() && fresh(c) && allCords == old(allCords) + [c] && c.id == |old(cords)| && |cords| == c.id + 1 &&
        result != 1
      ensures dst.id < |old(streams)|
      ensures result == 0 <==> destIndex < old(streams)[dst.id].numInputs && !Taken(old(cords), dst.id, destIndex)
      ensures cords[c.id] == Cord(src.id, dst.id, srcIndex, destIndex, cords[c.id].next, result == 0, true)
      ensures forall d :: 0 <= d < c.id ==> cords[d] == old(cords)[d].(next := cords[d].next)
      ensures src.id < |old(dests)| &&
        dests == if result == 0 then old(dests)[src.id := old(dests)[src.id] + [c.id]] else old(dests)
      ensures SameQueues(old(streams), streams) && (old(Awake(cords, streams)) ==> Awake(cords, streams))
    {
      hide Sound, Taken, Awake;
      StreamReflected(src);
      StreamReflected(dst);
      c := Enlist();
      ghost var aimed := cords[c.id].(src := src.id, srcIndex := srcIndex, dst := dst.id, destIndex := destIndex);
      SameTaken(old(cords), cords[c.id := aimed], dst.id, destIndex);
      result := ConnectTo(c, src, srcIndex, dst, destIndex);
    }

    /** Takes an unused cord off the unused list for good. */
    method Strike(c: AudioConnection)
      requires Valid() && KnownCord(allCords, c) && c.live && !c.isConnected
      modifies this`cords, this`unused, this`spare, allCords
      ensures Valid() && c.id < |cords| && SameBut(old(cords), cords, c.id) && !cords[c.id].live &&
        !cords[c.id].isConnected
      ensures old(Awake(cords, streams)) ==> Awake(cords, streams)
    {
      hide Sound, Awake, Removed, StreamAt;
      ghost var cords0, unused0 := cords, CordId(unused);
      CordReflected(c);
      Unused(cords, streams, unused0, spare, dests, c.id);
      var prev;
      ghost var k;
      prev, k := FindBefore(unused, spare, c);
      if prev == null {
        unused := c.nextDest;
      } else {
        SetNext(prev, c.nextDest);
      }
      Bury(c);
      DroppedSound(cords0, cords, streams, unused0, spare, dests, c.id, k, CordId(prev));
      spare := Removed(spare, k);
    }

    /** Destroys a cord; a block waiting at its input is handed back for release. */
    method Destroy(c: AudioConnection) returns (released: int, ghost k: nat)
      requires Valid() && KnownCord(allCords, c) && c.live
      modifies this`cords, this`streams, this`unused, this`spare, this`dests, this`overslept, allCords, allStreams
      ensures Valid() && c.id < |cords| == |old(cords)| && SameBut(old(cords), cords, c.id)
      ensures !cords[c.id].live && !cords[c.id].isConnected
      ensures !old(cords)[c.id].isConnected ==>
        released == NO_BLOCK && streams == old(streams) && dests == old(dests) && overslept == old(overslept)
      ensures old(cords)[c.id].isConnected ==>
        var dst, input := old(cords)[c.id].dst, old(cords)[c.id].destIndex;
        && 0 <= dst < |streams| && input < |old(streams)[dst].queue|
        && released == old(streams)[dst].queue[input] && SameQueues(Emptied(old(streams), dst, input), streams)
        && Cut(old(cords), old(dests), c.id, k, dests)
        && (overslept <==> old(overslept) || PutsToSleep(old(cords), c.id))
      ensures old(cords)[c.id].isConnected ==>
        var dst, input := old(cords)[c.id].dst, old(cords)[c.id].destIndex;
        && 0 <= dst < |streams| == |old(streams)|
        && input < |streams[dst].queue| && streams[dst].queue[input] == NO_BLOCK
        && (forall s :: 0 <= s < |streams| ==> |streams[s].queue| == |old(streams)[s].queue|)
        && forall s, i :: 0 <= s < |streams| && 0 <= i < |streams[s].queue| && (s != dst || i != input) ==>
             streams[s].queue[i] == old(streams)[s].queue[i]
    {
      hide Sound, SameQueues, Emptied, PutsToSleep, SleepsAfter, Awake, Cut;
      var result;
      result, released, k := Disconnect(c);
      CordReflected(c);
      Strike(c);
    }

    /** The stream made last. */
    method FindNewest() returns (last: AudioStream?)
      requires Mirror()
      ensures last == if allStreams == [] then null else allStreams[|allStreams|-1]
    {
      last := firstUpdate;
      if last != null {
        ghost var k := 0;
        assert StreamAt(allStreams, allCords, streams, 0);
        while last.nextUpdate != null
          invariant k < |allStreams| && last == allStreams[k]
          invariant last.nextUpdate == if k + 1 < |allStreams| then allStreams[k+1] else null
          decreases |allStreams| - k
        {
          last := last.nextUpdate;
          k := k + 1;
          assert StreamAt(allStreams, allCords, streams, k);
        }
      }
    }

    /** Links a new stream in at the end of the list of streams. */
    method LinkNewest(s: AudioStream)
      requires Mirror() && s !in allStreams && s.id == |allStreams| && s.nextUpdate == null && s.destinationList == null
      modifies this`firstUpdate, this`allStreams, this`streams, allStreams
      ensures Mirror() && allStreams == old(allStreams) + [s] && streams == old(streams) + [old(s.Value())]
    {
      ghost var all := allStreams;
      var last := FindNewest();
      if last == null {
        firstUpdate := s;
      } else {
        last.nextUpdate := s;
      }
      allStreams := allStreams + [s];
      streams := streams + [s.Value()];
      forall i | 0 <= i < |allCords|
        ensures CordAt(allCords, allStreams, cords, i)
      {
        assert old(CordAt(allCords, allStreams, cords, i));
      }
      forall t | 0 <= t < |allStreams|
        ensures StreamAt(allStreams, allCords, streams, t)
      {
        if t < |all| {
          assert old(StreamAt(allStreams, allCords, streams, t)) &&
            old(StreamAt(allStreams, allCords, streams, |allStreams| - 1));
        }
      }
    }

    /** A new stream goes to the end of the list of streams. */
    method NewStream(numInputs: nat) returns (s: AudioStream)
      requires Valid()
      modifies this`firstUpdate, this`allStreams, this`streams, this`dests, allStreams
      ensures Valid() && fresh(s) && allStreams == old(allStreams) + [s] && s.id == |old(streams)| &&
        cords == old(cords)
      ensures streams == old(streams) + [Stream(numInputs, seq(numInputs, _ => NO_BLOCK), NULL, 0, false)]
      ensures old(Awake(cords, streams)) ==> Awake(cords, streams)
    {
      hide Sound, Awake;
      s := new AudioStream(numInputs, |allStreams|);
      StreamSound(cords, streams, CordId(unused), spare, dests, s.Value());
      LinkNewest(s);
      dests := dests + [[]];
    }

    constructor ()
      ensures Valid() && allStreams == [] && allCords == [] && !overslept && Awake(cords, streams)
    {
      firstUpdate, unused, allCords, allStreams, cords, streams := null, null, [], [], [], [];
      spare, dests, overslept := [], [], false;
    }
  }
  /** Cord `d` leads from stream 0 to the d-th of the inputs of stream 1 and, after 255, of stream 2. */
  ghost predicate FanAt(cords: seq<Cord>, d: nat)
    requires d < |cords|
  {
    cords[d] == Cord(0, if d < 255 then 1 else 2, 0, if d < 255 then d else d - 255, cords[d].next, true, true)
  }

  /** The first `i` cords lead from the first of three streams to inputs of the others. */
  ghost predicate Spokes(g: Graph, s: AudioStream, a: AudioStream, b: AudioStream, i: nat)
    reads g, g.allCords, g.allStreams
  {
    && g.Valid() && !g.overslept && |g.cords| == i
    && g.allStreams == [s, a, b] && s.id == 0 && a.id == 1 && b.id == 2
    && |g.streams| == 3 && g.streams[1].numInputs == 255 && g.streams[2].numInputs == 2
    && forall d :: 0 <= d < i ==> FanAt(g.cords, d)
  }

  lemma SpokesLeave(cords: seq<Cord>, i: nat)
    requires |cords| == i < 258 && forall d :: 0 <= d < i ==> FanAt(cords, d)
    ensures !Taken(cords, if i < 255 then 1 else 2, if i < 255 then i else i - 255)
    ensures Ends(cords, 0) == i
  {
    forall d | 0 <= d < i
      ensures cords[d].src == 0 && cords[d].dst == (if d < 255 then 1 else 2)
      ensures cords[d].destIndex == (if d < 255 then d else d - 255) && cords[d].isConnected
    {
      assert FanAt(cords, d);
    }
    FanEnds(cords, 0);
  }

  method AddSpoke(g: Graph, s: AudioStream, a: AudioStream, b: AudioStream, i: nat) returns (c: AudioConnection)
    requires Spokes(g, s, a, b, i) && i < 257
    modifies g, g.allCords, g.allStreams
    ensures Spokes(g, s, a, b, i + 1) && fresh(c) && g.allCords == old(g.allCords) + [c] && c.id == i
    ensures g.allStreams == old(g.allStreams) && |g.allCords| == i + 1
  {
    hide Sound, Awake, Taken;
    g.StreamReflected(s);
    ghost var before := g.cords;
    SpokesLeave(before, i);
    var result;
    c, result := g.NewCord(s, 0, if i < 255 then a else b, if i < 255 then i else i - 255);
    forall d | 0 <= d < i
      ensures FanAt(g.cords, d) && FanAt(before, d)
    {
      assert FanAt(before, d);
    }
  }

  method ThreeStreams() returns (g: Graph, s: AudioStream, a: AudioStream, b: AudioStream)
    ensures Spokes(g, s, a, b, 0) && fresh(g) && g.allCords == [] && fresh(set o | o in g.allStreams)
  {
    hide Sound, Awake;
    g := new Graph();
    s := g.NewStream(0);
    a := g.NewStream(255);
    b := g.NewStream(2);
  }

  /** The failing case is within reach: three streams, 257 cords away from one of them, one
      cord disconnected, and the stream sleeps while 256 cords still touch it. */
  method CrowdAndUnplug() returns (g: Graph, s: AudioStream)
    ensures g.Valid() && KnownStream(g.allStreams, s) && Ends(g.cords, s.id) == 256 && !s.active && g.overslept
  {
    hide Spokes, Graph.Valid, Ends;
    var a, b;
    g, s, a, b := ThreeStreams();
    var c := AddSpoke(g, s, a, b, 0);
    var i := 1;
    while i < 257
      invariant 1 <= i <= 257 && fresh(g) && Spokes(g, s, a, b, i)
      invariant fresh(set o | o in g.allCords) && fresh(set o | o in g.allStreams)
      invariant KnownCord(g.allCords, c) && c.id == i - 1 && |g.allCords| == i
    {
      c := AddSpoke(g, s, a, b, i);
      i := i + 1;
    }
    UnplugOne(g, s, a, b, c);
  }

  method UnplugOne(g: Graph, s: AudioStream, a: AudioStream, b: AudioStream, c: AudioConnection)
    requires Spokes(g, s, a, b, 257) && KnownCord(g.allCords, c)
    modifies g, g.allCords, g.allStreams
    ensures g.Valid() && KnownStream(g.allStreams, s) && Ends(g.cords, s.id) == 256 && !s.active && g.overslept
  {
    hide Sound;
    ghost var cords0, streams0 := g.cords, g.streams;
    g.CordReflected(c);
    g.StreamReflected(s);
    assert FanAt(cords0, c.id);
    SpokesLeave(cords0, 257);
    assert Oversleeps(cords0, c.id, 0);
    ghost var k;
    var result, released;
    result, released, k := g.Disconnect(c);
    EndsChanged(cords0, g.cords, c.id, 0);
    g.StreamReflected(s);
    assert AwakeAt(cords0, streams0, 0);
  }
}
