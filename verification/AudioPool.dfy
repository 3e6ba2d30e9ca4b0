/** The pool of audio blocks: a bitmap of free blocks, a hint for the first word that may
    have one, and reference counts that have to match the owners of each block. */
module AudioPool {
  const NULL := -1
  const MAX_OWNERS := 255
  const WORD_BITS := 32

  /** A 32-bit word, bit 0 first. */
  type Word = w: seq<bool> | |w| == 32 witness seq(32, _ => false)

  const ZERO: Word := seq(32, _ => false)

  /** The number of zero bits above the highest set bit. */
  function LeadingZeros(w: Word): (n: nat)
    requires w != ZERO
    ensures n < 32 && w[31-n] && forall k :: 31 - n < k < 32 ==> !w[k]
  {
    LeadingZerosFrom(w, 0)
  }

  function LeadingZerosFrom(w: Word, n: nat): (r: nat)
    requires w != ZERO && n <= 32 && forall k :: 31 - n < k < 32 ==> !w[k]
    ensures r < 32 && w[31-r] && forall k :: 31 - r < k < 32 ==> !w[k]
    decreases 32 - n
  {
    assert n == 32 ==> w == ZERO;
    if w[31-n] then n else LeadingZerosFrom(w, n + 1)
  }

  /** A patch cord as transmit sees it: an output number and an input slot. */
  datatype Cord = Cord(srcIndex: nat, slot: nat)

  predicate SlotsExist(cords: seq<Cord>, slots: nat) {
    forall c :: c in cords ==> c.slot < slots
  }

  /** The input queues after offering `block` to every cord from output `index`. */
  function Delivered(queue: seq<int>, cords: seq<Cord>, index: nat, block: int): (r: seq<int>)
    requires SlotsExist(cords, |queue|)
    ensures |r| == |queue|
  {
    if cords == [] then queue
    else
      var before, c := Delivered(queue, cords[..|cords|-1], index, block), cords[|cords|-1];
      if c.srcIndex == index && before[c.slot] == NULL then before[c.slot := block] else before
  }

  /** Exactly the empty slots that some cord from this output leads to get the block. */
  lemma {:induction false} DeliveredSlots(queue: seq<int>, cords: seq<Cord>, index: nat, block: int, s: nat)
    requires SlotsExist(cords, |queue|) && s < |queue|
    ensures Delivered(queue, cords, index, block)[s]
         == if queue[s] == NULL && Cord(index, s) in cords then block else queue[s]
  {
    if cords != [] {
      var before, c := cords[..|cords|-1], cords[|cords|-1];
      DeliveredSlots(queue, before, index, block, s);
      assert cords == before + [c];
    }
  }

  lemma DeliveredNone(queue: seq<int>, index: nat, block: int)
    ensures Delivered(queue, [], index, block) == queue
  {
  }

  lemma DeliveredStep(queue: seq<int>, cords: seq<Cord>, index: nat, block: int, i: nat)
    requires SlotsExist(cords, |queue|) && i < |cords|
    ensures SlotsExist(cords[..i], |queue|) && SlotsExist(cords[..i+1], |queue|)
    ensures var before, c := Delivered(queue, cords[..i], index, block), cords[i];
      Delivered(queue, cords[..i+1], index, block)
        == if c.srcIndex == index && before[c.slot] == NULL then before[c.slot := block] else before
  {
    assert cords[..i+1][..i] == cords[..i];
  }

  /** An empty slot that gets the block holds one more of it, and no more of any other. */
  lemma SlotFilled(queue: seq<int>, s: nat, block: int)
    requires s < |queue| && queue[s] == NULL != block
    ensures forall b :: b != NULL ==>
      multiset(queue[s := block])[b] == multiset(queue)[b] + if b == block then 1 else 0
  {
    assert multiset(queue[s := block]) == multiset(queue) - multiset{queue[s]} + multiset{block};
  }

  /** The empty slots that some cord from output `index` leads to. */
  function Reached(queue: seq<int>, cords: seq<Cord>, index: nat): set<nat> {
    set s: nat | s < |queue| && queue[s] == NULL && Cord(index, s) in cords
  }

  lemma ReachedOneMore(queue: seq<int>, cords: seq<Cord>, index: nat)
    requires SlotsExist(cords, |queue|) && cords != []
    ensures var before, c := cords[..|cords|-1], cords[|cords|-1];
      Reached(queue, cords, index) == Reached(queue, before, index)
        + if c.srcIndex == index && queue[c.slot] == NULL then {c.slot} else {}
  {
    assert cords == cords[..|cords|-1] + [cords[|cords|-1]];
  }

  /** An offered block is queued once more for each of them. */
  lemma {:induction false} DeliveredCounts(queue: seq<int>, cords: seq<Cord>, index: nat, block: int)
    requires SlotsExist(cords, |queue|) && block != NULL
    ensures multiset(Delivered(queue, cords, index, block))[block]
      == multiset(queue)[block] + |Reached(queue, cords, index)|
  {
    if cords == [] {
      assert Reached(queue, cords, index) == {};
    } else {
      var before, c := cords[..|cords|-1], cords[|cords|-1];
      var q := Delivered(queue, before, index, block);
      DeliveredCounts(queue, before, index, block);
      DeliveredSlots(queue, before, index, block, c.slot);
      ReachedOneMore(queue, cords, index);
      assert c.srcIndex == index ==> c == Cord(index, c.slot);
      assert c.slot in Reached(queue, before, index) <==> queue[c.slot] == NULL && Cord(index, c.slot) in before;
      if c.srcIndex == index && q[c.slot] == NULL {
        SlotFilled(q, c.slot, block);
      } else {
        assert Reached(queue, cords, index) == Reached(queue, before, index);
      }
    }
  }

  /** A block that is offered changes how often no other block is queued. */
  lemma {:induction false} DeliveredElsewhere(queue: seq<int>, cords: seq<Cord>, index: nat, block: int, b: int)
    requires SlotsExist(cords, |queue|) && block != NULL && b != NULL && b != block
    ensures multiset(Delivered(queue, cords, index, block))[b] == multiset(queue)[b]
  {
    if cords != [] {
      var before, c := Delivered(queue, cords[..|cords|-1], index, block), cords[|cords|-1];
      DeliveredElsewhere(queue, cords[..|cords|-1], index, block, b);
      if before[c.slot] == NULL {
        SlotFilled(before, c.slot, block);
      }
    }
  }

  lemma {:induction false} AllTheSame(queue: seq<int>, block: int)
    requires forall s :: 0 <= s < |queue| ==> queue[s] == block
    ensures multiset(queue)[block] == |queue|
  {
    if queue != [] {
      AllTheSame(queue[1..], block);
      assert queue == [queue[0]] + queue[1..];
    }
  }

  lemma CountUp(n: nat)
    ensures (n % 256 + 1) % 256 == (n + 1) % 256
  {
  }

  lemma Traded(held: multiset<int>, a: int, b: int)
    requires a in held
    ensures held + multiset{b} - multiset{a} == held - multiset{a} + multiset{b}
  {
  }

  class Pool {
    const num: nat
    const mask: array<Word>
    const refCount: array<nat>
    const data: array<seq<int>>
    /** The input queues of all streams, one after the other. */
    const queue: array<int>
    var firstMask: nat
    var memoryUsed: nat
    var memoryUsedMax: nat
    /** The blocks that running code holds, as often as it owns them. */
    ghost var held: multiset<int>

    predicate Free(b: nat)
      requires b < WORD_BITS * mask.Length
      reads mask
    {
      mask[b/32][b%32]
    }

    /** No block is free. */
    ghost predicate Full()
      requires num <= WORD_BITS * mask.Length
      reads mask
    {
      forall b :: 0 <= b < num ==> !Free(b)
    }

    ghost function Owners(b: int): nat
      reads this`held, queue
    {
      held[b] + multiset(queue[..])[b]
    }

    ghost function Allocated(): set<int>
      requires num <= WORD_BITS * mask.Length
      reads mask
    {
      set b | 0 <= b < num && !Free(b)
    }

    ghost predicate Shape()
      reads this`held, queue
    {
      && num <= WORD_BITS * mask.Length && refCount.Length == num == data.Length
      && queue as object != refCount && mask as object != refCount && mask as object != queue
      && data as object != mask && data as object != refCount && data as object != queue
      && (forall s :: 0 <= s < queue.Length ==> NULL <= queue[s] < num)
      && (forall b :: b in held ==> 0 <= b < num)
    }

    /** A block is free exactly when nobody owns it, and otherwise its reference count is
        the number of its owners. */
    ghost predicate BlockOk(b: nat)
      requires Shape() && b < num
      reads this`held, mask, queue, refCount
    {
      && (Free(b) <==> Owners(b) == 0)
      && (!Free(b) ==> refCount[b] == Owners(b) <= MAX_OWNERS)
    }

    /** The reference count as it is when there may be more owners than its byte can count. */
    ghost predicate CountOk(b: nat)
      requires Shape() && b < num
      reads this`held, mask, queue, refCount
    {
      && (Free(b) <==> Owners(b) == 0)
      && (!Free(b) ==> refCount[b] == Owners(b) % (MAX_OWNERS + 1))
    }

    /** The bitmap, its hint and its counters agree. */
    ghost predicate MapOk()
      reads this`firstMask, this`memoryUsed, this`memoryUsedMax, mask
    {
      && num <= WORD_BITS * mask.Length
      && (forall b :: num <= b < WORD_BITS * mask.Length ==> !Free(b))
      && firstMask <= mask.Length
      && (forall i :: 0 <= i < firstMask ==> mask[i] == ZERO)
      && memoryUsed == |Allocated()| <= memoryUsedMax
    }

    ghost predicate Valid()
      reads this, mask, queue, refCount
    {
      MapOk() && Shape() && forall b :: 0 <= b < num ==> BlockOk(b)
    }

    ghost predicate Counted()
      reads this, mask, queue, refCount
    {
      MapOk() && Shape() && forall b :: 0 <= b < num ==> CountOk(b)
    }

    /** The pool is right as long as no block has more owners than a byte can count. */
    lemma ValidIff()
      ensures Valid() <==> Counted() && forall b :: 0 <= b < num ==> Owners(b) <= MAX_OWNERS
    {
      if Valid() {
        forall b | 0 <= b < num
          ensures CountOk(b) && Owners(b) <= MAX_OWNERS
        {
          assert BlockOk(b);
        }
      }
      if Counted() && forall b :: 0 <= b < num ==> Owners(b) <= MAX_OWNERS {
        forall b | 0 <= b < num
          ensures BlockOk(b)
        {
          assert CountOk(b);
        }
      }
    }

    /** A pool of `requested` blocks, cut to the number the masks are dimensioned for. */
    constructor (requested: nat, maxnum: nat, slots: nat)
      ensures Valid() && fresh(mask) && fresh(refCount) && fresh(data) && fresh(queue)
      ensures num == (if requested > maxnum then maxnum else requested) && queue.Length == slots
      ensures mask.Length == (maxnum + 31) / 32
      ensures held == multiset{} && forall s :: 0 <= s < slots ==> queue[s] == NULL
      ensures forall b :: 0 <= b < num ==> Free(b)
    {
      var num := if requested > maxnum then maxnum else requested;
      this.num := num;
      mask := new Word[(maxnum + 31) / 32](i => seq(32, k => 32 * i + k < num));
      refCount := new nat[num](_ => 0);
      data := new seq<int>[num](_ => []);
      queue := new int[slots](_ => NULL);
      firstMask, memoryUsed, memoryUsedMax, held := 0, 0, 0, multiset{};
      new;
      InitialBits();
      InitiallyFree();
    }

    lemma InitiallyFree()
      requires Shape() && held == multiset{} && firstMask == memoryUsed == memoryUsedMax == 0
      requires forall b :: 0 <= b < WORD_BITS * mask.Length ==> (Free(b) <==> b < num)
      requires forall s :: 0 <= s < queue.Length ==> queue[s] == NULL
      ensures Valid()
    {
      assert Allocated() == {};
      forall b: nat | b < num
        ensures BlockOk(b)
      {
        assert b !in queue[..];
      }
    }

    lemma InitialBits()
      requires forall i, k :: 0 <= i < mask.Length && 0 <= k < 32 ==> (mask[i][k] <==> 32 * i + k < num)
      ensures forall b :: 0 <= b < WORD_BITS * mask.Length ==> (Free(b) <==> b < num)
    {
      forall b | 0 <= b < WORD_BITS * mask.Length
        ensures Free(b) <==> b < num
      {
        assert 32 * (b / 32) + b % 32 == b;
      }
    }

    method FlipBit(block: nat, free: bool)
      requires block < WORD_BITS * mask.Length
      modifies mask
      ensures forall b :: 0 <= b < WORD_BITS * mask.Length ==> Free(b) == if b == block then free else old(Free(b))
      ensures forall i :: 0 <= i < mask.Length && i != block / 32 ==> mask[i] == old(mask[i])
    {
      mask[block / 32] := mask[block / 32][block % 32 := free];
    }

    /** Clears the bit of a free block in the first word that is not zero. */
    method ClearBit(block: nat, index: nat)
      requires MapOk() && block < num && Free(block) && index == block / 32
      requires forall i :: 0 <= i < index ==> mask[i] == ZERO
      modifies this`firstMask, this`memoryUsed, this`memoryUsedMax, mask
      ensures MapOk() && forall b :: 0 <= b < num ==> (Free(b) <==> old(Free(b)) && b != block)
      ensures memoryUsed == old(memoryUsed) + 1
      ensures memoryUsedMax == if memoryUsed > old(memoryUsedMax) then memoryUsed else old(memoryUsedMax)
      ensures firstMask == if mask[index] == ZERO then index + 1 else index
    {
      FlipBit(block, false);
      firstMask := if mask[index] == ZERO then index + 1 else index;
      memoryUsed := memoryUsed + 1;
      memoryUsedMax := if memoryUsed > memoryUsedMax then memoryUsed else memoryUsedMax;
      assert Allocated() == old(Allocated()) + {block};
    }

    /** Sets the bit of an allocated block. */
    method SetBit(block: nat)
      requires MapOk() && block < num && !Free(block)
      modifies this`firstMask, this`memoryUsed, mask
      ensures MapOk() && forall b :: 0 <= b < num ==> (Free(b) <==> old(Free(b)) || b == block)
      ensures memoryUsed == old(memoryUsed) - 1
      ensures firstMask == if block / 32 < old(firstMask) then block / 32 else old(firstMask)
    {
      var index := block / 32;
      assert block in Allocated();
      FlipBit(block, true);
      if index < firstMask {
        firstMask := index;
      }
      memoryUsed := memoryUsed - 1;
      assert Allocated() == old(Allocated()) - {block};
    }

    /** The free block with the highest number in a word. */
    method HighestFree(index: nat) returns (block: nat)
      requires MapOk() && index < mask.Length && mask[index] != ZERO
      ensures block < num && Free(block) && block / 32 == index
      ensures forall b :: block < b < WORD_BITS * mask.Length && b / 32 == index ==> !Free(b)
    {
      var n := LeadingZeros(mask[index]);
      block := 32 * index + (31 - n);
      assert Free(block);
    }

    /** Makes the caller the owner of a free block in the first word that is not zero. */
    method TakeFree(block: nat, index: nat)
      requires Valid() && block < num && Free(block) && index == block / 32
      requires forall i :: 0 <= i < index ==> mask[i] == ZERO
      modifies this`firstMask, this`memoryUsed, this`memoryUsedMax, this`held, mask, refCount
      ensures Valid() && Owners(block) == 1 && held == old(held) + multiset{block}
      ensures forall b :: 0 <= b < num ==> (Free(b) <==> old(Free(b)) && b != block)
      ensures memoryUsed == old(memoryUsed) + 1
      ensures memoryUsedMax == if memoryUsed > old(memoryUsedMax) then memoryUsed else old(memoryUsedMax)
    {
      hide MapOk;
      assert BlockOk(block);
      ClearBit(block, index);
      refCount[block] := 1;
      held := held + multiset{block};
      forall b | 0 <= b < num
        ensures BlockOk(b)
      {
        assert old(BlockOk(b));
      }
    }

    /** Takes a free block, if there is one. */
    method Allocate() returns (block: int)
      requires Valid()
      modifies this`firstMask, this`memoryUsed, this`memoryUsedMax, this`held, mask, refCount
      ensures Valid()
      ensures block == NULL <==> old(Full())
      ensures block == NULL ==> held == old(held)
      ensures block != NULL ==>
        0 <= block < num && old(Free(block)) && Owners(block) == 1 && held == old(held) + multiset{block}
      ensures forall b :: 0 <= b < num && b != block ==> Free(b) == old(Free(b))
      ensures block != NULL ==> forall b :: 0 <= b < num && old(Free(b)) ==>
        block / 32 < b / 32 || (block / 32 == b / 32 && b <= block)
      ensures memoryUsed == old(memoryUsed) + if block == NULL then 0 else 1
      ensures memoryUsedMax == if memoryUsed > old(memoryUsedMax) then memoryUsed else old(memoryUsedMax)
    {
      var index := firstMask;
      while index < mask.Length && mask[index] == ZERO
        invariant firstMask <= index <= mask.Length
        invariant forall i :: 0 <= i < index ==> mask[i] == ZERO
      {
        index := index + 1;
      }
      if index >= mask.Length {
        return NULL;
      }
      block := HighestFree(index);
      TakeFree(block, index);
    }

    /** An owner gives up a block; the last one returns it to the pool. */
    method Release(block: nat)
      requires Valid() && block in held
      modifies this`firstMask, this`memoryUsed, this`held, mask, refCount
      ensures Valid() && held == old(held) - multiset{block}
      ensures Free(block) <==> old(Owners(block)) == 1
      ensures forall b :: 0 <= b < num && b != block ==> Free(b) == old(Free(b))
    {
      hide MapOk;
      assert BlockOk(block);
      held := held - multiset{block};
      if refCount[block] > 1 {
        refCount[block] := refCount[block] - 1;
      } else {
        SetBit(block);
      }
      forall b | 0 <= b < num
        ensures BlockOk(b)
      {
        assert old(BlockOk(b));
      }
    }

    /** Puts a block into an empty input slot; the count of its owners is one byte. */
    method Fill(s: nat, block: nat)
      requires Counted() && s < queue.Length && queue[s] == NULL && block < num && Owners(block) > 0
      modifies queue, refCount
      ensures Counted() && queue[..] == old(queue[..])[s := block]
      ensures forall b :: b != NULL ==> Owners(b) == old(Owners(b)) + if b == block then 1 else 0
    {
      hide MapOk;
      assert CountOk(block);
      CountUp(Owners(block));
      SlotFilled(queue[..], s, block);
      queue[s] := block;
      assert queue[..] == old(queue[..])[s := block];
      refCount[block] := (refCount[block] + 1) % 256;
      forall b | 0 <= b < num
        ensures CountOk(b)
      {
        assert old(CountOk(b));
      }
    }

    /** Offers a block to the destinations of output `index`, in the order of the cords. */
    method Transmit(block: nat, index: nat, cords: seq<Cord>)
      requires Valid() && block in held && SlotsExist(cords, queue.Length)
      modifies queue, refCount
      ensures Counted() && queue[..] == Delivered(old(queue[..]), cords, index, block)
      ensures Owners(block) == old(Owners(block)) + |Reached(old(queue[..]), cords, index)|
      ensures Valid() <==> old(Owners(block)) + |Reached(old(queue[..]), cords, index)| <= 255
    {
      hide CountOk, BlockOk, MapOk, Full, Reached, Delivered;
      ValidIff();
      assert cords[..0] == [];
      DeliveredNone(queue[..], index, block);
      var i := 0;
      while i < |cords|
        invariant 0 <= i <= |cords| && Counted() && Owners(block) > 0
        invariant queue[..] == Delivered(old(queue[..]), cords[..i], index, block)
      {
        var c := cords[i];
        DeliveredStep(old(queue[..]), cords, index, block, i);
        if c.srcIndex == index {
          if queue[c.slot] == NULL {
            Fill(c.slot, block);
          }
        }
        i := i + 1;
      }
      assert cords[..|cords|] == cords;
      DeliveredCounts(old(queue[..]), cords, index, block);
      forall b | 0 <= b < num && b != block
        ensures Owners(b) == old(Owners(b))
      {
        DeliveredElsewhere(old(queue[..]), cords, index, block, b);
      }
      ValidIff();
    }

    /** Takes what an input slot has; the ownership of the slot passes to the caller. */
    method Empty(s: nat) returns (block: int)
      requires Valid() && s < queue.Length
      modifies this`held, queue
      ensures Valid() && block == old(queue[s]) && queue[..] == old(queue[..])[s := NULL]
      ensures held == if block == NULL then old(held) else old(held) + multiset{block}
      ensures block != NULL ==> Owners(block) == old(Owners(block))
    {
      hide MapOk;
      block := queue[s];
      queue[s] := NULL;
      assert queue[..] == old(queue[..])[s := NULL];
      if block != NULL {
        held := held + multiset{block};
      }
      forall b | 0 <= b < num
        ensures BlockOk(b)
      {
        assert old(BlockOk(b));
      }
    }

    /** A stream whose inputs start at slot `base` takes the block of input `index`. */
    method ReceiveReadOnly(base: nat, numInputs: nat, index: nat) returns (block: int)
      requires Valid() && base + numInputs <= queue.Length
      modifies this`held, queue
      ensures Valid()
      ensures index >= numInputs ==> block == NULL && held == old(held) && queue[..] == old(queue[..])
      ensures index < numInputs ==>
        block == old(queue[base + index]) && queue[..] == old(queue[..])[base + index := NULL]
      ensures held == if block == NULL then old(held) else old(held) + multiset{block}
    {
      if index >= numInputs {
        return NULL;
      }
      block := Empty(base + index);
    }

    /** Gives up one of several ownerships of a block. */
    method Share(block: nat)
      requires Valid() && block in held && Owners(block) > 1
      modifies this`held, refCount
      ensures Valid() && held == old(held) - multiset{block}
      ensures forall b :: Owners(b) == old(Owners(b)) - if b == block then 1 else 0
    {
      hide MapOk;
      assert BlockOk(block);
      refCount[block] := refCount[block] - 1;
      held := held - multiset{block};
      forall b | 0 <= b < num
        ensures BlockOk(b)
      {
        assert old(BlockOk(b));
      }
    }

    /** A copy of a block with several owners, one of which gives it up. */
    method Copied(shared: nat) returns (block: int)
      requires Valid() && shared in held && Owners(shared) > 1
      modifies this`firstMask, this`memoryUsed, this`memoryUsedMax, this`held, mask, refCount, data
      ensures Valid() && block != shared
      ensures block == NULL <==> old(Full())
      ensures block != NULL ==>
        0 <= block < num && Owners(block) == 1 && block in held && data[block] == old(data[shared])
      ensures held == if block == NULL then old(held) - multiset{shared}
        else old(held) - multiset{shared} + multiset{block}
      ensures forall b :: 0 <= b < num && b != block ==> data[b] == old(data[b])
    {
      hide MapOk;
      assert BlockOk(shared);
      block := Allocate();
      assert block != shared && Owners(shared) == old(Owners(shared));
      Traded(old(held), shared, block);
      if block != NULL {
        data[block] := data[shared];
      }
      Share(shared);
    }

    /** Trades one ownership of a block for a block of one's own with the same samples; the
        samples are dropped when there is no free block to copy them to. */
    method MakeWritable(shared: nat) returns (block: int)
      requires Valid() && shared in held
      modifies this`firstMask, this`memoryUsed, this`memoryUsedMax, this`held, mask, refCount, data
      ensures Valid()
      ensures block != NULL ==>
        0 <= block < num && Owners(block) == 1 && block in held && data[block] == old(data[shared])
      ensures held == if block == NULL then old(held) - multiset{shared}
        else old(held) - multiset{shared} + multiset{block}
      ensures block == shared <==> old(Owners(shared)) == 1
      ensures block == NULL <==> old(Owners(shared)) > 1 && old(Full())
      ensures forall b :: 0 <= b < num && b != block ==> data[b] == old(data[b])
    {
      assert BlockOk(shared);
      block := shared;
      if refCount[shared] > 1 {
        block := Copied(shared);
      }
    }

    /** Like ReceiveReadOnly, but the caller becomes the only owner of what it gets. */
    method ReceiveWritable(base: nat, numInputs: nat, index: nat) returns (block: int)
      requires Valid() && base + numInputs <= queue.Length
      modifies this`firstMask, this`memoryUsed, this`memoryUsedMax, this`held, mask, refCount, queue, data
      ensures Valid()
      ensures block != NULL ==> index < numInputs && 0 <= block < num && Owners(block) == 1 && block in held
      ensures block != NULL ==> old(queue[base + index]) != NULL && data[block] == old(data[queue[base + index]])
      ensures block == NULL <==>
        || index >= numInputs
        || old(queue[base + index]) == NULL
        || old(Owners(queue[base + index]) > 1 && Full())
      ensures queue[..] == if index < numInputs then old(queue[..])[base + index := NULL] else old(queue[..])
      ensures held == if block == NULL then old(held) else old(held) + multiset{block}
      ensures forall b :: 0 <= b < num && b != block ==> data[b] == old(data[b])
    {
      hide MapOk, BlockOk;
      if index >= numInputs {
        return NULL;
      }
      block := Empty(base + index);
      if block != NULL {
        block := MakeWritable(block);
      }
    }
  }

  /** Cords from output 0 to each of `n` slots. */
  function Everywhere(n: nat): (cords: seq<Cord>)
    ensures |cords| == n && SlotsExist(cords, n)
  {
    seq(n, (s: nat) => Cord(0, s))
  }

  lemma AllFilled(queue: seq<int>, block: int)
    requires block != NULL && forall s :: 0 <= s < |queue| ==> queue[s] == NULL
    ensures multiset(Delivered(queue, Everywhere(|queue|), 0, block))[block] == |queue|
  {
    var r := Delivered(queue, Everywhere(|queue|), 0, block);
    forall s: nat | s < |queue|
      ensures r[s] == block
    {
      assert Everywhere(|queue|)[s] == Cord(0, s);
      DeliveredSlots(queue, Everywhere(|queue|), 0, block, s);
    }
    AllTheSame(r, block);
  }

  /** A block that 256 inputs take from one output has 257 owners, which its count cannot
      tell from one. */
  method OfferEverywhere() returns (pool: Pool)
    ensures fresh(pool) && pool.Counted() && pool.Owners(0) == 257 && !pool.Valid()
  {
    hide Pool.MapOk, Pool.BlockOk, Pool.CountOk, Delivered, Everywhere;
    pool := new Pool(1, 1, 256);
    assert pool.Free(0);
    var block := pool.Allocate();
    AllFilled(pool.queue[..], block);
    pool.Transmit(block, 0, Everywhere(256));
  }
}
