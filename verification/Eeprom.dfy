/** What one flash sector of the EEPROM emulation means: a log of two-byte records, the
    low byte an offset and the high byte the value written there. */
module EepromLog {
  type byte = x: int | 0 <= x < 256
  type Word = x: int | 0 <= x < 0x1_0000

  const BLANK: Word := 0xFFFF
  const SECTOR_WORDS := 2048

  function Record(offset: byte, data: byte): Word {
    offset + 256 * data
  }

  /** The value last recorded for an offset; 255 if there is none. */
  function LastFor(log: seq<Word>, offset: byte): byte {
    if log == [] then 255
    else
      var last := log[|log|-1];
      if last % 256 == offset then last / 256 else LastFor(log[..|log|-1], offset)
  }

  /** The records of the first `n` offsets of an image, leaving out the value 255. */
  function Records(image: seq<byte>, n: nat): (r: seq<Word>)
    requires n <= |image| == 256
    ensures |r| <= n
  {
    if n == 0 then []
    else Records(image, n - 1) + if image[n-1] != 255 then [Record(n - 1, image[n-1])] else []
  }

  function Image(log: seq<Word>): (r: seq<byte>)
    ensures |r| == 256
  {
    seq(256, o requires 0 <= o < 256 => LastFor(log, o))
  }

  /** The log after writing `data` to `offset`. */
  function Written(log: seq<Word>, offset: byte, data: byte): seq<Word> {
    if LastFor(log, offset) == data then log
    else if |log| < SECTOR_WORDS then log + [Record(offset, data)]
    else Records(Image(log)[offset := data], 256)
  }

  lemma RecordHolds(offset: byte, data: byte)
    ensures Record(offset, data) % 256 == offset && Record(offset, data) / 256 == data
  {
  }

  lemma {:induction false} LastForRecords(image: seq<byte>, n: nat, o: byte)
    requires n <= |image| == 256
    ensures LastFor(Records(image, n), o) == if o < n then image[o] else 255
  {
    if n > 0 {
      var r := Records(image, n);
      LastForRecords(image, n - 1, o);
      if image[n-1] != 255 {
        assert r[..|r|-1] == Records(image, n - 1);
        RecordHolds(n - 1, image[n-1]);
      } else {
        assert r == Records(image, n - 1);
      }
    }
  }

  /** A write changes what is read at its own offset and nowhere else, also when it compacts. */
  lemma WrittenReads(log: seq<Word>, offset: byte, data: byte, o: byte)
    ensures LastFor(Written(log, offset, data), o) == if o == offset then data else LastFor(log, o)
  {
    if LastFor(log, offset) != data {
      if |log| < SECTOR_WORDS {
        var r := log + [Record(offset, data)];
        assert r[..|r|-1] == log;
        RecordHolds(offset, data);
      } else {
        LastForRecords(Image(log)[offset := data], 256, o);
      }
    }
  }

  /** The index eeprom_initialize finds: the first blank word. */
  function FirstBlank(cells: seq<Word>): (n: nat)
    ensures n <= |cells|
    ensures forall i :: 0 <= i < n ==> cells[i] != BLANK
    ensures n < |cells| ==> cells[n] == BLANK
  {
    if cells == [] || cells[0] == BLANK then 0 else 1 + FirstBlank(cells[1..])
  }

  lemma FirstBlankIs(cells: seq<Word>, n: nat)
    requires n <= |cells| && (forall i :: 0 <= i < n ==> cells[i] != BLANK)
    requires n < |cells| ==> cells[n] == BLANK
    ensures FirstBlank(cells) == n
  {
  }

  ghost predicate NoBlank(log: seq<Word>) {
    forall i :: 0 <= i < |log| ==> log[i] != BLANK
  }

  lemma {:induction false} NoBlankRecords(image: seq<byte>, n: nat)
    requires n <= |image| == 256
    ensures NoBlank(Records(image, n))
  {
    if n > 0 {
      NoBlankRecords(image, n - 1);
    }
  }

  // ---------- addresses ----------

  /** A chip with this many sectors and this highest address. */
  predicate Geometry(sectors: nat, e2end: nat) {
    sectors > 0 && e2end <= 255 * sectors - 1
  }

  function Sector(addr: nat, sectors: nat): (r: nat)
    requires sectors > 0
    ensures r < sectors
  {
    addr / 4 % sectors
  }

  function Offset(addr: nat, sectors: nat): nat
    requires sectors > 0
  {
    addr % 4 + 4 * (addr / 4 / sectors)
  }

  /** Division in terms of multiplication. */
  lemma Quotient(q: nat, sectors: nat)
    requires sectors > 0
    ensures q == q / sectors * sectors + q % sectors && q % sectors < sectors
  {
  }

  lemma ProductsGrow(a: nat, b: nat, c: nat)
    requires a <= b
    ensures a * c <= b * c
  {
  }

  lemma OffsetIsByte(addr: nat, sectors: nat, e2end: nat)
    requires Geometry(sectors, e2end) && addr <= e2end
    ensures Offset(addr, sectors) < 256
    ensures e2end < 252 * sectors + 3 ==> Offset(addr, sectors) != 255
  {
    var k := addr / 4 / sectors;
    Quotient(addr / 4, sectors);
    if k >= 64 {
      ProductsGrow(64, k, sectors);
    } else if Offset(addr, sectors) == 255 {
      assert k == 63;
    }
  }

  /** Distinct addresses have distinct places. */
  lemma PlaceIsInjective(a: nat, b: nat, sectors: nat)
    requires sectors > 0 && Sector(a, sectors) == Sector(b, sectors) && Offset(a, sectors) == Offset(b, sectors)
    ensures a == b
  {
    Quotient(a / 4, sectors);
    Quotient(b / 4, sectors);
    assert a / 4 / sectors == b / 4 / sectors;
  }

  /** No address maps to offset 255, so that no record can look like blank flash, exactly
      up to this highest address. */
  lemma RecordsAreNeverBlankIff(sectors: nat, e2end: nat)
    requires Geometry(sectors, e2end)
    ensures e2end < 252 * sectors + 3 <==> forall addr :: 0 <= addr <= e2end ==> Offset(addr, sectors) != 255
  {
    forall addr | 0 <= addr <= e2end && Offset(addr, sectors) == 255
      ensures e2end >= 252 * sectors + 3
    {
      OffsetIsByte(addr, sectors, e2end);
    }
    var worst := 252 * sectors + 3;
    assert worst / 4 == 63 * sectors;
    Quotient(63 * sectors, sectors);
    SixtyThree(63 * sectors / sectors, 63 * sectors % sectors, sectors);
    assert Offset(worst, sectors) == 255;
  }

  lemma SixtyThree(k: nat, r: nat, sectors: nat)
    requires 63 * sectors == k * sectors + r && r < sectors
    ensures k == 63 && r == 0
  {
    if k < 63 {
      ProductsGrow(k + 1, 63, sectors);
    } else if k > 63 {
      ProductsGrow(64, k, sectors);
    }
  }

  // ---------- rebuilding the index ----------

  ghost predicate BlankFrom(cells: seq<Word>, n: nat) {
    forall i :: n <= i < |cells| ==> cells[i] == BLANK
  }

  /** Re-initialising finds the end of a log exactly when none of its records looks blank. */
  lemma RebuiltIff(cells: seq<Word>, n: nat)
    requires n <= |cells| && BlankFrom(cells, n)
    ensures FirstBlank(cells) == n <==> NoBlank(cells[..n])
  {
    if FirstBlank(cells) < n {
      assert cells[..n][FirstBlank(cells)] == BLANK;
    } else if n < |cells| {
      assert cells[n] == BLANK;
    }
  }
}

/** Whole sequences of writes, as values. */
module EepromRuns {
  import opened EepromLog

  datatype Write = Write(addr: nat, data: byte)

  /** The log of sector `s` after one write on a chip of the given geometry. */
  function AfterWrite(log: seq<Word>, s: nat, w: Write, sectors: nat, e2end: nat): seq<Word>
    requires Geometry(sectors, e2end)
  {
    if w.addr <= e2end && Sector(w.addr, sectors) == s then
      OffsetIsByte(w.addr, sectors, e2end);
      Written(log, Offset(w.addr, sectors), w.data)
    else log
  }

  /** A write changes what its own address reads and nothing else. */
  lemma AfterWriteReads(log: seq<Word>, w: Write, addr: nat, sectors: nat, e2end: nat)
    requires Geometry(sectors, e2end) && addr <= e2end
    ensures Offset(addr, sectors) < 256
    ensures LastFor(AfterWrite(log, Sector(addr, sectors), w, sectors, e2end), Offset(addr, sectors))
         == if w.addr == addr then w.data else LastFor(log, Offset(addr, sectors))
  {
    OffsetIsByte(addr, sectors, e2end);
    if w.addr <= e2end && Sector(w.addr, sectors) == Sector(addr, sectors) {
      OffsetIsByte(w.addr, sectors, e2end);
      WrittenReads(log, Offset(w.addr, sectors), w.data, Offset(addr, sectors));
      if Offset(w.addr, sectors) == Offset(addr, sectors) {
        PlaceIsInjective(w.addr, addr, sectors);
      }
    }
  }

  function AfterWrites(log: seq<Word>, writes: seq<Write>, s: nat, sectors: nat, e2end: nat): seq<Word>
    requires Geometry(sectors, e2end)
  {
    if writes == [] then log
    else AfterWrite(AfterWrites(log, writes[..|writes|-1], s, sectors, e2end), s, writes[|writes|-1], sectors, e2end)
  }

  /** The log of a sector that was erased at first. */
  function LogOf(writes: seq<Write>, s: nat, sectors: nat, e2end: nat): seq<Word>
    requires Geometry(sectors, e2end)
  {
    AfterWrites([], writes, s, sectors, e2end)
  }

  /** A plain byte map: the value last written, 255 if there is none. */
  function LastWritten(writes: seq<Write>, addr: nat): byte {
    if writes == [] then 255
    else if writes[|writes|-1].addr == addr then writes[|writes|-1].data
    else LastWritten(writes[..|writes|-1], addr)
  }

  /** After any sequence of writes, through any number of compactions, every address reads
      the value last written to it. */
  lemma {:induction false} ReadsLastWritten(writes: seq<Write>, addr: nat, sectors: nat, e2end: nat)
    requires Geometry(sectors, e2end) && addr <= e2end
    ensures Offset(addr, sectors) < 256
    ensures LastFor(LogOf(writes, Sector(addr, sectors), sectors, e2end), Offset(addr, sectors)) ==
      LastWritten(writes, addr)
  {
    OffsetIsByte(addr, sectors, e2end);
    if writes != [] {
      var before, w := writes[..|writes|-1], writes[|writes|-1];
      ReadsLastWritten(before, addr, sectors, e2end);
      AfterWriteReads(LogOf(before, Sector(addr, sectors), sectors, e2end), w, addr, sectors, e2end);
    }
  }

  /** The write changes a value that sector `s` holds. */
  predicate Alters(log: seq<Word>, s: nat, w: Write, sectors: nat, e2end: nat)
    requires Geometry(sectors, e2end)
  {
    && w.addr <= e2end && Sector(w.addr, sectors) == s
    && (OffsetIsByte(w.addr, sectors, e2end); LastFor(log, Offset(w.addr, sectors)) != w.data)
  }

  /** How many of the writes change a value in sector `s`, */
  function Alterations(log: seq<Word>, writes: seq<Write>, s: nat, sectors: nat, e2end: nat): nat
    requires Geometry(sectors, e2end)
  {
    if writes == [] then 0
    else
      var before := writes[..|writes|-1];
      Alterations(log, before, s, sectors, e2end)
        + if Alters(AfterWrites(log, before, s, sectors, e2end), s, writes[|writes|-1], sectors, e2end) then 1 else 0
  }

  /** and how many of those find it full, so that it is erased. */
  function Erasures(log: seq<Word>, writes: seq<Write>, s: nat, sectors: nat, e2end: nat): nat
    requires Geometry(sectors, e2end)
  {
    if writes == [] then 0
    else
      var before := writes[..|writes|-1];
      var now := AfterWrites(log, before, s, sectors, e2end);
      Erasures(log, before, s, sectors, e2end)
        + if Alters(now, s, writes[|writes|-1], sectors, e2end) && |now| == SECTOR_WORDS then 1 else 0
  }

  lemma OneWriteMore(log: seq<Word>, writes: seq<Write>, k: nat, s: nat, sectors: nat, e2end: nat)
    requires Geometry(sectors, e2end) && k < |writes|
    ensures var now, w := AfterWrites(log, writes[..k], s, sectors, e2end), writes[k];
      var alters := Alters(now, s, w, sectors, e2end);
      && AfterWrites(log, writes[..k + 1], s, sectors, e2end) == AfterWrite(now, s, w, sectors, e2end)
      && Alterations(log, writes[..k + 1], s, sectors, e2end)
        == Alterations(log, writes[..k], s, sectors, e2end) + (if alters then 1 else 0)
      && Erasures(log, writes[..k + 1], s, sectors, e2end)
        == Erasures(log, writes[..k], s, sectors, e2end) + (if alters && |now| == SECTOR_WORDS then 1 else 0)
  {
    hide Alters, AfterWrite;
    assert writes[..k + 1][..k] == writes[..k];
  }

  lemma NoWrites(log: seq<Word>, s: nat, sectors: nat, e2end: nat)
    requires Geometry(sectors, e2end)
    ensures AfterWrites(log, [], s, sectors, e2end) == log
    ensures Alterations(log, [], s, sectors, e2end) == Erasures(log, [], s, sectors, e2end) == 0
  {
  }

  /** One write makes a log at most one record longer, and compacting leaves at most 256. */
  lemma LogGrows(log: seq<Word>, s: nat, w: Write, sectors: nat, e2end: nat)
    requires Geometry(sectors, e2end) && |log| <= 2048
    ensures var log' := AfterWrite(log, s, w, sectors, e2end);
      if !Alters(log, s, w, sectors, e2end) then log' == log
      else if |log| < 2048 then |log'| == |log| + 1
      else |log'| <= 256
  {
    if w.addr <= e2end && Sector(w.addr, sectors) == s {
      OffsetIsByte(w.addr, sectors, e2end);
    }
  }

  /** Wear: whatever is written, every erasure of a sector takes at least 1793 writes that
      change a value in it, and the records in it are on top of those. */
  lemma {:induction false} ErasuresAreRare(log: seq<Word>, writes: seq<Write>, s: nat, sectors: nat, e2end: nat)
    requires Geometry(sectors, e2end) && |log| <= SECTOR_WORDS
    ensures |AfterWrites(log, writes, s, sectors, e2end)| <= SECTOR_WORDS
    ensures 1793 * Erasures(log, writes, s, sectors, e2end) + |AfterWrites(log, writes, s, sectors, e2end)|
      <= Alterations(log, writes, s, sectors, e2end) + |log|
  {
    hide Alters, AfterWrite;
    if writes != [] {
      var before := writes[..|writes|-1];
      ErasuresAreRare(log, before, s, sectors, e2end);
      LogGrows(AfterWrites(log, before, s, sectors, e2end), s, writes[|writes|-1], sectors, e2end);
    }
  }

  /** The writes of a block. */
  function BlockWrites(src: seq<byte>, addr: nat): (writes: seq<Write>)
    ensures |writes| == |src|
  {
    seq(|src|, i requires 0 <= i < |src| => Write(addr + i, src[i]))
  }

  /** A sector as it is in flash: the log, and erased words behind it. */
  function Cells(log: seq<Word>): seq<Word> {
    if |log| <= SECTOR_WORDS then log + seq(SECTOR_WORDS - |log|, _ => BLANK) else log
  }

  lemma {:induction false} LogIsNeverBlank(writes: seq<Write>, s: nat, sectors: nat, e2end: nat)
    requires Geometry(sectors, e2end) && e2end < 252 * sectors + 3
    ensures NoBlank(LogOf(writes, s, sectors, e2end))
  {
    if writes != [] {
      var before, w := writes[..|writes|-1], writes[|writes|-1];
      LogIsNeverBlank(before, s, sectors, e2end);
      if w.addr <= e2end {
        RecordsAreNeverBlankIff(sectors, e2end);
        OffsetIsByte(w.addr, sectors, e2end);
        NoBlankRecords(Image(LogOf(before, s, sectors, e2end))[Offset(w.addr, sectors) := w.data], 256);
      }
    }
  }

  ghost predicate AlwaysRebuilt(sectors: nat, e2end: nat)
    requires Geometry(sectors, e2end)
  {
    forall writes: seq<Write>, s: nat ::
      FirstBlank(Cells(LogOf(writes, s, sectors, e2end))) == |LogOf(writes, s, sectors, e2end)|
  }

  /** Writing 0 and then 255 at offset 255. */
  lemma LosingLog(addr: nat, sectors: nat, e2end: nat)
    requires Geometry(sectors, e2end) && addr <= e2end && Offset(addr, sectors) == 255
    ensures AfterWrite([], Sector(addr, sectors), Write(addr, 0), sectors, e2end) == [Record(255, 0)]
    ensures AfterWrite([Record(255, 0)], Sector(addr, sectors), Write(addr, 255), sectors, e2end)
      == [Record(255, 0), BLANK]
  {
    hide Sector, Offset, Records, Image, Geometry;
    RecordHolds(255, 0);
    assert LastFor([], 255) == 255 && LastFor([Record(255, 0)], 255) == 0;
    assert Written([], 255, 0) == [] + [Record(255, 0)];
    assert Written([Record(255, 0)], 255, 255) == [Record(255, 0)] + [Record(255, 255)];
    assert Record(255, 255) == BLANK;
  }

  lemma LostRecord()
    ensures var cells := Cells([Record(255, 0), BLANK]); FirstBlank(cells) == 1 && LastFor(cells[..1], 255) == 0
  {
    var cells := Cells([Record(255, 0), BLANK]);
    RecordHolds(255, 0);
    FirstBlankIs(cells, 1);
    assert cells[..1] == [Record(255, 0)];
  }

  /** Two writes to an address with offset 255 that a restart forgets. */
  lemma LosingWrites(addr: nat, sectors: nat, e2end: nat) returns (writes: seq<Write>)
    requires Geometry(sectors, e2end) && addr <= e2end && Offset(addr, sectors) == 255
    ensures var log := LogOf(writes, Sector(addr, sectors), sectors, e2end);
      FirstBlank(Cells(log)) < |log| && LastFor(Cells(log)[..FirstBlank(Cells(log))], 255) != LastWritten(writes, addr)
  {
    hide AfterWrite, Cells, FirstBlank, LastFor, Sector, Offset;
    writes := [Write(addr, 0), Write(addr, 255)];
    LosingLog(addr, sectors, e2end);
    LostRecord();
    OneWriteMore([], writes, 0, Sector(addr, sectors), sectors, e2end);
    OneWriteMore([], writes, 1, Sector(addr, sectors), sectors, e2end);
    assert writes[..0] == [] && writes[..2] == writes;
  }

  /** Re-initialising finds the end of every log, after every sequence of writes, exactly
      when the highest address stays below 252 bytes a sector plus 3. */
  lemma AlwaysRebuiltIff(sectors: nat, e2end: nat)
    requires Geometry(sectors, e2end)
    ensures AlwaysRebuilt(sectors, e2end) <==> e2end < 252 * sectors + 3
  {
    if e2end < 252 * sectors + 3 {
      forall writes: seq<Write>, s: nat
        ensures FirstBlank(Cells(LogOf(writes, s, sectors, e2end))) == |LogOf(writes, s, sectors, e2end)|
      {
        var log := LogOf(writes, s, sectors, e2end);
        LogIsNeverBlank(writes, s, sectors, e2end);
        FirstBlankIs(Cells(log), |log|);
      }
    } else {
      RecordsAreNeverBlankIff(sectors, e2end);
      var addr: nat :| addr <= e2end && Offset(addr, sectors) == 255;
      var writes := LosingWrites(addr, sectors, e2end);
      assert FirstBlank(Cells(LogOf(writes, Sector(addr, sectors), sectors, e2end)))
        != |LogOf(writes, Sector(addr, sectors), sectors, e2end)|;
    }
  }
}

/** The EEPROM emulation: records appended to erase-once flash, an index in RAM that is
    rebuilt by scanning, and compaction of full sectors. */
module EepromEmulation {
  import opened EepromLog
  import opened EepromRuns

  class Eeprom {
    const sectors: nat
    const e2end: nat
    const flash: array<seq<Word>>
    const sectorIndex: array<nat>
    var initialized: bool
    /** How often each sector was erased, and how often a write changed a value in it. */
    ghost var erases: seq<nat>
    ghost var changes: seq<nat>

    ghost predicate Shape()
      reads this, flash
    {
      && Geometry(sectors, e2end)
      && flash.Length == sectors && sectorIndex.Length == sectors && sectorIndex as object != flash
      && |erases| == sectors && |changes| == sectors
      && forall s :: 0 <= s < sectors ==> |flash[s]| == SECTOR_WORDS
    }

    /** Where the log of a sector ends: in the RAM index or, before it is built, at the
        first blank word. */
    ghost function End(s: nat): nat
      requires Shape() && s < sectors
      reads this, flash, sectorIndex
    {
      if initialized then sectorIndex[s] else FirstBlank(flash[s])
    }

    ghost function Log(s: nat): seq<Word>
      requires Shape() && s < sectors
      reads this, flash, sectorIndex
    {
      if End(s) <= SECTOR_WORDS then flash[s][..End(s)] else flash[s]
    }

    ghost predicate SectorOk(s: nat)
      requires Shape() && s < sectors
      reads this, flash, sectorIndex
    {
      && End(s) <= SECTOR_WORDS
      && BlankFrom(flash[s], End(s))
      && (e2end < 252 * sectors + 3 ==> NoBlank(Log(s)))
      && 1793 * erases[s] + End(s) <= changes[s]
    }

    ghost predicate Valid()
      reads this, flash, sectorIndex
    {
      Shape() && forall s :: 0 <= s < sectors ==> SectorOk(s)
    }

    /** The byte stored at an address. */
    ghost function Value(addr: nat): byte
      requires Valid()
      reads this, flash, sectorIndex
    {
      if addr > e2end then 255
      else
        OffsetIsByte(addr, sectors, e2end);
        LastFor(Log(Sector(addr, sectors)), Offset(addr, sectors))
    }

    /** The flash of a sector: 2048 words, its log first, and erased words behind that. */
    lemma InFlash(s: nat)
      requires Valid() && s < sectors
      ensures |flash[s]| == 2048 && flash[s] == Cells(Log(s))
    {
      assert SectorOk(s);
      assert flash[s] == flash[s][..End(s)] + flash[s][End(s)..];
      assert flash[s][End(s)..] == seq(SECTOR_WORDS - End(s), _ => BLANK);
    }

    /** What a sector holds, and the counters say, once `writes` were made on top of `log0`. */
    ghost predicate WrittenAs(s: nat, log0: seq<Word>, changes0: seq<nat>, erases0: seq<nat>, writes: seq<Write>)
      requires Shape() && s < sectors == |changes0| == |erases0|
      reads this, flash, sectorIndex
    {
      && Log(s) == AfterWrites(log0, writes, s, sectors, e2end)
      && changes[s] == changes0[s] + Alterations(log0, writes, s, sectors, e2end)
      && erases[s] == erases0[s] + Erasures(log0, writes, s, sectors, e2end)
    }

    constructor (sectors: nat, e2end: nat)
      requires Geometry(sectors, e2end)
      ensures Valid() && this.sectors == sectors && this.e2end == e2end
      ensures forall a :: Value(a) == 255
      ensures forall s :: 0 <= s < sectors ==> Log(s) == [] && erases[s] == changes[s] == 0
    {
      this.sectors, this.e2end := sectors, e2end;
      flash := new seq<Word>[sectors](_ => seq(SECTOR_WORDS, _ => BLANK));
      sectorIndex := new nat[sectors];
      initialized := false;
      erases, changes := seq(sectors, _ => 0), seq(sectors, _ => 0);
    }

    /** Programming flash can only clear bits: the cell has to be erased. */
    method FlashWrite(s: nat, i: nat, w: Word)
      requires Shape() && s < sectors && i < SECTOR_WORDS && flash[s][i] == BLANK
      modifies flash
      ensures flash[s] == old(flash[s])[i := w]
      ensures forall t :: 0 <= t < sectors && t != s ==> flash[t] == old(flash[t])
    {
      flash[s] := flash[s][i := w];
    }

    method FlashEraseSector(s: nat)
      requires Shape() && s < sectors
      modifies flash, this`erases
      ensures |flash[s]| == SECTOR_WORDS && BlankFrom(flash[s], 0)
      ensures forall t :: 0 <= t < sectors && t != s ==> flash[t] == old(flash[t])
      ensures erases == old(erases)[s := old(erases[s]) + 1]
    {
      flash[s] := seq(SECTOR_WORDS, _ => BLANK);
      erases := erases[s := erases[s] + 1];
    }

    /** Rebuilds the index from flash. */
    method Initialize()
      requires Valid() && !initialized
      modifies this`initialized, sectorIndex
      ensures Valid() && initialized
      ensures forall s :: 0 <= s < sectors ==> Log(s) == old(Log(s))
    {
      var sector := 0;
      while sector < sectors
        invariant 0 <= sector <= sectors
        invariant forall s :: 0 <= s < sector ==> sectorIndex[s] == FirstBlank(flash[s])
      {
        var p, index := 0, 0;
        while p < SECTOR_WORDS
          invariant 0 <= p == index <= SECTOR_WORDS
          invariant forall i :: 0 <= i < p ==> flash[sector][i] != BLANK
        {
          if flash[sector][p] == BLANK {
            break;
          }
          p := p + 1;
          index := index + 1;
        }
        FirstBlankIs(flash[sector], index);
        sectorIndex[sector] := index;
        sector := sector + 1;
      }
      initialized := true;
      forall s | 0 <= s < sectors
        ensures SectorOk(s) && Log(s) == old(Log(s))
      {
        assert old(SectorOk(s));
        assert End(s) == old(End(s)) && flash[s] == old(flash[s]);
      }
    }

    /** Scans the log of a sector for the last record of an offset. */
    method Scan(s: nat, offset: byte) returns (data: byte)
      requires Valid() && initialized && s < sectors
      ensures SectorOk(s) && data == LastFor(Log(s), offset)
    {
      assert SectorOk(s);
      data := 255;
      var p := 0;
      while p < sectorIndex[s]
        invariant 0 <= p <= sectorIndex[s]
        invariant data == LastFor(flash[s][..p], offset)
      {
        var val := flash[s][p];
        if val % 256 == offset {
          data := val / 256;
        }
        assert flash[s][..p+1][..p] == flash[s][..p];
        p := p + 1;
      }
    }

    method ReadByte(addr: nat) returns (data: byte)
      requires Valid()
      modifies this`initialized, sectorIndex
      ensures Valid() && data == old(Value(addr)) && forall a :: Value(a) == old(Value(a))
    {
      if addr > e2end {
        return 255;
      }
      if !initialized {
        Initialize();
      }
      OffsetIsByte(addr, sectors, e2end);
      data := Scan(addr / 4 % sectors, addr % 4 + 4 * (addr / 4 / sectors));
    }

    /** Appends one record to a sector that has room for it. */
    method Append(s: nat, offset: byte, data: byte)
      requires Valid() && initialized && s < sectors && sectorIndex[s] < SECTOR_WORDS
      requires e2end < 252 * sectors + 3 ==> offset != 255
      modifies flash, sectorIndex, this`changes
      ensures Valid() && Log(s) == old(Log(s)) + [Record(offset, data)]
      ensures changes == old(changes)[s := old(changes)[s] + 1]
      ensures forall t :: 0 <= t < sectors && t != s ==> Log(t) == old(Log(t))
    {
      assert SectorOk(s);
      var index := sectorIndex[s];
      FlashWrite(s, index, Record(offset, data));
      sectorIndex[s] := sectorIndex[s] + 1;
      changes := changes[s := changes[s] + 1];
      assert Log(s) == old(Log(s)) + [Record(offset, data)];
      forall t | 0 <= t < sectors
        ensures SectorOk(t) && (t != s ==> Log(t) == old(Log(t)))
      {
        assert old(SectorOk(t));
      }
    }

    /** The newest value of every offset of a full sector. */
    method Collect(s: nat) returns (buf: array<byte>)
      requires Valid() && initialized && s < sectors && sectorIndex[s] == SECTOR_WORDS
      ensures fresh(buf) && buf.Length == 256 && buf[..] == Image(Log(s))
    {
      assert SectorOk(s);
      buf := new byte[256](_ => 255);
      var p := 0;
      while p < SECTOR_WORDS
        invariant 0 <= p <= SECTOR_WORDS
        invariant forall o :: 0 <= o < 256 ==> buf[o] == LastFor(flash[s][..p], o)
      {
        var val := flash[s][p];
        assert flash[s][..p+1][..p] == flash[s][..p];
        buf[val % 256] := val / 256;
        p := p + 1;
      }
      assert flash[s][..SECTOR_WORDS] == Log(s);
    }

    /** Writes the records of an image into an erased sector. */
    method WriteImage(s: nat, buf: array<byte>) returns (index: nat)
      requires Shape() && s < sectors && BlankFrom(flash[s], 0) && buf.Length == 256
      requires buf as object != flash && buf as object != sectorIndex
      modifies flash
      ensures Shape() && index == |Records(buf[..], 256)|
      ensures flash[s][..index] == Records(buf[..], 256) && BlankFrom(flash[s], index)
      ensures forall t :: 0 <= t < sectors && t != s ==> flash[t] == old(flash[t])
    {
      index := 0;
      ghost var image := buf[..];
      var i := 0;
      while i < 256
        invariant 0 <= i <= 256 && Shape() && buf[..] == image
        invariant index == |Records(image, i)| && flash[s][..index] == Records(image, i)
        invariant BlankFrom(flash[s], index)
        invariant forall t :: 0 <= t < sectors && t != s ==> flash[t] == old(flash[t])
      {
        if buf[i] != 255 {
          ghost var was := flash[s];
          FlashWrite(s, index, Record(i, buf[i]));
          assert flash[s][..index+1] == was[..index] + [Record(i, buf[i])];
          index := index + 1;
        }
        i := i + 1;
      }
    }

    /** Rewrites a full sector with the newest values only. */
    method Compact(s: nat, offset: byte, data: byte)
      requires Valid() && initialized && s < sectors && sectorIndex[s] == SECTOR_WORDS
      modifies flash, sectorIndex, this`changes, this`erases
      ensures Valid() && Log(s) == Records(Image(old(Log(s)))[offset := data], 256)
      ensures changes == old(changes)[s := old(changes)[s] + 1]
      ensures erases == old(erases)[s := old(erases)[s] + 1]
      ensures forall t :: 0 <= t < sectors && t != s ==> Log(t) == old(Log(t))
    {
      assert SectorOk(s);
      var buf := Collect(s);
      buf[offset] := data;
      FlashEraseSector(s);
      var index := WriteImage(s, buf);
      sectorIndex[s] := index;
      changes := changes[s := changes[s] + 1];
      NoBlankRecords(buf[..], 256);
      forall t | 0 <= t < sectors
        ensures SectorOk(t) && (t != s ==> Log(t) == old(Log(t)))
      {
        assert old(SectorOk(t));
      }
    }

    /** Records `data` for an offset of a sector, if that changes anything. */
    method Put(s: nat, offset: byte, data: byte)
      requires Valid() && initialized && s < sectors
      requires e2end < 252 * sectors + 3 ==> offset != 255
      modifies flash, sectorIndex, this`changes, this`erases
      ensures Valid() && Log(s) == Written(old(Log(s)), offset, data)
      ensures var changed := LastFor(old(Log(s)), offset) != data;
        && changes == old(changes)[s := old(changes)[s] + if changed then 1 else 0]
        && erases == old(erases)[s := old(erases)[s] + if changed && |old(Log(s))| == SECTOR_WORDS then 1 else 0]
      ensures forall t :: 0 <= t < sectors && t != s ==> Log(t) == old(Log(t))
    {
      assert SectorOk(s);
      var olddata := Scan(s, offset);
      if data == olddata {
        return;
      }
      if sectorIndex[s] < SECTOR_WORDS {
        Append(s, offset, data);
      } else {
        Compact(s, offset, data);
      }
    }

    /** Writes to an address there is. */
    method Store(addr: nat, data: byte)
      requires Valid() && addr <= e2end
      modifies flash, sectorIndex, this`initialized, this`changes, this`erases
      ensures Valid()
      ensures forall s :: 0 <= s < sectors ==>
        Log(s) == AfterWrite(old(Log(s)), s, Write(addr, data), sectors, e2end)
      ensures var s := Sector(addr, sectors);
        && changes == old(changes)[s := old(changes)[s] + if old(Value(addr)) != data then 1 else 0]
        && erases == old(erases)[s := old(erases)[s] +
                                 if old(Value(addr)) != data && old(|Log(s)|) == SECTOR_WORDS then 1 else 0]
    {
      hide LastFor, Written;
      if !initialized {
        Initialize();
      }
      OffsetIsByte(addr, sectors, e2end);
      Put(Sector(addr, sectors), Offset(addr, sectors), data);
    }

    /** Afterwards the address reads `data`, and every other address what it read before. */
    method WriteByte(addr: nat, data: byte)
      requires Valid()
      modifies flash, sectorIndex, this`initialized, this`changes, this`erases
      ensures Valid()
      ensures forall s :: 0 <= s < sectors ==>
        Log(s) == AfterWrite(old(Log(s)), s, Write(addr, data), sectors, e2end)
      ensures forall a: nat :: Value(a) == if a == addr && addr <= e2end then data else old(Value(a))
      ensures var s, changed := Sector(addr, sectors), addr <= e2end && old(Value(addr)) != data;
        && changes == old(changes)[s := old(changes)[s] + if changed then 1 else 0]
        && erases == old(erases)[s := old(erases)[s] + if changed && old(|Log(s)|) == SECTOR_WORDS then 1 else 0]
      ensures forall s :: 0 <= s < sectors ==>
        var alters := Alters(old(Log(s)), s, Write(addr, data), sectors, e2end);
        && changes[s] == old(changes)[s] + (if alters then 1 else 0)
        && erases[s] == old(erases)[s] + (if alters && |old(Log(s))| == SECTOR_WORDS then 1 else 0)
    {
      if addr > e2end {
        return;
      }
      Store(addr, data);
      forall a: nat | a <= e2end
        ensures Value(a) == if a == addr then data else old(Value(a))
      {
        AfterWriteReads(old(Log(Sector(a, sectors))), Write(addr, data), a, sectors, e2end);
      }
    }

    /** In every reachable state at least 1793 writes for each erasure of a sector have
        changed a value in it, and those it has room for come on top. */
    lemma WearBound(s: nat)
      requires Valid() && s < sectors
      ensures 1793 * erases[s] + |Log(s)| <= changes[s]
    {
      assert SectorOk(s);
    }

    method ReadBlock(addr: nat, len: nat) returns (dest: seq<byte>)
      requires Valid()
      modifies this`initialized, sectorIndex
      ensures Valid() && |dest| == len
      ensures forall i :: 0 <= i < len ==> dest[i] == old(Value(addr + i))
      ensures forall a :: Value(a) == old(Value(a))
    {
      dest := [];
      while |dest| < len
        invariant Valid() && |dest| <= len
        invariant forall i :: 0 <= i < |dest| ==> dest[i] == old(Value(addr + i))
        invariant forall a :: Value(a) == old(Value(a))
      {
        var data := ReadByte(addr + |dest|);
        dest := dest + [data];
      }
    }

    /** A block written can be read back, as far as it fits below the highest address. */
    method WriteBlock(src: seq<byte>, addr: nat)
      requires Valid()
      modifies flash, sectorIndex, this`initialized, this`changes, this`erases
      ensures Valid()
      ensures forall a: nat :: Value(a) == if addr <= a < addr + |src| && a <= e2end then src[a-addr] else old(Value(a))
      ensures forall s :: 0 <= s < sectors ==>
        WrittenAs(s, old(Log(s)), old(changes), old(erases), BlockWrites(src, addr))
    {
      hide LastFor, Written, AfterWrite, Alters, AfterWrites, Alterations, Erasures;
      ghost var writes := BlockWrites(src, addr);
      var i := 0;
      assert writes[..0] == [];
      forall s | 0 <= s < sectors
        ensures WrittenAs(s, Log(s), changes, erases, writes[..0])
      {
        NoWrites(Log(s), s, sectors, e2end);
      }
      while i < |src|
        invariant Valid() && 0 <= i <= |src|
        invariant forall s :: 0 <= s < sectors ==> WrittenAs(s, old(Log(s)), old(changes), old(erases), writes[..i])
        invariant forall a: nat :: Value(a) == if addr <= a < addr + i && a <= e2end then src[a-addr] else old(Value(a))
      {
        assert writes[i] == Write(addr + i, src[i]);
        WriteByte(addr + i, src[i]);
        forall s | 0 <= s < sectors
          ensures WrittenAs(s, old(Log(s)), old(changes), old(erases), writes[..i + 1])
        {
          OneWriteMore(old(Log(s)), writes, i, s, sectors, e2end);
        }
        i := i + 1;
      }
      assert writes[..|src|] == writes;
    }

    /** The RAM index is lost; flash stays. */
    method PowerCycle()
      requires Valid()
      modifies this`initialized
      ensures !initialized
      ensures e2end < 252 * sectors + 3 ==> Valid() && forall a :: Value(a) == old(Value(a))
    {
      initialized := false;
      if e2end < 252 * sectors + 3 {
        forall s | 0 <= s < sectors
          ensures SectorOk(s) && Log(s) == old(Log(s))
        {
          assert old(SectorOk(s));
          RebuiltIff(flash[s], old(End(s)));
        }
      }
    }
  }
}
