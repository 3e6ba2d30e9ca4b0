/** The code of the two machines, tied to the values of module Transfer. */
module TransferMachines {
  import opened Transfer

  datatype Option<T> = None | Some(value: T)

  /** The file sender of the robot: its globals and its request handler. */
  class LogSender {
    var ethFile: seq<byte>
    var fileOpen: bool
    var filePos: nat
    var infoHandlerSet: bool
    var sendFilePacketsCounter: nat
    var repeatSendCounter: nat
    /** The payload part of the packet buffer, `fileReadInfoSize` bytes long. */
    var packet: seq<byte>

    constructor ()
      ensures !infoHandlerSet && !fileOpen && Value() == Server([], false, 0, 0, 0, [])
    {
      ethFile, fileOpen, filePos, infoHandlerSet := [], false, 0, false;
      sendFilePacketsCounter, repeatSendCounter, packet := 0, 0, [];
    }

    function Value(): Server
      reads this
    {
      Server(ethFile, infoHandlerSet, filePos, sendFilePacketsCounter, repeatSendCounter, packet)
    }

    /** The "get" command.  An empty file is refused but stays open, and the next request
        then finds a file open: `goesOn` says whether the failed mxat lets it go on.  There
        is no reply if it does not; if it does, opening closes what was open first. */
    method LfGetFile(lfWriting: bool, lfGood: bool, goesOn: bool, found: Option<seq<byte>>)
      returns (code: nat, reply: Option<ToClient>)
      modifies this
      ensures reply == None <==> !lfWriting && lfGood && old(fileOpen) && !goesOn
      ensures reply == None ==> Value() == old(Value()) && fileOpen == old(fileOpen)
      ensures reply.Some? ==>
        code == if lfWriting then 1 else if !lfGood then 2 else if found.None? then 3
          else if found.value == [] then 4 else 0
      ensures reply.Some? && code == 0 ==>
        && Value() == Opened(found.value, old(repeatSendCounter), old(packet))
        && reply.value == Offer(AsInt(|found.value|))
      ensures reply.Some? && code != 0 ==>
        && Value() == (if code == 4 then old(Value()).(file := [], pos := 0) else old(Value()))
        && reply.value == Refusal
      ensures reply.Some? ==> fileOpen == if lfWriting || !lfGood then old(fileOpen) else found.Some?
    {
      if lfWriting {
        return 1, Some(Refusal);
      }
      if !lfGood {
        return 2, Some(Refusal);
      }
      if fileOpen && !goesOn {
        return 0, None;
      }
      fileOpen := false;
      if found.None? {
        return 3, Some(Refusal);
      }
      ethFile, fileOpen, filePos := found.value, true, 0;
      if |ethFile| <= 0 {
        return 4, Some(Refusal);
      }
      sendFilePacketsCounter := 0;
      infoHandlerSet := true;
      return 0, Some(Offer(AsInt(|ethFile|)));
    }

    method Complete() returns (out: seq<ToClient>)
      modifies this
      ensures Value() == old(Value()).(open := false) && !fileOpen && out == [EndOfFile]
    {
      infoHandlerSet := false;
      fileOpen := false;
      out := [EndOfFile];
    }

    /** Serves a request; `n` is what reading the next block of the file returned, if it was read. */
    method Handle(r: ToServer, n: nat) returns (out: seq<ToClient>)
      requires ReadResult(Value(), n)
      modifies this
      ensures (Value(), out) == Served(old(Value()), r, n)
    {
      if !infoHandlerSet {
        return [];
      }
      match r
      case Finish =>
        out := Complete();
      case Next(pn) =>
        repeatSendCounter := 0;
        if sendFilePacketsCounter > pn {
          return [];
        }
        packet := ethFile[filePos..filePos + n];
        filePos := filePos + n;
        sendFilePacketsCounter := sendFilePacketsCounter + 1;
        if n > 0 {
          out := [Frame(sendFilePacketsCounter, packet)];
        } else {
          out := Complete();
        }
      case Again(_) =>
        repeatSendCounter := repeatSendCounter + 1;
        if repeatSendCounter >= MAXIMUM_REPEATS {
          out := Complete();
        } else {
          out := [Frame(sendFilePacketsCounter, packet)];
        }
    }
  }

  /** The file reader of the console. */
  class EthClient {
    var readingTheLogFile: int
    var fileSize: int
    var fileBytesCounter: int
    var packetsCounter: nat
    var badPacketCounter: nat
    var counterErrorCounter: nat
    var theFile: seq<byte>
    /** Has the current transfer got as far as opening the file; did it end by byte count? */
    ghost var begun: bool
    ghost var complete: bool

    ghost predicate Valid()
      reads this
    {
      && 0 <= readingTheLogFile <= 2
      && (begun ==> fileBytesCounter == |theFile| && readingTheLogFile != 1)
      && (!begun ==> readingTheLogFile != 2)
    }

    ghost function Value(): Client
      requires Valid()
      reads this
    {
      var phase := if readingTheLogFile == 0 then Off else if readingTheLogFile == 1 then Asked else Reading;
      if begun then
        Client(phase, fileSize, theFile, packetsCounter, badPacketCounter, counterErrorCounter, complete)
      else Waiting.(phase := phase)
    }

    constructor ()
      ensures Valid() && Value() == Waiting.(phase := Off)
    {
      readingTheLogFile, fileSize, fileBytesCounter, packetsCounter := 0, 0, 0, 0;
      badPacketCounter, counterErrorCounter, theFile, begun, complete := 0, 0, [], false, false;
    }

    /** The user's "get" command was sent. */
    method Request()
      requires Valid()
      modifies this
      ensures Valid() && Value() == Waiting
    {
      readingTheLogFile := 1;
      begun := false;
    }

    method Answered(m: ToClient, openOk: bool, writeOk: bool) returns (out: seq<ToServer>)
      requires Valid() && readingTheLogFile == 1
      modifies this
      ensures Valid() && (Value(), out) == Got(old(Value()), m, openOk, writeOk)
    {
      out := [];
      if m.Offer? {
        fileSize := m.size;
        if !openOk {
          readingTheLogFile := 0;
        } else {
          readingTheLogFile := 2;
          fileBytesCounter, packetsCounter, badPacketCounter, counterErrorCounter, theFile := 0, 1, 0, 0, [];
          begun, complete := true, false;
          out := if writeOk then [Next(0)] else [];
        }
      } else if m.Refusal? {
        readingTheLogFile := 0;
      }
    }

    method Accepted(incoming: nat, payload: seq<byte>, writeOk: bool) returns (out: seq<ToServer>)
      requires Valid() && readingTheLogFile == 2
      modifies this
      ensures Valid() && (Value(), out) == Stored(old(Value()), incoming, payload, writeOk)
    {
      out := [];
      if packetsCounter < incoming {
        packetsCounter := incoming;
      }
      if incoming < packetsCounter {
        counterErrorCounter := counterErrorCounter + packetsCounter - incoming;
        return;
      }
      theFile := theFile + payload;
      fileBytesCounter := fileBytesCounter + |payload|;
      if fileBytesCounter >= fileSize {
        readingTheLogFile := 0;
        complete := true;
        out := if writeOk then [Finish, Finish] else [];
      } else {
        out := if writeOk then [Next(packetsCounter)] else [];
        packetsCounter := packetsCounter + 1;
        if !writeOk {
          readingTheLogFile := 0;
        }
      }
    }

    method ReadingTheFile(m: ToClient, openOk: bool, writeOk: bool) returns (out: seq<ToServer>)
      requires Valid()
      modifies this
      ensures Valid() && (Value(), out) == Got(old(Value()), m, openOk, writeOk)
    {
      out := [];
      if readingTheLogFile == 1 {
        out := Answered(m, openOk, writeOk);
      } else if readingTheLogFile == 2 {
        if m.Frame? {
          out := Accepted(m.counter, m.payload, writeOk);
        } else {
          if m.EndOfFile? {
            readingTheLogFile := 0;
          }
          badPacketCounter := badPacketCounter + 1;
          if writeOk {
            out := [Again(packetsCounter)];
          } else {
            readingTheLogFile := 0;
          }
        }
      }
    }
  }
}

/** The bytes on the wire, and how the console puts a packet together. */
module TransferWire {
  import opened Transfer
  import opened TransferMachines

  const TBWF: seq<byte> := [84, 66, 87, 70]
  const TBWN: seq<byte> := [84, 66, 87, 78]
  const TEEE: seq<byte> := [84, 69, 69, 69]
  const BUF_SIZE := 2050
  const WAITS := 5

  type Word = x: int | 0 <= x < TWO_32

  /** A 32-bit number, least significant byte first. */
  function Bytes4(n: Word): (s: seq<byte>)
    ensures |s| == 4 && Number4(s) == n
  {
    var n1: int := n / 256;
    var n2: int := n1 / 256;
    [n % 256, n1 % 256, n2 % 256, n2 / 256]
  }

  function Number4(s: seq<byte>): Word
    requires |s| == 4
  {
    var b0: int, b1: int, b2: int, b3: int := s[0], s[1], s[2], s[3];
    b0 + 256 * (b1 + 256 * (b2 + 256 * b3))
  }

  lemma Number4Injective(s: seq<byte>)
    requires |s| == 4
    ensures Bytes4(Number4(s)) == s
  {
    var b0: int, b1: int, b2: int, b3: int := s[0], s[1], s[2], s[3];
    assert Number4(s) / 256 == b1 + 256 * (b2 + 256 * b3);
    assert Number4(s) / 256 / 256 == b2 + 256 * b3;
  }

  function Sum4(b0: int, b1: int, b2: int, b3: int): int {
    b0 + 256 * b1 + 65536 * b2 + 16777216 * b3
  }

  // ---------- requests of the console ----------

  /** The 16 bytes of a request; after "TEEE" and a zero the buffer still holds `rest`. */
  function RequestBytes(m: ToServer, rest: seq<byte>): (s: seq<byte>)
    requires m.Finish? || m.pn < TWO_32
    requires |rest| == 11
    ensures |s| == HEADER_SIZE
  {
    match m
    case Next(pn) => TBWF + [0, 0, 0, 0] + Bytes4(pn) + [0, 0, 0, 0]
    case Again(pn) => TBWN + [0, 0, 0, 0] + Bytes4(pn) + [0, 0, 0, 0]
    case Finish => TEEE + [0] + rest
  }

  /** Where the number is: behind the word and four zeros, its lowest byte first. */
  lemma RequestLayout(m: ToServer, rest: seq<byte>)
    requires (m.Finish? || m.pn < TWO_32) && |rest| == 11
    ensures var s := RequestBytes(m, rest);
      && (!m.Finish? ==> Sum4(s[8], s[9], s[10], s[11]) == m.pn && s[4..8] == [0, 0, 0, 0] == s[12..])
      && (m.Finish? ==> s[4] == 0 && s[5..] == rest)
  {
    var s := RequestBytes(m, rest);
    if !m.Finish? {
      assert s[8..12] == Bytes4(m.pn);
    }
  }

  /** What the robot's receive loop makes of one read while a transfer is on. */
  function Dispatched(packet: seq<byte>): Option<ToServer> {
    if |packet| < HEADER_SIZE then None
    else if packet[..4] == TBWF then Some(Next(Number4(packet[8..12])))
    else if packet[..4] == TBWN then Some(Again(Number4(packet[8..12])))
    else if packet[..4] == TEEE then Some(Finish)
    else None
  }

  /** The robot understands every request, also when more bytes arrive glued to it. */
  lemma RequestUnderstood(m: ToServer, rest: seq<byte>, more: seq<byte>)
    requires (m.Finish? || m.pn < TWO_32) && |rest| == 11
    ensures Dispatched(RequestBytes(m, rest) + more) == Some(m)
  {
    var packet := RequestBytes(m, rest) + more;
    match m
    case Next(pn) =>
      assert packet[..4] == TBWF && packet[8..12] == Bytes4(pn);
    case Again(pn) =>
      assert packet[..4] == TBWN && packet[8..12] == Bytes4(pn);
      assert TBWN[3] != TBWF[3];
    case Finish =>
      assert packet[..4] == TEEE;
      assert TEEE[1] != TBWF[1] && TEEE[1] != TBWN[1];
  }

  /** And nothing else: a read of at least 16 bytes that begins with one of three words. */
  lemma OnlyRequestsUnderstood(packet: seq<byte>)
    ensures Dispatched(packet).Some? <==> (
      && |packet| >= 16
      && (Text(packet[..4]) == "TBWF" || Text(packet[..4]) == "TBWN" || Text(packet[..4]) == "TEEE"))
    ensures var m := Dispatched(packet);
      m.Some? ==> (m.value.Next? <==> Text(packet[..4]) == "TBWF") && (m.value.Again? <==> Text(packet[..4]) == "TBWN")
  {
    if |packet| >= 4 {
      var head := packet[..4];
      assert packet[..4] == [head[0], head[1], head[2], head[3]];
      assert Text(packet[..4]) == [head[0] as char, head[1] as char, head[2] as char, head[3] as char];
    }
  }

  function Text(s: seq<byte>): string {
    seq(|s|, i requires 0 <= i < |s| => s[i] as char)
  }

  // ---------- packets of the robot ----------

  /** A packet as sendEthPacket builds it; `crc` is the 16-bit checksum of a payload. */
  function FrameBytes(k: Word, payload: seq<byte>, crc: seq<byte> -> (byte, byte)): (s: seq<byte>)
    requires |payload| < TWO_31
    ensures |s| == HEADER_SIZE + |payload|
  {
    TBWF + Bytes4(|payload|) + Bytes4(k) + [crc(payload).0, crc(payload).1] + [0, 0] + payload
  }

  /** Where its fields are: numbers start with their lowest byte. */
  lemma FrameLayout(k: Word, payload: seq<byte>, crc: seq<byte> -> (byte, byte))
    requires |payload| < TWO_31
    ensures var s := FrameBytes(k, payload, crc);
      && Text(s[..4]) == "TBWF" && s[16..] == payload && s[14] == s[15] == 0 && (s[12], s[13]) == crc(payload)
      && Sum4(s[4], s[5], s[6], s[7]) == |payload| && Sum4(s[8], s[9], s[10], s[11]) == k
  {
    var s := FrameBytes(k, payload, crc);
    assert s[4..8] == Bytes4(|payload|) && s[8..12] == Bytes4(k);
    assert s[..4] == TBWF;
  }

  /** The checks on a packet once its bytes are together. */
  function Checked(buf: seq<byte>, crc: seq<byte> -> (byte, byte)): ToClient {
    if |buf| < HEADER_SIZE || buf[..4] != TBWF then Noise
    else
      var size := Number4(buf[4..8]);
      if size >= TWO_31 || |buf| < size + HEADER_SIZE then Noise
      else
        var payload := buf[HEADER_SIZE..HEADER_SIZE + size];
        if (buf[12], buf[13]) != crc(payload) || buf[14] != 0 || buf[15] != 0 then Noise
        else Frame(Number4(buf[8..12]), payload)
  }

  lemma FrameUnderstood(k: Word, payload: seq<byte>, crc: seq<byte> -> (byte, byte), more: seq<byte>)
    requires |payload| < TWO_31
    ensures Checked(FrameBytes(k, payload, crc) + more, crc) == Frame(k, payload)
  {
    var buf := FrameBytes(k, payload, crc) + more;
    assert buf[..4] == TBWF;
    assert buf[4..8] == Bytes4(|payload|);
    assert buf[8..12] == Bytes4(k);
    assert buf[HEADER_SIZE..HEADER_SIZE + |payload|] == payload;
  }

  /** Whatever passes the checks begins with exactly the bytes the robot would have sent. */
  lemma OnlyFramesUnderstood(buf: seq<byte>, crc: seq<byte> -> (byte, byte))
    requires Checked(buf, crc).Frame?
    ensures var f := Checked(buf, crc);
      f.counter < TWO_32 && |f.payload| < TWO_31 && FrameBytes(f.counter, f.payload, crc) <= buf
  {
    var f := Checked(buf, crc);
    Number4Injective(buf[4..8]);
    Number4Injective(buf[8..12]);
    var s := FrameBytes(f.counter, f.payload, crc);
    assert buf[4..8] == Bytes4(|f.payload|);
    forall i | 0 <= i < |s|
      ensures s[i] == buf[i]
    {
      if i < 4 {
        assert buf[i] == buf[..4][i];
      } else if i < 8 {
        assert buf[i] == buf[4..8][i-4];
      } else if i < 12 {
        assert buf[i] == buf[8..12][i-8];
      }
    }
  }

  // ---------- putting a packet together ----------

  lemma JoinedOneMore(parts: seq<seq<byte>>, k: nat)
    requires k < |parts|
    ensures Joined(parts[..k + 1]) == Joined(parts[..k]) + parts[k]
    ensures Joined(parts[..0]) == [] && Joined(parts[..1]) == parts[0]
  {
    assert parts[..k + 1][..k] == parts[..k];
    assert parts[..1][..0] == [];
  }

  /** One read of the socket: how many of `waiting` bytes it takes.  The comparison with
      what is needed is one of unsigned numbers. */
  function ReadSize(waiting: nat, space: nat, needed: int): nat {
    var bs := if waiting < space then waiting else space;
    if needed < 0 || bs < needed then bs else needed
  }

  /** The inner loop: reads what waits at the socket until the packet is complete or
      nothing is left.  Nothing is ever read again once the buffer is full with the packet
      still incomplete: the loop spins if bytes are waiting then. */
  method ReadWaiting(have: seq<byte>, waiting: seq<byte>, size: int)
    returns (all: seq<byte>, rest: seq<byte>, bs: nat, spins: bool)
    requires |have| <= BUF_SIZE
    ensures all + rest == have + waiting && have <= all && |all| <= BUF_SIZE
    ensures spins <==> |have| < size + HEADER_SIZE && BUF_SIZE < size + HEADER_SIZE && BUF_SIZE < |have + waiting|
    ensures |have| < size + HEADER_SIZE && !spins ==>
      && |all| == (if |have + waiting| < size + HEADER_SIZE then |have + waiting| else size + HEADER_SIZE)
      && (bs > 0 <==> |all| == size + HEADER_SIZE)
    ensures |have| == size + HEADER_SIZE ==> all == have && bs == 0
    ensures |have| > size + HEADER_SIZE ==>
      && bs == |all| - |have|
      && |all| == if |have + waiting| < BUF_SIZE then |have + waiting| else BUF_SIZE
  {
    all, rest, bs, spins := have, waiting, |waiting|, false;
    while bs > 0
      invariant bs == |rest| && all + rest == have + waiting && have <= all && |all| <= BUF_SIZE
      invariant |have| < size + HEADER_SIZE ==> |all| < size + HEADER_SIZE
      invariant |have| >= size + HEADER_SIZE ==> all == have && rest == waiting
      decreases |rest|
    {
      var haveSpaceInBuffer, needed := BUF_SIZE - |all|, size + HEADER_SIZE - |all|;
      bs := ReadSize(bs, haveSpaceInBuffer, needed);
      if bs == 0 && needed > 0 {
        spins := true;
        return;
      }
      all, rest := all + rest[..bs], rest[bs..];
      if |all| >= size + HEADER_SIZE {
        break;
      }
      bs := |rest|;
    }
  }

  lemma Joining(all: seq<byte>, rest: seq<byte>, more: seq<byte>, buf: seq<byte>, glued: seq<byte>)
    requires all + rest == buf + glued
    ensures all + (rest + more) == buf + (glued + more)
  {
    assert all + (rest + more) == (all + rest) + more;
  }

  /** How many bytes the buffer keeps of those there after `k` waits. */
  function Kept(buf: seq<byte>, arrivals: seq<seq<byte>>, k: nat): nat
    requires k <= |arrivals|
  {
    var there := |buf| + |Joined(arrivals[..k])|;
    if there < BUF_SIZE then there else BUF_SIZE
  }

  /** The console has read `buf`, which begins with the header of a packet with a payload of
      `size` bytes, and waits for the rest; `arrivals[i]` is what reaches the socket during
      wait `i`.  Only the first wait can help: it completes the packet or ends with an empty
      socket, and that ends the loop.  Behind more bytes than the packet has, the loop goes on
      as long as bytes arrive and fit.  What is already there is never changed. */
  method Reassemble(buf: seq<byte>, size: int, arrivals: seq<seq<byte>>)
    returns (all: seq<byte>, rest: seq<byte>, spins: bool, ghost waits: nat)
    requires HEADER_SIZE <= |buf| <= BUF_SIZE && |arrivals| == WAITS
    ensures waits <= WAITS && all + rest == buf + Joined(arrivals[..waits])
    ensures buf <= all && |all| <= BUF_SIZE
    ensures spins <==> size + 16 > 2050 && |buf + arrivals[0]| > 2050
    ensures |buf| <= size + HEADER_SIZE ==> (|all| == size + HEADER_SIZE <==>
      size + HEADER_SIZE <= BUF_SIZE && |buf + arrivals[0]| >= size + HEADER_SIZE)
    ensures |buf| < size + HEADER_SIZE && |all| == size + HEADER_SIZE ==>
      all == (buf + arrivals[0])[..size + HEADER_SIZE]
    ensures |buf| < size + HEADER_SIZE && |all| < size + HEADER_SIZE && !spins ==>
      all == buf + arrivals[0] && rest == []
    ensures |buf| == size + HEADER_SIZE ==> all == buf && waits == 0
    ensures |buf| < size + HEADER_SIZE ==> waits == if |all| == size + HEADER_SIZE then 2 else 1
    ensures |buf| > size + HEADER_SIZE ==>
      && |all| == Kept(buf, arrivals, waits)
      && (forall k :: 0 < k < waits ==> Kept(buf, arrivals, k - 1) < Kept(buf, arrivals, k))
      && 0 < waits <= 5 && (waits < 5 ==> Kept(buf, arrivals, waits - 1) == Kept(buf, arrivals, waits))
  {
    all, rest, spins, waits := buf, [], false, 0;
    JoinedOneMore(arrivals, 0);
    if size == |buf| - HEADER_SIZE {
      return;
    }
    var tCounter := 0;
    while tCounter < WAITS
      invariant 0 <= tCounter <= WAITS && waits == tCounter && buf <= all && |all| <= BUF_SIZE && !spins
      invariant tCounter == 0 ==> all == buf && rest == []
      invariant all + rest == buf + Joined(arrivals[..waits])
      invariant tCounter > 0 && |buf| < size + HEADER_SIZE ==>
        && |buf + arrivals[0]| >= size + HEADER_SIZE && all == (buf + arrivals[0])[..size + HEADER_SIZE]
        && tCounter == 1
      invariant |buf| > size + HEADER_SIZE ==>
        && |all| == Kept(buf, arrivals, tCounter)
        && forall k :: 0 < k <= tCounter ==> Kept(buf, arrivals, k - 1) < Kept(buf, arrivals, k)
    {
      JoinedOneMore(arrivals, tCounter);
      var bs;
      Joining(all, rest, arrivals[tCounter], buf, Joined(arrivals[..tCounter]));
      all, rest, bs, spins := ReadWaiting(all, rest + arrivals[tCounter], size);
      waits := waits + 1;
      if spins || bs < 1 {
        break;
      }
      tCounter := tCounter + 1;
    }
  }
}
