/**
 The packet reader of the gateway: a parser over arbitrary read chunks with a stateful header
 cipher.  A frame is a big-endian 16-bit length (which counts the opcode), a little-endian
 opcode of `opcodeSize` bytes, and the payload.  Only headers are enciphered.
 */
module PacketFraming {
  import opened Prelude
  import opened Bytes

  const MAX_PACKET_SIZE: int := 1024 * 1024
  const TWO_TO_THE_32: int := 0x1_0000_0000

  // ------------------------------------------------------------ the connection

  /** What the connection does next: deliver some bytes (possibly none), or fail. */
  datatype ReadEvent = Chunk(bytes: seq<byte>) | Fail

  /** The bytes that arrive before the next failure. */
  ghost function Arriving(events: seq<ReadEvent>): seq<byte> {
    if events == [] || events[0].Fail? then []
    else events[0].bytes + Arriving(events[1..])
  }

  ghost function TotalBytes(events: seq<ReadEvent>): nat {
    if events == [] then 0
    else (if events[0].Chunk? then |events[0].bytes| else 0) + TotalBytes(events[1..])
  }

  /** The events after the next failure. */
  ghost function AfterFailure(events: seq<ReadEvent>): seq<ReadEvent> {
    if events == [] then []
    else if events[0].Fail? then events[1..]
    else AfterFailure(events[1..])
  }

  class Connection {
    var events: seq<ReadEvent>

    constructor (events: seq<ReadEvent>)
      ensures this.events == events
    {
      this.events := events;
    }

    /** Reads into `buf[from..]`; an exhausted connection reports end of file. */
    method Read(buf: array<byte>, from: nat) returns (n: nat, failed: bool)
      requires from < buf.Length
      modifies this, buf
      ensures n <= buf.Length - from
      ensures failed ==> buf[..] == old(buf[..]) && n == 0 && old(Arriving(events)) == [] && events == old(AfterFailure(events))
      ensures !failed ==> buf[..from + n] + Arriving(events) == old(buf[..from] + Arriving(events))
      ensures !failed ==> AfterFailure(events) == old(AfterFailure(events))
      ensures !failed ==> |events| + TotalBytes(events) < old(|events| + TotalBytes(events))
      ensures failed ==> |events| + TotalBytes(events) <= old(|events| + TotalBytes(events))
    {
      hide Arriving, AfterFailure, TotalBytes;
      if events == [] || events[0].Fail? {
        NothingArrives(events);
        events := if events == [] then [] else events[1..];
        return 0, true;
      }
      var bytes := events[0].bytes;
      var room := buf.Length - from;
      n, failed := if |bytes| < room then |bytes| else room, false;
      Delivered(events, n);
      CopyTo(buf, from, bytes[..n]);
      ghost var rest := Arriving(AfterRead(events, n));
      ConcatAssociates(old(buf[..from]), bytes[..n], rest);
      events := AfterRead(events, n);
    }
  }

  /** The events once n bytes of the first chunk have been read. */
  function AfterRead(events: seq<ReadEvent>, n: nat): seq<ReadEvent>
    requires events != [] && events[0].Chunk? && n <= |events[0].bytes|
  {
    if n < |events[0].bytes| then [Chunk(events[0].bytes[n..])] + events[1..] else events[1..]
  }

  lemma NothingArrives(events: seq<ReadEvent>)
    requires events == [] || events[0].Fail?
    ensures Arriving(events) == [] && AfterFailure(events) == if events == [] then [] else events[1..]
    ensures events != [] ==> |events[1..]| + TotalBytes(events[1..]) <= |events| + TotalBytes(events)
  {
  }

  lemma OneChunk(bytes: seq<byte>, tail: seq<ReadEvent>)
    ensures var events := [Chunk(bytes)] + tail;
            && Arriving(events) == bytes + Arriving(tail) && AfterFailure(events) == AfterFailure(tail)
            && TotalBytes(events) == |bytes| + TotalBytes(tail)
  {
    assert ([Chunk(bytes)] + tail)[1..] == tail;
  }

  lemma Delivered(events: seq<ReadEvent>, n: nat)
    requires events != [] && events[0].Chunk? && n <= |events[0].bytes| && (n > 0 || events[0].bytes == [])
    ensures events[0].bytes[..n] + Arriving(AfterRead(events, n)) == Arriving(events)
    ensures AfterFailure(AfterRead(events, n)) == AfterFailure(events)
    ensures |AfterRead(events, n)| + TotalBytes(AfterRead(events, n)) < |events| + TotalBytes(events)
  {
    hide Arriving, AfterFailure, TotalBytes;
    var bytes, tail := events[0].bytes, events[1..];
    HeadTail(events);
    OneChunk(bytes, tail);
    if n < |bytes| {
      OneChunk(bytes[n..], tail);
      assert bytes[..n] + (bytes[n..] + Arriving(tail)) == bytes + Arriving(tail);
    } else {
      assert bytes[..n] == bytes;
    }
  }

  method CopyTo(buf: array<byte>, from: nat, bytes: seq<byte>)
    requires from + |bytes| <= buf.Length
    modifies buf
    ensures buf[..from + |bytes|] == old(buf[..from]) + bytes
  {
    for i := 0 to |bytes|
      invariant buf[..from + i] == old(buf[..from]) + bytes[..i]
    {
      buf[from + i] := bytes[i];
    }
  }

  // ------------------------------------------------------------ the header cipher

  /**
   A stream cipher: the byte at keystream position p is transformed by `decipher(p, _)`.
   RC4 itself is not modelled.
   */
  type Keystream = (nat, byte) -> byte

  datatype Cipher = Plain | Keyed(keys: Keystream, pos: nat)

  ghost function Deciphered(c: Cipher, header: seq<byte>): seq<byte> {
    match c
    case Plain => header
    case Keyed(keys, pos) => seq(|header|, i requires 0 <= i < |header| => keys(pos + i, header[i]))
  }

  ghost function Advanced(c: Cipher, n: nat): Cipher {
    match c
    case Plain => c
    case Keyed(keys, pos) => Keyed(keys, pos + n)
  }

  class Arc {
    const keys: Keystream
    var pos: nat

    constructor (keys: Keystream, pos: nat)
      ensures this.keys == keys && this.pos == pos
    {
      this.keys, this.pos := keys, pos;
    }

    method Decrypt(d: array<byte>)
      modifies this, d
      ensures d[..] == Deciphered(Keyed(keys, old(pos)), old(d[..]))
      ensures pos == old(pos) + d.Length
    {
      var i := 0;
      while i < d.Length
        invariant 0 <= i <= d.Length
        invariant pos == old(pos) + i
        invariant forall k :: 0 <= k < i ==> d[k] == keys(old(pos) + k, old(d[k]))
        invariant forall k :: i <= k < d.Length ==> d[k] == old(d[k])
      {
        d[i] := keys(pos, d[i]);
        pos := pos + 1;
        i := i + 1;
      }
    }
  }

  // ------------------------------------------------------------ numbers in a header

  function BigEndian16(b: seq<byte>): nat
    requires |b| >= 2
  {
    b[0] as nat * 256 + b[1] as nat
  }

  /** The header's length field minus the opcode, in the source's 32-bit unsigned arithmetic. */
  function PayloadSize(header: seq<byte>, opcodeSize: nat): nat
    requires |header| >= 2
  {
    (BigEndian16(header) - opcodeSize) % TWO_TO_THE_32
  }

  /** Opcode sizes for which the reader neither panics nor mistakes a wrapped size for a real one. */
  predicate OpcodeSizeOk(opcodeSize: nat) {
    opcodeSize == 2 || 4 <= opcodeSize < TWO_TO_THE_32 - MAX_PACKET_SIZE
  }

  /** The wrapped size is refused exactly when the length field cannot even cover the opcode. */
  lemma RefusedExactlyWhenTooShort(header: seq<byte>, opcodeSize: nat)
    requires |header| >= 2 && OpcodeSizeOk(opcodeSize)
    ensures PayloadSize(header, opcodeSize) > MAX_PACKET_SIZE <==> BigEndian16(header) < opcodeSize
    ensures BigEndian16(header) >= opcodeSize ==> PayloadSize(header, opcodeSize) == BigEndian16(header) - opcodeSize
  {
    var len := BigEndian16(header);
    assert len < 65536;
    if len < opcodeSize {
      assert len - opcodeSize + TWO_TO_THE_32 == (len - opcodeSize) % TWO_TO_THE_32;
    }
  }

  // ------------------------------------------------------------ the reference parser

  datatype Frame = Frame(opcode: nat, data: seq<byte>)

  datatype Parsed =
    | Complete(frame: Frame, rest: seq<byte>, cipher: Cipher)
    | NeedHeader                // the stream ends inside a header
    | NeedPayload               // the stream ends inside a payload
    | Refused                   // the length field is smaller than the opcode

  /** Parses one frame from the front of a flat byte stream. */
  ghost function Parse(stream: seq<byte>, opcodeSize: nat, c: Cipher): Parsed
    requires opcodeSize >= 2
  {
    var h := 2 + opcodeSize;
    if |stream| < h then NeedHeader
    else
      var header := Deciphered(c, stream[..h]);
      var len := BigEndian16(header);
      if len < opcodeSize then Refused
      else if |stream| < h + (len - opcodeSize) then NeedPayload
      else
        var end := h + (len - opcodeSize);
        Complete(Frame(LittleEndian(header[2..2 + OpcodeWidthFor(opcodeSize)]), stream[h..end]), stream[end..], Advanced(c, h))
  }

  function OpcodeWidthFor(opcodeSize: nat): (w: nat)
    requires opcodeSize >= 2
    ensures w <= opcodeSize
  {
    if opcodeSize < 4 then 2 else 4
  }

  /** Every complete frame at the front of the stream, in order. */
  ghost function ParseAll(stream: seq<byte>, opcodeSize: nat, c: Cipher): seq<Frame>
    requires opcodeSize >= 2
    decreases |stream|
  {
    match Parse(stream, opcodeSize, c)
    case Complete(frame, rest, c') => [frame] + ParseAll(rest, opcodeSize, c')
    case _ => []
  }

  // ------------------------------------------------------------ the packet reader

  datatype ReaderError = ReadFailed | PacketTooLarge

  datatype Packet = Packet(size: nat, opcode: nat, data: array<byte>)

  /** The header has been read and understood as `size` payload bytes and `opcode`. */
  ghost predicate HeaderRead(header: seq<byte>, opcodeSize: nat, size: nat, opcode: nat) {
    && opcodeSize >= 2 && |header| == 2 + opcodeSize
    && BigEndian16(header) == opcodeSize + size
    && opcode == LittleEndian(header[2..2 + OpcodeWidthFor(opcodeSize)])
  }

  /** The two length bytes, the high one first, count the opcode; the opcode's bytes come low one first. */
  ghost predicate HeaderMeans(header: seq<byte>, opcodeSize: nat, size: nat, opcode: nat) {
    && opcodeSize >= 2 && |header| == 2 + opcodeSize
    && 0x100 * header[0] as nat + header[1] as nat == opcodeSize + size
    && Denotes(header[2..if opcodeSize < 4 then 4 else 6], opcode)
  }

  /** A header is refused exactly when its length does not cover the opcode, and otherwise means this. */
  ghost predicate HeaderJudged(header: seq<byte>, opcodeSize: nat, refused: bool, size: nat, opcode: nat) {
    && |header| >= 2 && (refused <==> 0x100 * header[0] as nat + header[1] as nat < opcodeSize)
    && (!refused ==> HeaderMeans(header, opcodeSize, size, opcode))
  }

  lemma HeaderMeaning(header: seq<byte>, opcodeSize: nat, size: nat, opcode: nat)
    requires HeaderRead(header, opcodeSize, size, opcode)
    ensures HeaderMeans(header, opcodeSize, size, opcode)
  {
    LittleEndianDenotes(header[2..2 + OpcodeWidthFor(opcodeSize)]);
    hide LittleEndian, Denotes;
  }

  /** What a complete frame is: a header that means its size and opcode, its data, and the rest of the stream. */
  lemma ParsedMeans(stream: seq<byte>, opcodeSize: nat, c: Cipher)
    requires opcodeSize >= 2 && Parse(stream, opcodeSize, c).Complete?
    ensures var p := Parse(stream, opcodeSize, c);
            && stream == stream[..2 + opcodeSize] + p.frame.data + p.rest
            && HeaderMeans(Deciphered(c, stream[..2 + opcodeSize]), opcodeSize, |p.frame.data|, p.frame.opcode)
  {
    var p := Parse(stream, opcodeSize, c);
    HeaderMeaning(Deciphered(c, stream[..2 + opcodeSize]), opcodeSize, |p.frame.data|, p.frame.opcode);
  }

  /** A read header followed by all its payload bytes is a complete frame of the reference parser. */
  lemma FrameComplete(stream: seq<byte>, opcodeSize: nat, c: Cipher, size: nat, opcode: nat, data: seq<byte>, rest: seq<byte>)
    requires opcodeSize >= 2 && |stream| >= 2 + opcodeSize && |data| == size
    requires HeaderRead(Deciphered(c, stream[..2 + opcodeSize]), opcodeSize, size, opcode)
    requires data + rest == stream[2 + opcodeSize..]
    ensures Parse(stream, opcodeSize, c) == Complete(Frame(opcode, data), rest, Advanced(c, 2 + opcodeSize))
  {
    var h := 2 + opcodeSize;
    assert stream[h..h + size] == (data + rest)[..size] == data;
    assert stream[h + size..] == (data + rest)[size..] == rest;
  }

  lemma ParseShortHeader(stream: seq<byte>, opcodeSize: nat, c: Cipher)
    requires opcodeSize >= 2 && |stream| < 2 + opcodeSize
    ensures Parse(stream, opcodeSize, c) == NeedHeader
  {
  }

  lemma ParseRefused(stream: seq<byte>, opcodeSize: nat, c: Cipher)
    requires opcodeSize >= 2 && |stream| >= 2 + opcodeSize
    requires BigEndian16(Deciphered(c, stream[..2 + opcodeSize])) < opcodeSize
    ensures Parse(stream, opcodeSize, c) == Refused
  {
  }

  lemma ParseShortPayload(stream: seq<byte>, opcodeSize: nat, c: Cipher, size: nat, opcode: nat)
    requires opcodeSize >= 2 && |stream| >= 2 + opcodeSize && |stream[2 + opcodeSize..]| < size
    requires HeaderRead(Deciphered(c, stream[..2 + opcodeSize]), opcodeSize, size, opcode)
    ensures Parse(stream, opcodeSize, c) == NeedPayload
  {
  }

  lemma ParseAllStep(stream: seq<byte>, opcodeSize: nat, c: Cipher)
    requires opcodeSize >= 2
    ensures var p := Parse(stream, opcodeSize, c);
            if p.Complete? then
              |p.rest| < |stream| && ParseAll(stream, opcodeSize, c) == [p.frame] + ParseAll(p.rest, opcodeSize, p.cipher)
            else ParseAll(stream, opcodeSize, c) == []
  {
  }

  class PacketsReader {
    const r: Connection
    const opcodeSize: nat
    const headerBuffer: array<byte>
    var encryption: Arc?
    var hWritePos: nat
    var payloadBuffer: array<byte>
    var pWritePos: nat
    var err: Option<ReaderError>
    var packet: Option<Packet>

    /** Between calls: a header may be partly read, a payload never is. */
    ghost predicate Valid()
      reads this
    {
      && OpcodeSizeOk(opcodeSize)
      && headerBuffer.Length == 2 + opcodeSize
      && headerBuffer != payloadBuffer
      && hWritePos < headerBuffer.Length
      && pWritePos == 0
    }

    /**
     After a refused header, or a read that failed inside a payload: the header counts as read, and the payload
     buffer is the one being filled or, after a refusal, the previous packet's.
     */
    ghost predicate LeftOver()
      reads this
    {
      && OpcodeSizeOk(opcodeSize)
      && headerBuffer.Length == 2 + opcodeSize
      && headerBuffer != payloadBuffer
      && hWritePos == headerBuffer.Length
      && pWritePos <= payloadBuffer.Length
    }

    /** The payload bytes read so far and those arriving. */
    ghost function PendingPayload(): seq<byte>
      requires pWritePos <= payloadBuffer.Length
      reads this, payloadBuffer, r
    {
      payloadBuffer[..pWritePos] + Arriving(r.events)
    }

    /** The bytes not yet returned in a packet: those already in the header buffer, then those arriving. */
    ghost function Pending(): seq<byte>
      requires Valid()
      reads this, headerBuffer, r
    {
      headerBuffer[..hWritePos] + Arriving(r.events)
    }

    ghost function CurrentCipher(): Cipher
      reads this, encryption
    {
      if encryption == null then Plain else Keyed(encryption.keys, encryption.pos)
    }

    /** What a call that starts between packets comes to, by the reference parser on the pending bytes. */
    twostate predicate FrameOutcome(ok: bool)
      requires old(Valid())
      reads this, headerBuffer, r, encryption, payloadBuffer
    {
      match old(Parse(Pending(), opcodeSize, CurrentCipher()))
      case Complete(frame, rest, cipher) =>
        && ok && Valid() && err == old(err)
        && packet == Some(Packet(|frame.data|, frame.opcode, payloadBuffer))
        && fresh(payloadBuffer) && payloadBuffer[..] == frame.data
        && Pending() == rest && CurrentCipher() == cipher
        && AfterFailure(r.events) == old(AfterFailure(r.events))
      case NeedHeader =>
        && !ok && err == Some(ReadFailed) && packet == old(packet) && Valid() && payloadBuffer == old(payloadBuffer)
        && headerBuffer[..hWritePos] == old(Pending()) && r.events == old(AfterFailure(r.events))
        && CurrentCipher() == old(CurrentCipher())
      case NeedPayload =>
        && !ok && err == Some(ReadFailed) && packet == old(packet) && LeftOver() && fresh(payloadBuffer)
        && headerBuffer.Length <= |old(Pending())|
        && payloadBuffer[..pWritePos] == old(Pending())[headerBuffer.Length..]
        && r.events == old(AfterFailure(r.events))
      case Refused =>
        && !ok && err == Some(PacketTooLarge) && packet == old(packet)
        && LeftOver() && payloadBuffer == old(payloadBuffer) && pWritePos == 0
        && headerBuffer.Length <= |old(Pending())|
        && Arriving(r.events) == old(Pending())[headerBuffer.Length..]
    }

    constructor (r: Connection, opcodeSize: nat)
      requires OpcodeSizeOk(opcodeSize)
      ensures Valid() && fresh(headerBuffer) && this.r == r && this.opcodeSize == opcodeSize
      ensures Pending() == Arriving(r.events) && CurrentCipher() == Plain && err == None && packet == None
    {
      this.r, this.opcodeSize := r, opcodeSize;
      headerBuffer := new byte[2 + opcodeSize](_ => 0);
      hWritePos, pWritePos := 0, 0;
      payloadBuffer := new byte[0];
      encryption := null;
      err, packet := None, None;
    }

    method EnableEncryption(arc: Arc)
      requires Valid()
      modifies this`encryption
      ensures Valid() && Pending() == old(Pending())
      ensures CurrentCipher() == Keyed(arc.keys, arc.pos)
    {
      encryption := arc;
    }

    /**
     Advances to the next packet.  However the stream is cut into reads, the outcome is the
     reference parser's on the flat bytes.  The returned data is a new array, so no packet
     returned earlier changes.  A failed read inside a header loses nothing: the reader can be
     called again.

     A call after a refused header, or after a read that failed inside a payload, does not read a
     header.  It completes the payload buffer, whatever that is, and returns it under opcode 0: after a
     failed payload read that is the payload with its opcode lost, and after a refusal the data of the
     previous packet is overwritten by the bytes that follow the refused header.
     */
    method Next() returns (ok: bool)
      requires Valid() || LeftOver()
      modifies this, r, headerBuffer, encryption, payloadBuffer
      ensures encryption == old(encryption)
      ensures old(Valid()) ==> FrameOutcome(ok)
      ensures old(Valid()) ==> old(payloadBuffer)[..] == old(payloadBuffer[..])
      ensures old(LeftOver()) ==>
                && payloadBuffer == old(payloadBuffer) && CurrentCipher() == old(CurrentCipher())
                && if |old(PendingPayload())| >= payloadBuffer.Length then
                     && ok && Valid() && err == old(err) && packet == Some(Packet(0, 0, payloadBuffer))
                     && payloadBuffer[..] + Pending() == old(PendingPayload())
                   else
                     && !ok && LeftOver() && err == Some(ReadFailed) && packet == old(packet)
                     && payloadBuffer[..pWritePos] == old(PendingPayload()) && r.events == old(AfterFailure(r.events))
    {
      hide Parse, Arriving, AfterFailure, Advanced;
      if hWritePos < headerBuffer.Length {
        ok := NextFrame();
      } else {
        ok := FinishPayload();
      }
    }

    /** The rest of the source's loop when the header counts as read: fill the payload and hand it out. */
    method FinishPayload() returns (ok: bool)
      requires LeftOver()
      modifies this, r, payloadBuffer
      ensures encryption == old(encryption) && payloadBuffer == old(payloadBuffer)
      ensures if |old(PendingPayload())| >= payloadBuffer.Length then
                && ok && Valid() && err == old(err) && packet == Some(Packet(0, 0, payloadBuffer))
                && payloadBuffer[..] + Pending() == old(PendingPayload())
              else
                && !ok && LeftOver() && err == Some(ReadFailed) && packet == old(packet)
                && payloadBuffer[..pWritePos] == old(PendingPayload()) && r.events == old(AfterFailure(r.events))
    {
      hide Arriving, AfterFailure, TotalBytes;
      var filled := FillPayload();
      if !filled {
        err := Some(ReadFailed);
        return false;
      }
      hWritePos, pWritePos := 0, 0;
      assert headerBuffer[..hWritePos] == [];
      packet := Some(Packet(0, 0, payloadBuffer));
      return true;
    }

    /** A whole frame, from wherever its header stands. */
    method NextFrame() returns (ok: bool)
      requires Valid()
      modifies this, r, headerBuffer, encryption
      ensures encryption == old(encryption)
      ensures FrameOutcome(ok)
    {
      hide LittleEndian, BigEndian16, Arriving, AfterFailure, TotalBytes, Advanced, Deciphered, Parse, HeaderRead, HeaderJudged;
      ghost var stream, cipher := Pending(), CurrentCipher();
      ghost var h := headerBuffer.Length;
      var filled := FillHeader();
      if !filled {
        ParseShortHeader(stream, opcodeSize, cipher);
        err := Some(ReadFailed);
        return false;
      }
      assert headerBuffer[..h] == headerBuffer[..];
      SplitWhereJoined(headerBuffer[..], Arriving(r.events));
      var refused, size, opcode := HeaderReady();
      if refused {
        ParseRefused(stream, opcodeSize, cipher);
        err := Some(PacketTooLarge);
        return false;
      }
      ok := NewPayload(size, opcode);
      if ok {
        FrameComplete(stream, opcodeSize, cipher, size, opcode, payloadBuffer[..], Pending());
      } else {
        ParseShortPayload(stream, opcodeSize, cipher, size, opcode);
      }
    }

    /** After an accepted header: a new buffer is filled with the payload and handed out. */
    method NewPayload(size: nat, opcode: nat) returns (ok: bool)
      requires OpcodeSizeOk(opcodeSize) && headerBuffer.Length == 2 + opcodeSize
      requires hWritePos == headerBuffer.Length && pWritePos == 0
      modifies this, r
      ensures encryption == old(encryption) && fresh(payloadBuffer)
      ensures if |old(Arriving(r.events))| >= size then
                && ok && Valid() && err == old(err) && packet == Some(Packet(size, opcode, payloadBuffer))
                && payloadBuffer.Length == size && payloadBuffer[..] + Pending() == old(Arriving(r.events))
                && AfterFailure(r.events) == old(AfterFailure(r.events))
              else
                && !ok && LeftOver() && err == Some(ReadFailed) && packet == old(packet)
                && payloadBuffer[..pWritePos] == old(Arriving(r.events)) && r.events == old(AfterFailure(r.events))
    {
      hide Arriving, AfterFailure, TotalBytes;
      payloadBuffer := new byte[size](_ => 0);
      assert PendingPayload() == old(Arriving(r.events));
      var filled := FillPayload();
      if !filled {
        err := Some(ReadFailed);
        return false;
      }
      hWritePos, pWritePos := 0, 0;
      assert headerBuffer[..hWritePos] == [];
      packet := Some(Packet(size, opcode, payloadBuffer));
      return true;
    }

    /** Reads until the header buffer is full or a read fails. */
    method FillHeader() returns (filled: bool)
      requires Valid()
      modifies this`hWritePos, r, headerBuffer
      ensures hWritePos <= headerBuffer.Length && (filled <==> hWritePos == headerBuffer.Length)
      ensures headerBuffer[..hWritePos] + (if filled then Arriving(r.events) else []) == old(Pending())
      ensures filled ==> AfterFailure(r.events) == old(AfterFailure(r.events))
      ensures !filled ==> r.events == old(AfterFailure(r.events))
    {
      while hWritePos < headerBuffer.Length
        invariant hWritePos <= headerBuffer.Length && AfterFailure(r.events) == old(AfterFailure(r.events))
        invariant headerBuffer[..hWritePos] + Arriving(r.events) == old(Pending())
        decreases |r.events| + TotalBytes(r.events)
      {
        var n, failed := r.Read(headerBuffer, hWritePos);
        if failed {
          return false;
        }
        hWritePos := hWritePos + n;
      }
      return true;
    }

    /** Reads until the payload buffer is full or a read fails. */
    method FillPayload() returns (filled: bool)
      requires pWritePos <= payloadBuffer.Length
      modifies this`pWritePos, r, payloadBuffer
      ensures pWritePos <= payloadBuffer.Length
      ensures filled <==> |old(PendingPayload())| >= payloadBuffer.Length
      ensures filled ==>
                && payloadBuffer[..] + Arriving(r.events) == old(PendingPayload())
                && AfterFailure(r.events) == old(AfterFailure(r.events))
      ensures !filled ==> payloadBuffer[..pWritePos] == old(PendingPayload()) && r.events == old(AfterFailure(r.events))
    {
      hide Arriving, AfterFailure, TotalBytes;
      while pWritePos < payloadBuffer.Length
        invariant pWritePos <= payloadBuffer.Length && AfterFailure(r.events) == old(AfterFailure(r.events))
        invariant PendingPayload() == old(PendingPayload())
        decreases |r.events| + TotalBytes(r.events)
      {
        var n, failed := r.Read(payloadBuffer, pWritePos);
        if failed {
          return false;
        }
        pWritePos := pWritePos + n;
      }
      assert payloadBuffer[..] == payloadBuffer[..pWritePos];
      return true;
    }

    /** Deciphers a full header and extracts the payload size and the opcode. */
    method HeaderReady() returns (refused: bool, size: nat, opcode: nat)
      requires OpcodeSizeOk(opcodeSize) && headerBuffer.Length == 2 + opcodeSize
      modifies headerBuffer, encryption
      ensures CurrentCipher() == Advanced(old(CurrentCipher()), headerBuffer.Length)
      ensures var header := Deciphered(old(CurrentCipher()), old(headerBuffer[..]));
              && (refused <==> BigEndian16(header) < opcodeSize)
              && (!refused ==> HeaderRead(header, opcodeSize, size, opcode))
              && HeaderJudged(header, opcodeSize, refused, size, opcode)
    {
      if encryption != null {
        encryption.Decrypt(headerBuffer);
      }
      ghost var header := headerBuffer[..];
      assert header == Deciphered(old(CurrentCipher()), old(headerBuffer[..]));
      RefusedExactlyWhenTooShort(header, opcodeSize);
      size, opcode := PayloadSize(headerBuffer[..], opcodeSize), 0;
      refused := size > MAX_PACKET_SIZE;
      if !refused {
        opcode := if opcodeSize == 2 then LittleEndian(headerBuffer[2..4]) else LittleEndian(headerBuffer[2..6]);
        HeaderMeaning(header, opcodeSize, size, opcode);
      }
    }
  }

  /** The callers' loop: keep every packet until `Next` says stop. */
  method ReadAll(reader: PacketsReader) returns (packets: seq<Packet>)
    requires reader.Valid()
    modifies reader, reader.r, reader.headerBuffer, reader.encryption, reader.payloadBuffer
    ensures var frames := old(ParseAll(reader.Pending(), reader.opcodeSize, reader.CurrentCipher()));
            && |packets| == |frames|
            && forall i :: 0 <= i < |frames| ==>
                 packets[i].opcode == frames[i].opcode && packets[i].data[..] == frames[i].data
  {
    hide Arriving, AfterFailure, Parse, ParseAll, Deciphered, Advanced;
    ghost var frames := ParseAll(reader.Pending(), reader.opcodeSize, reader.CurrentCipher());
    packets := [];
    var more := true;
    while more
      modifies reader, reader.r, reader.headerBuffer, reader.encryption, reader.payloadBuffer
      invariant reader.encryption == old(reader.encryption)
      invariant more ==> reader.Valid()
      invariant forall i :: 0 <= i < |packets| ==> fresh(packets[i].data)
      invariant fresh(reader.payloadBuffer) || reader.payloadBuffer == old(reader.payloadBuffer)
      invariant |packets| <= |frames|
      invariant forall i :: 0 <= i < |packets| ==>
                  packets[i].opcode == frames[i].opcode && packets[i].data[..] == frames[i].data
      invariant more ==>
                  frames[|packets|..] == ParseAll(reader.Pending(), reader.opcodeSize, reader.CurrentCipher())
      invariant !more ==> |packets| == |frames|
      decreases more, if more then |reader.Pending()| else 0
    {
      ghost var parsed := Parse(reader.Pending(), reader.opcodeSize, reader.CurrentCipher());
      ParseAllStep(reader.Pending(), reader.opcodeSize, reader.CurrentCipher());
      more := reader.Next();
      if more {
        assert parsed.Complete? && frames[|packets|] == parsed.frame;
        assert frames[|packets| + 1..] == frames[|packets|..][1..];
        packets := packets + [reader.packet.value];
      }
    }
  }

  // ------------------------------------------------------------ a sender's view

  /** `enc` is the sending side of `keys`: deciphering what it enciphered gives the byte back. */
  ghost predicate Inverts(enc: Keystream, keys: Keystream) {
    forall p: nat, b: byte {:trigger enc(p, b)} :: keys(p, enc(p, b)) == b
  }

  ghost function Enciphered(c: Cipher, enc: Keystream, header: seq<byte>): seq<byte> {
    match c
    case Plain => header
    case Keyed(_, pos) => seq(|header|, i requires 0 <= i < |header| => enc(pos + i, header[i]))
  }

  ghost predicate Sendable(f: Frame, opcodeSize: nat) {
    f.opcode < Pow256(opcodeSize) && |f.data| + opcodeSize < 65536
  }

  ghost function PlainHeader(f: Frame, opcodeSize: nat): (header: seq<byte>)
    requires Sendable(f, opcodeSize)
    ensures |header| == 2 + opcodeSize
  {
    var len := |f.data| + opcodeSize;
    [(len / 256) as byte, (len % 256) as byte] + LittleEndianBytes(f.opcode, opcodeSize)
  }

  ghost function Encode(f: Frame, opcodeSize: nat, c: Cipher, enc: Keystream): seq<byte>
    requires Sendable(f, opcodeSize)
  {
    Enciphered(c, enc, PlainHeader(f, opcodeSize)) + f.data
  }

  ghost function AfterHeaders(c: Cipher, headerSize: nat, count: nat): Cipher
    decreases count
  {
    if count == 0 then c else AfterHeaders(Advanced(c, headerSize), headerSize, count - 1)
  }

  /** The k-th header uses the k-th segment of the keystream. */
  lemma {:induction false} SegmentOfHeader(c: Cipher, headerSize: nat, count: nat)
    requires c.Keyed?
    ensures AfterHeaders(c, headerSize, count) == Keyed(c.keys, c.pos + count * headerSize)
    decreases count
  {
    if count > 0 {
      SegmentOfHeader(Advanced(c, headerSize), headerSize, count - 1);
      assert headerSize + (count - 1) * headerSize == count * headerSize;
    }
  }

  /** All frames, each header enciphered with the keystream segment after the previous header's. */
  ghost function EncodeAll(frames: seq<Frame>, opcodeSize: nat, c: Cipher, enc: Keystream): seq<byte>
    requires forall f :: f in frames ==> Sendable(f, opcodeSize)
  {
    if frames == [] then []
    else Encode(frames[0], opcodeSize, c, enc) + EncodeAll(frames[1..], opcodeSize, Advanced(c, 2 + opcodeSize), enc)
  }

  lemma DecipherInverts(c: Cipher, enc: Keystream, header: seq<byte>)
    requires c.Keyed? ==> Inverts(enc, c.keys)
    ensures Deciphered(c, Enciphered(c, enc, header)) == header
  {
  }

  lemma EncodedFrameParses(f: Frame, opcodeSize: nat, c: Cipher, enc: Keystream, rest: seq<byte>)
    requires opcodeSize == 2 || opcodeSize == 4
    requires Sendable(f, opcodeSize)
    requires c.Keyed? ==> Inverts(enc, c.keys)
    ensures ParseAll(Encode(f, opcodeSize, c, enc) + rest, opcodeSize, c)
            == [f] + ParseAll(rest, opcodeSize, Advanced(c, 2 + opcodeSize))
  {
    var h := 2 + opcodeSize;
    var plain := PlainHeader(f, opcodeSize);
    var stream := Encode(f, opcodeSize, c, enc) + rest;
    assert stream == Enciphered(c, enc, plain) + (f.data + rest);
    assert stream[..h] == Enciphered(c, enc, plain) && stream[h..] == f.data + rest;
    DecipherInverts(c, enc, plain);
    assert plain[2..h] == LittleEndianBytes(f.opcode, opcodeSize);
    LittleEndianRoundTrip(f.opcode, opcodeSize);
    FrameComplete(stream, opcodeSize, c, |f.data|, f.opcode, f.data, rest);
  }

  /** Reading back what a sender wrote gives the sender's frames, then whatever follows them. */
  lemma {:induction false} EncodedFramesParse(frames: seq<Frame>, opcodeSize: nat, c: Cipher, enc: Keystream, rest: seq<byte>)
    requires opcodeSize == 2 || opcodeSize == 4
    requires forall f :: f in frames ==> Sendable(f, opcodeSize)
    requires c.Keyed? ==> Inverts(enc, c.keys)
    ensures ParseAll(EncodeAll(frames, opcodeSize, c, enc) + rest, opcodeSize, c)
            == frames + ParseAll(rest, opcodeSize, AfterHeaders(c, 2 + opcodeSize, |frames|))
  {
    hide Parse, ParseAll, Encode;
    if frames == [] {
      assert EncodeAll(frames, opcodeSize, c, enc) + rest == rest;
    } else {
      var c' := Advanced(c, 2 + opcodeSize);
      var tail := EncodeAll(frames[1..], opcodeSize, c', enc);
      EncodedFrameParses(frames[0], opcodeSize, c, enc, tail + rest);
      EncodedFramesParse(frames[1..], opcodeSize, c', enc, rest);
      assert EncodeAll(frames, opcodeSize, c, enc) + rest == Encode(frames[0], opcodeSize, c, enc) + (tail + rest);
      var others := ParseAll(rest, opcodeSize, AfterHeaders(c', 2 + opcodeSize, |frames[1..]|));
      ConsAppend(frames, others);
    }
  }
}
