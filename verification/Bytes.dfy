/** Bytes and little-endian numbers, as `encoding/binary` reads and writes them. */
module Bytes {

  newtype byte = x: int | 0 <= x < 256

  function LittleEndian(b: seq<byte>): nat {
    if b == [] then 0 else b[0] as nat + 256 * LittleEndian(b[1..])
  }

  function Pow256(w: nat): nat {
    if w == 0 then 1 else 256 * Pow256(w - 1)
  }

  function LittleEndianBytes(v: nat, w: nat): (b: seq<byte>)
    ensures |b| == w
  {
    if w == 0 then [] else [(v % 256) as byte] + LittleEndianBytes(v / 256, w - 1)
  }

  lemma {:induction false} LittleEndianRoundTrip(v: nat, w: nat)
    requires v < Pow256(w)
    ensures LittleEndian(LittleEndianBytes(v, w)) == v
  {
    if w > 0 {
      LittleEndianRoundTrip(v / 256, w - 1);
    }
  }

  /** The number `n` in the bytes `b`, lowest byte first, for the four widths of Go's integers. */
  ghost predicate Denotes(b: seq<byte>, n: int) {
    match |b|
    case 1 => n == b[0] as int
    case 2 => n == b[0] as int + 0x100 * b[1] as int
    case 4 => n == b[0] as int + 0x100 * b[1] as int + 0x1_0000 * b[2] as int + 0x100_0000 * b[3] as int
    case 8 => n == b[0] as int + 0x100 * b[1] as int + 0x1_0000 * b[2] as int + 0x100_0000 * b[3] as int
                   + 0x1_0000_0000 * (b[4] as int + 0x100 * b[5] as int + 0x1_0000 * b[6] as int + 0x100_0000 * b[7] as int)
    case _ => false
  }

  /** The same for a signed number in two's complement. */
  ghost predicate DenotesSigned(b: seq<byte>, i: int) {
    var range := match |b|
                 case 1 => 0x100
                 case 2 => 0x1_0000
                 case 4 => 0x1_0000_0000
                 case _ => 0x1_0000_0000_0000_0000;
    -range <= 2 * i < range && Denotes(b, if i < 0 then i + range else i)
  }

  lemma Widths()
    ensures Pow256(1) == 0x100 && Pow256(2) == 0x1_0000
    ensures Pow256(4) == 0x1_0000_0000 && Pow256(8) == 0x1_0000_0000_0000_0000
  {
    assert Pow256(3) == 256 * Pow256(2) && Pow256(5) == 256 * Pow256(4) && Pow256(7) == 256 * Pow256(6);
  }

  lemma LittleEndianHead(b: seq<byte>)
    requires b != []
    ensures LittleEndian(b) == b[0] as nat + 256 * LittleEndian(b[1..])
  {
  }

  lemma FourBytes(b: seq<byte>)
    requires |b| >= 4
    ensures LittleEndian(b) == b[0] as nat + 0x100 * b[1] as nat + 0x1_0000 * b[2] as nat + 0x100_0000 * b[3] as nat
                               + 0x1_0000_0000 * LittleEndian(b[4..])
  {
    LittleEndianHead(b);
    LittleEndianHead(b[1..]);
    LittleEndianHead(b[2..]);
    LittleEndianHead(b[3..]);
    assert b[1..][1..] == b[2..] && b[2..][1..] == b[3..] && b[3..][1..] == b[4..];
    hide LittleEndian;
  }

  /** `LittleEndian` is the number the bytes denote. */
  lemma LittleEndianDenotes(b: seq<byte>)
    requires |b| in {1, 2, 4, 8}
    ensures Denotes(b, LittleEndian(b)) && LittleEndian(b) < Pow256(|b|)
  {
    Widths();
    hide Pow256;
    if |b| < 4 {
      LittleEndianHead(b);
      if |b| == 2 {
        LittleEndianHead(b[1..]);
      }
    } else {
      FourBytes(b);
      assert b[4..] == [] || |b| == 8;
      if |b| == 8 {
        FourBytes(b[4..]);
        assert b[4..][4..] == [];
      }
    }
  }

  lemma LittleEndianBytesDenote(v: nat, w: nat)
    requires w in {1, 2, 4, 8} && v < Pow256(w)
    ensures Denotes(LittleEndianBytes(v, w), v)
  {
    LittleEndianRoundTrip(v, w);
    LittleEndianDenotes(LittleEndianBytes(v, w));
  }
}
