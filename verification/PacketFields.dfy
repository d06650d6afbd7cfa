/**
 The typed fields of a packet body: what `Writer` appends and `Reader` takes back, including the
 packed GUID (a mask of the non-zero bytes, then those bytes) and NUL-terminated strings.
 */
module PacketFields {
  import opened Prelude
  import opened Bytes

  datatype ReadError = EndOfFile | UnexpectedEndOfFile

  /** The result of taking one field off the front of `bytes`. */
  datatype Taken<T> = Ok(value: T, rest: seq<byte>) | Bad(error: ReadError, rest: seq<byte>)

  // ------------------------------------------------------------ packed GUIDs

  function Pow2(i: nat): nat {
    if i == 0 then 1 else 2 * Pow2(i - 1)
  }

  /** Bit i is set when byte i of the GUID is not zero. */
  function GuidMask(guid: nat): nat {
    if guid == 0 then 0 else (if guid % 256 != 0 then 1 else 0) + 2 * GuidMask(guid / 256)
  }

  function GuidBytes(guid: nat): seq<byte> {
    if guid == 0 then []
    else (if guid % 256 != 0 then [(guid % 256) as byte] else []) + GuidBytes(guid / 256)
  }

  /** How many of the low `width` bytes of `guid` are not zero. */
  function NonZeroBytes(guid: nat, width: nat): nat {
    if width == 0 then 0
    else (if guid % 256 != 0 then 1 else 0) + NonZeroBytes(guid / 256, width - 1)
  }

  /** Reads one byte per set bit of `mask`, for `bits` bits. */
  function GuidFrom(mask: nat, bits: nat, bytes: seq<byte>): Taken<nat>
    decreases bits
  {
    if bits == 0 then Ok(0, bytes)
    else if mask % 2 == 1 then
      if bytes == [] then Bad(EndOfFile, [])
      else
        match GuidFrom(mask / 2, bits - 1, bytes[1..])
        case Ok(high, rest) => Ok(bytes[0] as nat + 256 * high, rest)
        case Bad(e, rest) => Bad(e, rest)
    else
      match GuidFrom(mask / 2, bits - 1, bytes)
      case Ok(high, rest) => Ok(256 * high, rest)
      case Bad(e, rest) => Bad(e, rest)
  }

  lemma {:induction false} GuidSizes(guid: nat, width: nat)
    requires guid < Pow256(width)
    ensures |GuidBytes(guid)| == NonZeroBytes(guid, width) <= width
    ensures GuidMask(guid) < Pow2(width)
  {
    if width > 0 {
      GuidSizes(guid / 256, width - 1);
      if guid == 0 {
        assert GuidBytes(guid / 256) == [];
      }
    }
  }

  /** The lowest byte of a GUID and the lowest bit of its mask. */
  lemma GuidHead(guid: nat)
    ensures GuidMask(guid) % 2 == (if guid % 256 != 0 then 1 else 0)
    ensures GuidMask(guid) / 2 == GuidMask(guid / 256)
    ensures GuidBytes(guid) == (if guid % 256 != 0 then [(guid % 256) as byte] else []) + GuidBytes(guid / 256)
  {
  }

  /** Reading a packed GUID back gives the GUID and leaves exactly what follows it. */
  lemma {:induction false} GuidRoundTrip(guid: nat, bits: nat, rest: seq<byte>)
    requires guid < Pow256(bits)
    ensures GuidFrom(GuidMask(guid), bits, GuidBytes(guid) + rest) == Ok(guid, rest)
  {
    GuidHead(guid);
    if bits == 0 {
      assert GuidBytes(0) + rest == rest;
    } else {
      hide GuidMask, GuidBytes;
      GuidRoundTrip(guid / 256, bits - 1, rest);
      var all, high := GuidBytes(guid) + rest, GuidBytes(guid / 256) + rest;
      if guid % 256 != 0 {
        assert all == [(guid % 256) as byte] + high;
      } else {
        assert all == high;
      }
    }
  }

  /** The bytes a successful `GuidFrom` consumed. */
  function MaskBits(mask: nat, bits: nat): nat {
    if bits == 0 then 0 else mask % 2 + MaskBits(mask / 2, bits - 1)
  }

  /** What a read GUID looks like when it is written again. */
  ghost predicate CanonicalFrom(mask: nat, bits: nat, bytes: seq<byte>) {
    var n, r := MaskBits(mask, bits), GuidFrom(mask, bits, bytes);
    if n > |bytes| then r.Bad?
    else
      && r.Ok? && r.value < Pow256(bits) && r.rest == bytes[n..]
      && (GuidMask(r.value) == mask && GuidBytes(r.value) == bytes[..n] <==> 0 !in bytes[..n])
      && GuidMask(r.value) <= mask
  }

  lemma CanonicalSetBit(mask: nat, bits: nat, bytes: seq<byte>)
    requires bits > 0 && mask % 2 == 1 && bytes != []
    requires CanonicalFrom(mask / 2, bits - 1, bytes[1..])
    ensures CanonicalFrom(mask, bits, bytes)
  {
    var n := MaskBits(mask / 2, bits - 1);
    if n < |bytes| {
      var r := GuidFrom(mask / 2, bits - 1, bytes[1..]);
      assert bytes[..n + 1] == [bytes[0]] + bytes[1..][..n];
      assert bytes[n + 1..] == bytes[1..][n..];
      GuidOneByte(bytes[0], r.value);
      if bytes[0] != 0 {
        assert 0 in bytes[..n + 1] <==> 0 in bytes[1..][..n];
        ConsEqual(bytes[0], GuidBytes(r.value), bytes[1..][..n]);
      } else {
        assert bytes[..n + 1][0] == 0;
      }
    }
  }

  lemma ConsEqual<T>(x: T, s: seq<T>, t: seq<T>)
    ensures [x] + s == [x] + t <==> s == t
  {
    assert ([x] + s)[1..] == s && ([x] + t)[1..] == t;
  }

  lemma CanonicalClearBit(mask: nat, bits: nat, bytes: seq<byte>)
    requires bits > 0 && mask % 2 == 0
    requires CanonicalFrom(mask / 2, bits - 1, bytes)
    ensures CanonicalFrom(mask, bits, bytes)
  {
    var r := GuidFrom(mask / 2, bits - 1, bytes);
    if r.Ok? {
      GuidOneByte(0, r.value);
      assert [] + GuidBytes(r.value) == GuidBytes(r.value);
    }
  }

  /**
   A mask and its bytes are read back whole exactly when enough bytes follow; and the GUID that was
   read is written again as the very same mask and bytes exactly when none of those bytes is zero.
   */
  lemma {:induction false} GuidCanonical(mask: nat, bits: nat, bytes: seq<byte>)
    requires mask < Pow2(bits)
    ensures CanonicalFrom(mask, bits, bytes)
    decreases bits
  {
    if bits == 0 {
      assert bytes[..0] == [];
    } else if mask % 2 == 0 {
      hide CanonicalFrom;
      GuidCanonical(mask / 2, bits - 1, bytes);
      CanonicalClearBit(mask, bits, bytes);
    } else if bytes != [] {
      hide CanonicalFrom;
      GuidCanonical(mask / 2, bits - 1, bytes[1..]);
      CanonicalSetBit(mask, bits, bytes);
    }
  }

  lemma GuidOneByte(b: byte, high: nat)
    ensures var guid := b as nat + 256 * high;
            && GuidMask(guid) == (if b != 0 then 1 else 0) + 2 * GuidMask(high)
            && GuidBytes(guid) == (if b != 0 then [b] else []) + GuidBytes(high)
  {
    var guid := b as nat + 256 * high;
    assert guid % 256 == b as nat && guid / 256 == high;
  }

  /** `mask` has a bit for each of the bytes `b`; `bytes` are those whose bit is set, in order, and the others are zero. */
  ghost predicate Packs(b: seq<byte>, mask: nat, bytes: seq<byte>)
    decreases |b|
  {
    if b == [] then mask == 0 && bytes == []
    else if mask % 2 == 1 then bytes != [] && bytes[0] == b[0] && Packs(b[1..], mask / 2, bytes[1..])
    else b[0] == 0 && Packs(b[1..], mask / 2, bytes)
  }

  /** A packed GUID is laid out so, and has no more bytes than it needs. */
  lemma {:induction false} PackedLayout(guid: nat, width: nat)
    requires guid < Pow256(width)
    ensures Packs(LittleEndianBytes(guid, width), GuidMask(guid), GuidBytes(guid)) && 0 !in GuidBytes(guid)
    decreases width
  {
    if width > 0 {
      PackedLayout(guid / 256, width - 1);
      GuidHead(guid);
      hide GuidMask, GuidBytes;
      assert LittleEndianBytes(guid, width)[1..] == LittleEndianBytes(guid / 256, width - 1);
      if guid % 256 != 0 {
        assert GuidBytes(guid)[1..] == GuidBytes(guid / 256);
      } else {
        assert GuidBytes(guid) == GuidBytes(guid / 256);
      }
    }
  }

  /** Any mask and bytes that are read whole are laid out so, whether or not a byte is zero. */
  lemma {:induction false} UnpackedLayout(mask: nat, bits: nat, bytes: seq<byte>)
    requires mask < Pow2(bits) && GuidFrom(mask, bits, bytes).Ok?
    ensures var r := GuidFrom(mask, bits, bytes);
            var n := |bytes| - |r.rest|;
            && 0 <= n && r.rest == bytes[n..] && r.value < Pow256(bits)
            && Packs(LittleEndianBytes(r.value, bits), mask, bytes[..n])
    decreases bits
  {
    var r := GuidFrom(mask, bits, bytes);
    if bits == 0 {
      assert bytes[..0] == [];
    } else {
      var low: byte := if mask % 2 == 1 then bytes[0] else 0;
      var after := if mask % 2 == 1 then bytes[1..] else bytes;
      UnpackedLayout(mask / 2, bits - 1, after);
      var high := GuidFrom(mask / 2, bits - 1, after);
      var n := |bytes| - |r.rest|;
      hide GuidFrom;
      assert r.value == low as nat + 256 * high.value;
      LayoutHead(low, high.value, bits);
      if mask % 2 == 1 {
        assert bytes[n..] == after[n - 1..] && bytes[..n][1..] == after[..n - 1];
      }
    }
  }

  lemma LayoutHead(low: byte, high: nat, bits: nat)
    requires bits > 0
    ensures var b := LittleEndianBytes(low as nat + 256 * high, bits);
            b[0] == low && b[1..] == LittleEndianBytes(high, bits - 1)
  {
    var v := low as nat + 256 * high;
    assert v % 256 == low as nat && v / 256 == high;
  }

  // ------------------------------------------------------------ strings

  /** The bytes up to the first NUL, which is consumed; the end of the data also ends a string. */
  function StringFrom(bytes: seq<byte>): (seq<byte>, seq<byte>) {
    if bytes == [] then ([], [])
    else if bytes[0] == 0 then ([], bytes[1..])
    else var (s, rest) := StringFrom(bytes[1..]); ([bytes[0]] + s, rest)
  }

  /** Of any bytes the string is what precedes the first NUL, which is skipped, or everything. */
  lemma {:induction false} StringStops(bytes: seq<byte>)
    ensures var (s, rest) := StringFrom(bytes);
            0 !in s && (bytes == s + [0] + rest || (bytes == s && rest == []))
  {
    if bytes != [] {
      HeadTail(bytes);
      if bytes[0] != 0 {
        StringStops(bytes[1..]);
        var (s, rest) := StringFrom(bytes[1..]);
        assert [bytes[0]] + (s + [0] + rest) == [bytes[0]] + s + [0] + rest;
      } else {
        assert [0] + bytes[1..] == [] + [0] + bytes[1..];
      }
    }
  }

  /** A written string is read back, leaving exactly what follows, if and only if it holds no NUL. */
  lemma {:induction false} StringRoundTrip(s: seq<byte>, rest: seq<byte>)
    ensures StringFrom(s + [0] + rest) == (s, rest) <==> 0 !in s
  {
    var all := s + [0] + rest;
    if s == [] {
      assert all[1..] == rest;
    } else if s[0] != 0 {
      StringRoundTrip(s[1..], rest);
      assert all[1..] == s[1..] + [0] + rest;
      HeadTail(s);
      assert 0 in s <==> 0 in s[1..];
    } else {
      assert StringFrom(all).0 == [];
    }
  }

  // ------------------------------------------------------------ fields

  /** A field's type. `w` is the width of an integer in bytes: 1, 2, 4 or 8. */
  datatype Kind = UnsignedKind(w: nat) | SignedKind(w: nat) | BoolKind | StringKind | GuidKind

  datatype Field =
    | Unsigned(w: nat, n: nat)
    | Signed(w: nat, i: int)
    | Boolean(b: bool)
    | Text(s: seq<byte>)
    | Guid(guid: nat)
  {
    function Kind(): Kind {
      match this
      case Unsigned(w, _) => UnsignedKind(w)
      case Signed(w, _) => SignedKind(w)
      case Boolean(_) => BoolKind
      case Text(_) => StringKind
      case Guid(_) => GuidKind
    }

    /** The values the Go types can hold. */
    ghost predicate Fits() {
      match this
      case Unsigned(w, n) => w in {1, 2, 4, 8} && n < Pow256(w)
      case Signed(w, i) => w in {1, 2, 4, 8} && InRange(i, w)
      case Guid(guid) => guid < Pow256(8)
      case _ => true
    }
  }

  ghost predicate InRange(i: int, w: nat) {
    0 <= 2 * i + Pow256(w) < 2 * Pow256(w)
  }

  /** Two's complement in `w` bytes. */
  function Wrapped(i: int, w: nat): nat
    requires InRange(i, w)
  {
    if i < 0 then i + Pow256(w) else i
  }

  function SignOf(n: nat, w: nat): int {
    if 2 * n >= Pow256(w) then n - Pow256(w) else n
  }

  function FieldBytes(f: Field): seq<byte>
    requires f.Fits()
  {
    match f
    case Unsigned(w, n) => LittleEndianBytes(n, w)
    case Signed(w, i) => LittleEndianBytes(Wrapped(i, w), w)
    case Boolean(b) => [if b then 1 else 0]
    case Text(s) => s + [0]
    case Guid(guid) => [(GuidMask(guid) % 256) as byte] + GuidBytes(guid)
  }

  /** Taking an unsigned integer of `w` bytes; a short read consumes what is left. */
  function UnsignedFrom(w: nat, bytes: seq<byte>): Taken<nat> {
    if |bytes| >= w then Ok(LittleEndian(bytes[..w]), bytes[w..])
    else if bytes == [] then Bad(EndOfFile, [])
    else Bad(UnexpectedEndOfFile, [])
  }

  function PackedGuidFrom(bytes: seq<byte>): Taken<nat> {
    if bytes == [] then Bad(EndOfFile, []) else GuidFrom(bytes[0] as nat, 8, bytes[1..])
  }

  /** The reader's method for a kind.  `Bool` has no reader of its own: a byte is read and tested. */
  function FieldFrom(k: Kind, bytes: seq<byte>): Taken<Field> {
    match k
    case UnsignedKind(w) =>
      (match UnsignedFrom(w, bytes)
       case Ok(n, rest) => Ok(Unsigned(w, n), rest)
       case Bad(e, rest) => Bad(e, rest))
    case SignedKind(w) =>
      (match UnsignedFrom(w, bytes)
       case Ok(n, rest) => Ok(Signed(w, SignOf(n, w)), rest)
       case Bad(e, rest) => Bad(e, rest))
    case BoolKind =>
      (match UnsignedFrom(1, bytes)
       case Ok(n, rest) => Ok(Boolean(n != 0), rest)
       case Bad(e, rest) => Bad(e, rest))
    case StringKind =>
      var (s, rest) := StringFrom(bytes);
      Ok(Text(s), rest)
    case GuidKind =>
      (match PackedGuidFrom(bytes)
       case Ok(guid, rest) => Ok(Guid(guid), rest)
       case Bad(e, rest) => Bad(e, rest))
  }

  function ZeroField(k: Kind): Field {
    match k
    case UnsignedKind(w) => Unsigned(w, 0)
    case SignedKind(w) => Signed(w, 0)
    case BoolKind => Boolean(false)
    case StringKind => Text([])
    case GuidKind => Guid(0)
  }

  lemma UnsignedRoundTrip(n: nat, w: nat, rest: seq<byte>)
    requires n < Pow256(w)
    ensures UnsignedFrom(w, LittleEndianBytes(n, w) + rest) == Ok(n, rest)
  {
    LittleEndianRoundTrip(n, w);
    var all := LittleEndianBytes(n, w) + rest;
    assert all[..w] == LittleEndianBytes(n, w) && all[w..] == rest;
  }

  lemma GuidMaskFitsAByte(guid: nat)
    requires guid < Pow256(8)
    ensures GuidMask(guid) < 256
  {
    GuidSizes(guid, 8);
    assert Pow2(8) == 256 by {
      assert Pow2(4) == 16;
    }
  }

  /** A byte reads as true exactly if it is not zero. */
  lemma BooleanFromByte(b: byte, rest: seq<byte>)
    ensures FieldFrom(BoolKind, [b] + rest) == Ok(Boolean(b != 0), rest)
  {
    var all := [b] + rest;
    assert all[..1] == [b] && all[1..] == rest;
    LittleEndianDenotes(all[..1]);
  }

  lemma PackedGuidRoundTrip(guid: nat, rest: seq<byte>)
    requires guid < Pow256(8)
    ensures PackedGuidFrom(FieldBytes(Guid(guid)) + rest) == Ok(guid, rest)
  {
    hide GuidFrom, GuidBytes, GuidMask, Pow256;
    GuidMaskFitsAByte(guid);
    GuidRoundTrip(guid, 8, rest);
    var all := FieldBytes(Guid(guid)) + rest;
    assert all[0] as nat == GuidMask(guid);
    assert all[1..] == GuidBytes(guid) + rest;
  }

  /** Every field but a text holding a NUL is read back as written, leaving what follows. */
  lemma FieldRoundTrip(f: Field, rest: seq<byte>)
    requires f.Fits()
    ensures FieldFrom(f.Kind(), FieldBytes(f) + rest) == Ok(f, rest) <==> (f.Text? ==> 0 !in f.s)
  {
    hide LittleEndianBytes, GuidFrom, PackedGuidFrom, StringFrom, LittleEndian, UnsignedFrom;
    match f
    case Unsigned(w, n) => UnsignedRoundTrip(n, w, rest);
    case Signed(w, i) => UnsignedRoundTrip(Wrapped(i, w), w, rest);
    case Boolean(b) => BooleanFromByte(if b then 1 else 0, rest);
    case Text(s) => StringRoundTrip(s, rest);
    case Guid(guid) => PackedGuidRoundTrip(guid, rest);
  }

  /** A packed GUID takes one byte more than it has non-zero bytes. */
  lemma PackedGuidLength(guid: nat)
    requires guid < Pow256(8)
    ensures |FieldBytes(Guid(guid))| == 1 + NonZeroBytes(guid, 8)
  {
    GuidSizes(guid, 8);
  }

  /** A mask byte and then the non-zero bytes of the GUID, in the mask's order. */
  ghost predicate PackedGuid(packed: seq<byte>, guid: nat) {
    && packed != [] && 0 !in packed[1..]
    && exists b :: |b| == 8 && Denotes(b, guid) && Packs(b, packed[0] as nat, packed[1..])
  }

  lemma PackedGuidLaidOut(guid: nat, packed: seq<byte>)
    requires guid < Pow256(8)
    requires packed != [] && packed[0] as nat == GuidMask(guid) && packed[1..] == GuidBytes(guid)
    ensures packed == FieldBytes(Guid(guid)) && PackedGuid(packed, guid)
  {
    hide Denotes, Packs, GuidBytes, GuidMask, LittleEndianBytes;
    PackedLayout(guid, 8);
    LittleEndianBytesDenote(guid, 8);
    HeadTail(packed);
  }

  // ------------------------------------------------------------ lists of fields

  ghost predicate AllFit(fields: seq<Field>) {
    forall f :: f in fields ==> f.Fits()
  }

  function Kinds(fields: seq<Field>): seq<Kind> {
    seq(|fields|, i requires 0 <= i < |fields| => fields[i].Kind())
  }

  function BodyBytes(fields: seq<Field>): seq<byte>
    requires AllFit(fields)
  {
    if fields == [] then [] else FieldBytes(fields[0]) + BodyBytes(fields[1..])
  }

  /** A reader's state: what is left, and the first error, which sticks. */
  datatype Cursor = Cursor(left: seq<byte>, err: Option<ReadError>)

  /** One read: after an error it yields the zero value and moves nothing. */
  function ReadOne(k: Kind, c: Cursor): (Field, Cursor) {
    if c.err.Some? then (ZeroField(k), c)
    else
      match FieldFrom(k, c.left)
      case Ok(f, rest) => (f, Cursor(rest, None))
      case Bad(e, rest) => (ZeroField(k), Cursor(rest, Some(e)))
  }

  function ReadMany(kinds: seq<Kind>, c: Cursor): (seq<Field>, Cursor) {
    if kinds == [] then ([], c)
    else
      var (f, c') := ReadOne(kinds[0], c);
      var (fs, c'') := ReadMany(kinds[1..], c');
      ([f] + fs, c'')
  }

  ghost predicate NulFree(fields: seq<Field>) {
    forall f :: f in fields && f.Text? ==> 0 !in f.s
  }

  /** A text holding a NUL is not what a reader can return. */
  lemma NulIsNeverRead(s: seq<byte>, bytes: seq<byte>)
    requires 0 in s
    ensures FieldFrom(StringKind, bytes).Ok? && FieldFrom(StringKind, bytes).value != Text(s)
  {
    StringStops(bytes);
  }

  /**
   Writing a list of fields and reading it with the same types gives the same values, no error,
   and leaves exactly what follows, if and only if no text holds a NUL.
   */
  lemma {:induction false} BodyRoundTrip(fields: seq<Field>, rest: seq<byte>)
    requires AllFit(fields)
    ensures ReadMany(Kinds(fields), Cursor(BodyBytes(fields) + rest, None)) == (fields, Cursor(rest, None)) <==> NulFree(fields)
  {
    if fields == [] {
      assert BodyBytes(fields) + rest == rest;
    } else {
      hide FieldFrom, FieldBytes, ReadMany, BodyBytes, NulFree, Kinds, ReadOne;
      var f, fs := fields[0], fields[1..];
      HeadTail(fields);
      BodyRoundTrip(fs, rest);
      BodyHead(f, fs, rest);
      if f.Text? && 0 in f.s {
        HeadNotRead(f, BodyBytes(fs) + rest);
      } else {
        HeadRead(f, BodyBytes(fs) + rest);
        var (gs, c) := ReadMany(Kinds(fs), Cursor(BodyBytes(fs) + rest, None));
        assert ([f] + gs)[1..] == gs;
      }
    }
  }

  /** Reading the body of a list is reading its first field and then the body of the others. */
  lemma BodyHead(f: Field, fs: seq<Field>, rest: seq<byte>)
    requires AllFit([f] + fs)
    ensures f.Fits() && AllFit(fs)
    ensures NulFree([f] + fs) <==> (f.Text? ==> 0 !in f.s) && NulFree(fs)
    ensures var (g, c) := ReadOne(f.Kind(), Cursor(FieldBytes(f) + (BodyBytes(fs) + rest), None));
            var (gs, c') := ReadMany(Kinds(fs), c);
            ReadMany(Kinds([f] + fs), Cursor(BodyBytes([f] + fs) + rest, None)) == ([g] + gs, c')
  {
    var all := [f] + fs;
    assert all[0] == f && all[1..] == fs;
    assert forall g :: g in fs ==> g in all;
    assert Kinds(all)[0] == f.Kind() && Kinds(all)[1..] == Kinds(fs);
    hide FieldFrom, FieldBytes, ReadOne;
    assert BodyBytes(all) + rest == FieldBytes(f) + (BodyBytes(fs) + rest);
  }

  lemma HeadRead(f: Field, rest: seq<byte>)
    requires f.Fits() && (f.Text? ==> 0 !in f.s)
    ensures ReadOne(f.Kind(), Cursor(FieldBytes(f) + rest, None)) == (f, Cursor(rest, None))
  {
    hide FieldFrom, FieldBytes;
    FieldRoundTrip(f, rest);
  }

  lemma HeadNotRead(f: Field, rest: seq<byte>)
    requires f.Fits() && f.Text? && 0 in f.s
    ensures ReadOne(f.Kind(), Cursor(FieldBytes(f) + rest, None)).0 != f
  {
    hide FieldFrom, FieldBytes;
    NulIsNeverRead(f.s, FieldBytes(f) + rest);
  }

  /** Once a read has failed, every later read yields zero values and changes nothing. */
  lemma {:induction false} ErrorSticks(kinds: seq<Kind>, c: Cursor)
    requires c.err.Some?
    ensures var (fields, c') := ReadMany(kinds, c);
            && c' == c && |fields| == |kinds|
            && forall i :: 0 <= i < |kinds| ==> fields[i] == ZeroField(kinds[i])
  {
    if kinds != [] {
      ErrorSticks(kinds[1..], c);
    }
  }

  // ------------------------------------------------------------ truncated bodies

  /** A kind whose reading takes at least one byte. */
  predicate TakesBytes(k: Kind) {
    match k
    case UnsignedKind(w) => w > 0
    case SignedKind(w) => w > 0
    case BoolKind => true
    case StringKind => false
    case GuidKind => true
  }

  /** How much of `bytes` was consumed, given what is left of it. */
  ghost predicate LeavesTail(bytes: seq<byte>, rest: seq<byte>) {
    |rest| <= |bytes| && rest == bytes[|bytes| - |rest|..]
  }

  /** What cutting the bytes to their first `k` does to a read of them. */
  ghost predicate Cut<T>(whole: Taken<T>, short: Taken<T>, bytes: seq<byte>, k: nat)
    requires k <= |bytes|
  {
    && whole.Ok? && LeavesTail(bytes, whole.rest)
    && var n := |bytes| - |whole.rest|;
       if k < n then short.Bad? else short == Ok(whole.value, bytes[n..k])
  }

  /** The same cut seen one byte further left. */
  lemma CutShift<T>(whole: Taken<T>, short: Taken<T>, bytes: seq<byte>, k: nat)
    requires bytes != [] && k < |bytes| && Cut(whole, short, bytes[1..], k)
    ensures Cut(whole, short, bytes, k + 1)
    ensures bytes[..k + 1][1..] == bytes[1..][..k]
  {
    var n := |bytes| - |whole.rest|;
    assert bytes[1..][n - 1..] == bytes[n..];
    if k + 1 >= n {
      assert bytes[1..][n - 1..k] == bytes[n..k + 1];
    }
  }

  /** Nor can a read that takes a byte succeed on none. */
  lemma CutToNothing<T>(whole: Taken<T>, short: Taken<T>, e: ReadError, bytes: seq<byte>)
    requires bytes != [] && Cut(whole, short, bytes[1..], 0)
    ensures Cut(whole, Bad(e, []), bytes, 0)
  {
    var n := |bytes| - |whole.rest|;
    assert bytes[1..][n - 1..] == bytes[n..];
  }

  /** One more byte below what was read. */
  ghost function Above(low: byte, high: Taken<nat>): Taken<nat> {
    match high
    case Ok(h, rest) => Ok(low as nat + 256 * h, rest)
    case Bad(e, rest) => Bad(e, rest)
  }

  lemma CutAbove(low: byte, whole: Taken<nat>, short: Taken<nat>, bytes: seq<byte>, k: nat)
    requires k <= |bytes| && Cut(whole, short, bytes, k)
    ensures Cut(Above(low, whole), Above(low, short), bytes, k)
  {
  }

  lemma GuidStep(mask: nat, bits: nat, bytes: seq<byte>)
    requires bits > 0
    ensures GuidFrom(mask, bits, bytes)
            == if mask % 2 == 0 then Above(0, GuidFrom(mask / 2, bits - 1, bytes))
               else if bytes == [] then Bad(EndOfFile, [])
               else Above(bytes[0], GuidFrom(mask / 2, bits - 1, bytes[1..]))
  {
  }

  lemma {:induction false} GuidCut(mask: nat, bits: nat, bytes: seq<byte>, k: nat)
    requires GuidFrom(mask, bits, bytes).Ok? && k <= |bytes|
    ensures Cut(GuidFrom(mask, bits, bytes), GuidFrom(mask, bits, bytes[..k]), bytes, k)
    decreases bits, 1
  {
    if bits == 0 {
      assert bytes[0..] == bytes && bytes[0..k] == bytes[..k];
    } else {
      GuidCutStep(mask, bits, bytes, k);
    }
  }

  lemma GuidCutStep(mask: nat, bits: nat, bytes: seq<byte>, k: nat)
    requires bits > 0 && GuidFrom(mask, bits, bytes).Ok? && k <= |bytes|
    ensures Cut(GuidFrom(mask, bits, bytes), GuidFrom(mask, bits, bytes[..k]), bytes, k)
    decreases bits, 0
  {
    hide GuidFrom, Cut;
    GuidStep(mask, bits, bytes);
    GuidStep(mask, bits, bytes[..k]);
    if mask % 2 == 0 {
      GuidCut(mask / 2, bits - 1, bytes, k);
      CutAbove(0, GuidFrom(mask / 2, bits - 1, bytes), GuidFrom(mask / 2, bits - 1, bytes[..k]), bytes, k);
    } else {
      var j, whole := if k == 0 then 0 else k - 1, GuidFrom(mask / 2, bits - 1, bytes[1..]);
      var short := GuidFrom(mask / 2, bits - 1, bytes[1..][..j]);
      GuidCut(mask / 2, bits - 1, bytes[1..], j);
      CutAbove(bytes[0], whole, short, bytes[1..], j);
      if k == 0 {
        CutToNothing(Above(bytes[0], whole), Above(bytes[0], short), EndOfFile, bytes);
      } else {
        CutShift(Above(bytes[0], whole), Above(bytes[0], short), bytes, j);
      }
    }
  }

  lemma UnsignedCut(w: nat, bytes: seq<byte>, k: nat)
    requires UnsignedFrom(w, bytes).Ok? && k <= |bytes|
    ensures Cut(UnsignedFrom(w, bytes), UnsignedFrom(w, bytes[..k]), bytes, k)
    ensures |UnsignedFrom(w, bytes).rest| == |bytes| - w
  {
    if k >= w {
      assert bytes[..k][..w] == bytes[..w] && bytes[..k][w..] == bytes[w..k];
    }
  }

  lemma PackedGuidCut(bytes: seq<byte>, k: nat)
    requires PackedGuidFrom(bytes).Ok? && k <= |bytes|
    ensures Cut(PackedGuidFrom(bytes), PackedGuidFrom(bytes[..k]), bytes, k)
    ensures |PackedGuidFrom(bytes).rest| < |bytes|
  {
    hide GuidFrom;
    var j, mask := if k == 0 then 0 else k - 1, bytes[0] as nat;
    var whole, short := GuidFrom(mask, 8, bytes[1..]), GuidFrom(mask, 8, bytes[1..][..j]);
    GuidCut(mask, 8, bytes[1..], j);
    assert |whole.rest| <= |bytes[1..]|;
    hide Cut;
    if k == 0 {
      CutToNothing(whole, short, EndOfFile, bytes);
    } else {
      CutShift(whole, short, bytes, j);
    }
  }

  /** A field that takes bytes reads the same from a prefix that holds it, and fails on a shorter one. */
  lemma FieldCut(kind: Kind, bytes: seq<byte>, k: nat)
    requires TakesBytes(kind) && FieldFrom(kind, bytes).Ok? && k <= |bytes|
    ensures Cut(FieldFrom(kind, bytes), FieldFrom(kind, bytes[..k]), bytes, k)
    ensures |FieldFrom(kind, bytes).rest| < |bytes|
  {
    hide PackedGuidFrom, UnsignedFrom;
    match kind
    case UnsignedKind(w) => UnsignedCut(w, bytes, k);
    case SignedKind(w) => UnsignedCut(w, bytes, k);
    case BoolKind => UnsignedCut(1, bytes, k);
    case GuidKind => PackedGuidCut(bytes, k);
  }

  /** A text reads the same from a prefix that holds its NUL; otherwise it takes the whole prefix. */
  ghost predicate TextCuts(whole: (seq<byte>, seq<byte>), short: (seq<byte>, seq<byte>), bytes: seq<byte>, k: nat)
    requires k <= |bytes|
  {
    && LeavesTail(bytes, whole.1)
    && var n := |bytes| - |whole.1|;
       if k < n then short.1 == [] else short == (whole.0, bytes[n..k])
  }

  lemma TextShift(whole: (seq<byte>, seq<byte>), short: (seq<byte>, seq<byte>), bytes: seq<byte>, k: nat)
    requires bytes != [] && k < |bytes| && TextCuts(whole, short, bytes[1..], k)
    ensures TextCuts(([bytes[0]] + whole.0, whole.1), ([bytes[0]] + short.0, short.1), bytes, k + 1)
    ensures TextCuts(([bytes[0]] + whole.0, whole.1), ([], []), bytes, 0)
    ensures bytes[..k + 1][1..] == bytes[1..][..k]
  {
    var n := |bytes| - |whole.1|;
    assert bytes[1..][n - 1..] == bytes[n..];
    if k + 1 >= n {
      assert bytes[1..][n - 1..k] == bytes[n..k + 1];
    }
  }

  lemma TextStep(bytes: seq<byte>)
    ensures StringFrom(bytes)
            == if bytes == [] then ([], [])
               else if bytes[0] == 0 then ([], bytes[1..])
               else ([bytes[0]] + StringFrom(bytes[1..]).0, StringFrom(bytes[1..]).1)
  {
  }

  lemma TextEndsAtOnce(bytes: seq<byte>, k: nat)
    requires k <= |bytes| && (bytes == [] || bytes[0] == 0)
    ensures TextCuts(StringFrom(bytes), StringFrom(bytes[..k]), bytes, k)
  {
    if k > 0 {
      assert bytes[..k][1..] == bytes[1..k];
    }
  }

  lemma {:induction false} TextCut(bytes: seq<byte>, k: nat)
    requires k <= |bytes|
    ensures TextCuts(StringFrom(bytes), StringFrom(bytes[..k]), bytes, k)
    decreases |bytes|
  {
    hide StringFrom, TextCuts;
    if bytes == [] || bytes[0] == 0 {
      TextEndsAtOnce(bytes, k);
    } else {
      var j := if k == 0 then 0 else k - 1;
      TextCut(bytes[1..], j);
      TextShift(StringFrom(bytes[1..]), StringFrom(bytes[1..][..j]), bytes, j);
      TextStep(bytes);
      TextStep(bytes[..k]);
    }
  }

  /** With nothing left, a list of reads that does not end in a text ends in an error. */
  lemma {:induction false} NothingLeftFails(kinds: seq<Kind>)
    requires kinds != [] && TakesBytes(kinds[|kinds| - 1])
    ensures ReadMany(kinds, Cursor([], None)).1.err.Some?
    decreases |kinds|
  {
    var c := ReadOne(kinds[0], Cursor([], None)).1;
    if c.err.Some? {
      ErrorSticks(kinds[1..], c);
    } else {
      assert c.left == [];
      NothingLeftFails(kinds[1..]);
    }
  }

  /** Cutting the bytes to their first `k` makes the reads fail exactly if more than `k` were consumed. */
  ghost predicate ReadsCut(kinds: seq<Kind>, bytes: seq<byte>, k: nat)
    requires k <= |bytes|
  {
    var whole, short := ReadMany(kinds, Cursor(bytes, None)), ReadMany(kinds, Cursor(bytes[..k], None));
    && LeavesTail(bytes, whole.1.left)
    && var n := |bytes| - |whole.1.left|;
       if k < n then short.1.err.Some? else short == (whole.0, Cursor(bytes[n..k], None))
  }

  /**
   Cutting a body short.  A list of reads, the last of which is no text, that succeeds on some bytes
   succeeds on a prefix of them exactly if the prefix holds all that was consumed, and otherwise ends
   in an error.
   */
  lemma {:induction false} TruncatedReadFails(kinds: seq<Kind>, bytes: seq<byte>, k: nat)
    requires kinds != [] && TakesBytes(kinds[|kinds| - 1]) && k <= |bytes|
    requires forall kind :: kind in kinds ==> kind.StringKind? || TakesBytes(kind)
    requires ReadMany(kinds, Cursor(bytes, None)).1.err.None?
    ensures ReadsCut(kinds, bytes, k)
    decreases |kinds|
  {
    hide FieldFrom, TakesBytes, ReadsCut, LeavesTail;
    var kind, tail := kinds[0], kinds[1..];
    FirstReads(kinds, bytes);
    HeadCut(kind, bytes, k);
    var rest := FieldFrom(kind, bytes).rest;
    if tail == [] {
      LastCut(kinds, bytes, k);
    } else {
      var j := if k < |bytes| - |rest| then 0 else k - (|bytes| - |rest|);
      TruncatedReadFails(tail, rest, j);
      MoreCut(kinds, bytes, k, j);
    }
  }

  lemma LastCut(kinds: seq<Kind>, bytes: seq<byte>, k: nat)
    requires |kinds| == 1 && TakesBytes(kinds[0]) && k <= |bytes| && HeadCuts(kinds[0], bytes, k)
    ensures ReadsCut(kinds, bytes, k)
  {
    hide FieldFrom, TakesBytes, ReadMany;
    assert kinds == [kinds[0]];
    OneRead(kinds[0], Cursor(bytes, None));
    OneRead(kinds[0], Cursor(bytes[..k], None));
  }

  lemma OneRead(kind: Kind, c: Cursor)
    ensures ReadMany([kind], c) == ([ReadOne(kind, c).0], ReadOne(kind, c).1)
  {
    var (f, c') := ReadOne(kind, c);
    assert [kind][1..] == [] && ReadMany([], c') == ([], c');
    assert [f] + [] == [f];
  }

  lemma MoreCut(kinds: seq<Kind>, bytes: seq<byte>, k: nat, j: nat)
    requires |kinds| > 1 && TakesBytes(kinds[|kinds| - 1]) && k <= |bytes| && HeadCuts(kinds[0], bytes, k)
    requires var rest := FieldFrom(kinds[0], bytes).rest;
             var n := |bytes| - |rest|;
             j <= |rest| && (if k < n then j == 0 else j == k - n) && ReadsCut(kinds[1..], rest, j)
    ensures ReadsCut(kinds, bytes, k)
  {
    hide FieldFrom, TakesBytes;
    var head := FieldFrom(kinds[0], bytes);
    var n := |bytes| - |head.rest|;
    var m := |head.rest| - |ReadMany(kinds[1..], Cursor(head.rest, None)).1.left|;
    CutTwice(bytes, n, m);
    if k < n {
      ShortHeadFails(kinds[0], kinds[1..], bytes[..k]);
    } else {
      CutPrefix(bytes, n, m, k);
    }
  }

  lemma CutTwice(bytes: seq<byte>, n: nat, m: nat)
    requires n + m <= |bytes|
    ensures bytes[n..][m..] == bytes[n + m..]
  {
  }

  lemma CutPrefix(bytes: seq<byte>, n: nat, m: nat, k: nat)
    requires n <= k <= |bytes|
    ensures bytes[n..][..k - n] == bytes[n..k]
    ensures n + m <= k ==> bytes[n..][m..k - n] == bytes[n + m..k]
  {
  }

  lemma FirstReads(kinds: seq<Kind>, bytes: seq<byte>)
    requires kinds != [] && ReadMany(kinds, Cursor(bytes, None)).1.err.None?
    ensures FieldFrom(kinds[0], bytes).Ok?
  {
    hide FieldFrom;
    if FieldFrom(kinds[0], bytes).Bad? {
      ErrorSticks(kinds[1..], ReadOne(kinds[0], Cursor(bytes, None)).1);
    }
  }

  /** The first of several reads on a prefix that does not hold the field. */
  lemma ShortHeadFails(kind: Kind, tail: seq<Kind>, bytes: seq<byte>)
    requires var r := FieldFrom(kind, bytes); r.Bad? || r.rest == []
    requires tail != [] && TakesBytes(tail[|tail| - 1])
    ensures ReadMany(tail, ReadOne(kind, Cursor(bytes, None)).1).1.err.Some?
  {
    hide FieldFrom, TakesBytes;
    var c := ReadOne(kind, Cursor(bytes, None)).1;
    if c.err.Some? {
      ErrorSticks(tail, c);
    } else {
      NothingLeftFails(tail);
    }
  }

  /** Either kind of field on a prefix: the same value, or an error, or nothing left. */
  ghost predicate HeadCuts(kind: Kind, bytes: seq<byte>, k: nat)
    requires k <= |bytes|
  {
    var whole, short := FieldFrom(kind, bytes), FieldFrom(kind, bytes[..k]);
    && whole.Ok? && LeavesTail(bytes, whole.rest)
    && var n := |bytes| - |whole.rest|;
       if k < n then short.Bad? || (!TakesBytes(kind) && short.rest == []) else short == Ok(whole.value, bytes[n..k])
  }

  lemma HeadCut(kind: Kind, bytes: seq<byte>, k: nat)
    requires (kind.StringKind? || TakesBytes(kind)) && FieldFrom(kind, bytes).Ok? && k <= |bytes|
    ensures HeadCuts(kind, bytes, k) && |FieldFrom(kind, bytes).rest| <= |bytes|
  {
    if kind.StringKind? {
      TextCut(bytes, k);
    } else {
      hide FieldFrom, TakesBytes;
      FieldCut(kind, bytes, k);
    }
  }

  /**
   Hence reading any proper prefix of a written body whose last field is no text ends in an error, if
   its texts hold no NUL.
   */
  lemma TruncatedBodyFails(fields: seq<Field>, k: nat)
    requires AllFit(fields) && NulFree(fields) && fields != [] && !fields[|fields| - 1].Text?
    requires k < |BodyBytes(fields)|
    ensures ReadMany(Kinds(fields), Cursor(BodyBytes(fields)[..k], None)).1.err.Some?
  {
    hide ReadMany, BodyBytes, Kinds, TakesBytes, AllFit, NulFree;
    var kinds, bytes := Kinds(fields), BodyBytes(fields);
    BodyRoundTrip(fields, []);
    assert bytes + [] == bytes;
    KindsTakeBytes(fields);
    TruncatedReadFails(kinds, bytes, k);
    assert ReadsCut(kinds, bytes, k);
  }

  lemma KindsTakeBytes(fields: seq<Field>)
    requires AllFit(fields)
    ensures var kinds := Kinds(fields);
            && |kinds| == |fields| && (forall kind :: kind in kinds ==> kind.StringKind? || TakesBytes(kind))
            && (fields != [] && !fields[|fields| - 1].Text? ==> TakesBytes(kinds[|kinds| - 1]))
  {
    var kinds := Kinds(fields);
    forall kind | kind in kinds ensures kind.StringKind? || TakesBytes(kind) {
      var i :| 0 <= i < |fields| && fields[i].Kind() == kind;
      assert fields[i].Fits();
    }
    if fields != [] {
      assert kinds[|kinds| - 1] in kinds;
    }
  }

  /** A NUL inside a text can hide that the body was cut: of three bytes, the first two read without an error. */
  lemma NulHidesTruncation(x: byte)
    ensures var fields := [Text([0]), Unsigned(1, x as nat)];
            && AllFit(fields) && BodyBytes(fields) == [0, 0, x]
            && ReadMany(Kinds(fields), Cursor(BodyBytes(fields)[..2], None)) == ([Text([]), Unsigned(1, 0)], Cursor([], None))
  {
    var fields := [Text([0]), Unsigned(1, x as nat)];
    Widths();
    var one := [Unsigned(1, x as nat)];
    assert fields[1..] == one && one[1..] == [];
    LittleEndianBytesDenote(x as nat, 1);
    assert BodyBytes(one) == LittleEndianBytes(x as nat, 1) + BodyBytes([]) == [x];
    assert BodyBytes(fields) == [0] + [0] + BodyBytes(one);
    TwoZeros();
    assert BodyBytes(fields)[..2] == [0, 0];
    assert Kinds(fields) == [StringKind, UnsignedKind(1)];
  }

  lemma TwoZeros()
    ensures ReadMany([StringKind, UnsignedKind(1)], Cursor([0, 0], None)) == ([Text([]), Unsigned(1, 0)], Cursor([], None))
  {
    var bytes: seq<byte> := [0, 0];
    var last := [UnsignedKind(1)];
    var kinds := [StringKind, UnsignedKind(1)];
    assert bytes[1..] == [0] && kinds[1..] == last && last[1..] == [];
    assert ReadOne(StringKind, Cursor(bytes, None)) == (Text([]), Cursor([0], None));
    var zero: seq<byte> := [0];
    LittleEndianDenotes(zero);
    assert zero[..1] == zero && zero[1..] == [];
    assert ReadMany(last, Cursor(zero, None)) == ([Unsigned(1, 0)] + ReadMany([], Cursor([], None)).0, Cursor([], None));
    assert [Text([])] + ReadMany(last, Cursor(zero, None)).0 == [Text([]), Unsigned(1, 0)];
    assert ReadMany(kinds, Cursor(bytes, None)) == ([Text([])] + ReadMany(last, Cursor(zero, None)).0, Cursor([], None));
  }

  // ------------------------------------------------------------ the writer

  /** The mask once the bytes still in `left`, the first of them at bit i, are accounted for. */
  ghost function MaskWith(mask: nat, i: nat, left: nat): nat {
    mask + Pow2(i) * GuidMask(left)
  }

  /** Taking one byte off `left` moves its contribution to bit i of the mask. */
  lemma MaskStep(mask: nat, i: nat, left: nat)
    ensures MaskWith(mask, i, left)
            == MaskWith(if left % 256 != 0 then mask + Pow2(i) else mask, i + 1, left / 256)
    ensures Pow2(i + 1) == 2 * Pow2(i)
  {
    GuidHead(left);
    var rest := GuidMask(left / 256);
    assert Pow2(i + 1) * rest == Pow2(i) * (2 * rest);
  }

  lemma {:induction false} Pow2AtMost(i: nat, j: nat)
    requires i <= j
    ensures 0 < Pow2(i) <= Pow2(j)
  {
    if i > 0 {
      Pow2AtMost(i - 1, j - 1);
    } else if j > 0 {
      Pow2AtMost(0, j - 1);
    }
  }

  /** The packing loop: `mask` and `used` are written, `left` is to come from byte i on. */
  ghost predicate Packing(guid: nat, mask: nat, used: seq<byte>, i: nat, left: nat) {
    && i <= 8 && left < Pow256(8 - i)
    && |used| <= i && mask < Pow2(i)
    && MaskWith(mask, i, left) == GuidMask(guid)
    && used + GuidBytes(left) == GuidBytes(guid)
  }

  lemma PackingStarts(guid: nat)
    requires guid < Pow256(8)
    ensures Packing(guid, 0, [], 0, guid)
  {
    assert [] + GuidBytes(guid) == GuidBytes(guid);
    assert Pow2(0) == 1;
  }

  lemma PackingStep(guid: nat, mask: nat, used: seq<byte>, i: nat, left: nat)
    requires Packing(guid, mask, used, i, left) && left != 0
    ensures i < 8 && mask + Pow2(i) < 256
    ensures if left % 256 != 0
            then Packing(guid, mask + Pow2(i), used + [(left % 256) as byte], i + 1, left / 256)
            else Packing(guid, mask, used, i + 1, left / 256)
  {
    MaskStep(mask, i, left);
    GuidHead(left);
    assert Pow256(0) == 1;
    Pow2AtMost(i + 1, 8);
    assert Pow2(8) == 256 by {
      assert Pow2(4) == 16;
    }
    if left % 256 != 0 {
      assert used + [(left % 256) as byte] + GuidBytes(left / 256) == used + GuidBytes(left);
    } else {
      assert GuidBytes(left) == GuidBytes(left / 256);
    }
  }

  lemma PackingEnds(guid: nat, mask: nat, used: seq<byte>, i: nat)
    requires Packing(guid, mask, used, i, 0)
    ensures mask == GuidMask(guid) && used == GuidBytes(guid) && |used| <= 8
  {
    assert used + [] == used;
  }

  class Writer {
    var payload: seq<byte>

    constructor ()
      ensures payload == []
    {
      payload := [];
    }

    /** `Uint8`, `Uint16`, `Uint32` and `Uint64`, by width. */
    method Uint(n: nat, w: nat)
      requires w in {1, 2, 4, 8} && n < Pow256(w)
      modifies this
      ensures payload == old(payload) + FieldBytes(Unsigned(w, n))
      ensures |payload| == old(|payload|) + w && Denotes(payload[old(|payload|)..], n)
    {
      LittleEndianBytesDenote(n, w);
      payload := payload + LittleEndianBytes(n, w);
      assert payload[old(|payload|)..] == LittleEndianBytes(n, w);
    }

    /** `Int16`, `Int32` and `Int64`, by width. */
    method Int(i: int, w: nat)
      requires w in {1, 2, 4, 8} && InRange(i, w)
      modifies this
      ensures payload == old(payload) + FieldBytes(Signed(w, i))
      ensures |payload| == old(|payload|) + w && DenotesSigned(payload[old(|payload|)..], i)
    {
      Widths();
      Uint(Wrapped(i, w), w);
    }

    method Bool(v: bool)
      modifies this
      ensures payload == old(payload) + FieldBytes(Boolean(v))
      ensures payload == old(payload) + [if v then 1 else 0]
    {
      payload := payload + [if v then 1 else 0];
    }

    method String(s: seq<byte>)
      modifies this
      ensures payload == old(payload) + FieldBytes(Text(s))
      ensures payload == old(payload) + s + [0]
    {
      payload := payload + (s + [0]);
    }

    /** Packs a GUID into a nine-byte buffer and appends the part of it that was used. */
    method GUID(guid: nat)
      requires guid < Pow256(8)
      modifies this
      ensures payload == old(payload) + FieldBytes(Guid(guid))
      ensures |payload| > old(|payload|) && PackedGuid(payload[old(|payload|)..], guid)
    {
      hide GuidBytes, GuidMask, PackedGuid, FieldBytes, Pow256;
      var packed := new byte[9](_ => 0);
      var size := Pack(guid, packed);
      assert packed[..size][1..] == packed[1..size];
      PackedGuidLaidOut(guid, packed[..size]);
      payload := payload + packed[..size];
      assert payload[old(|payload|)..] == packed[..size];
    }

    /** The packing loop: fills `packed` and returns how much of it is used. */
    method Pack(guid: nat, packed: array<byte>) returns (size: nat)
      requires guid < Pow256(8) && packed.Length == 9 && packed[0] == 0
      modifies packed
      ensures 1 <= size <= 9
      ensures packed[0] as nat == GuidMask(guid) && packed[1..size] == GuidBytes(guid)
    {
      var i: nat, left: nat := 0, guid;
      size := 1;
      assert packed[1..size] == [];
      hide Packing, Pow2, Pow256, GuidBytes, GuidMask;
      PackingStarts(guid);
      while left != 0
        invariant 1 <= size <= i + 1 <= 9
        invariant Packing(guid, packed[0] as nat, packed[1..size], i, left)
        decreases left
      {
        PackingStep(guid, packed[0] as nat, packed[1..size], i, left);
        if left % 256 != 0 {
          // bit i is still clear, so setting it adds 2^i
          packed[0] := (packed[0] as nat + Pow2(i)) as byte;
          packed[size] := (left % 256) as byte;
          assert packed[1..size + 1] == packed[1..size] + [(left % 256) as byte];
          size := size + 1;
        }
        left := left / 256;
        i := i + 1;
      }
      PackingEnds(guid, packed[0] as nat, packed[1..size], i);
    }
  }

  // ------------------------------------------------------------ the reader

  lemma {:induction false} GuidFailsAtTheEnd(mask: nat, bits: nat, bytes: seq<byte>)
    ensures GuidFrom(mask, bits, bytes).Bad? ==> GuidFrom(mask, bits, bytes) == Bad(EndOfFile, [])
    decreases bits
  {
    if bits > 0 && (mask % 2 == 0 || bytes != []) {
      GuidFailsAtTheEnd(mask / 2, bits - 1, if mask % 2 == 1 then bytes[1..] else bytes);
    }
  }

  /** What reading the bytes behind a mask comes to. */
  lemma GuidReads(mask: nat, bytes: seq<byte>)
    requires mask < 256
    ensures var r := GuidFrom(mask, 8, bytes);
            && (r.Ok? <==> MaskBits(mask, 8) <= |bytes|) && (r.Bad? ==> r == Bad(EndOfFile, []))
            && (r.Ok? ==> var n := |bytes| - |r.rest|;
                          && 0 <= n && r.rest == bytes[n..] && r.value < Pow256(8)
                          && Packs(LittleEndianBytes(r.value, 8), mask, bytes[..n]))
  {
    assert Pow2(8) == 256 by {
      assert Pow2(4) == 16;
    }
    GuidCanonical(mask, 8, bytes);
    GuidFailsAtTheEnd(mask, 8, bytes);
    if GuidFrom(mask, 8, bytes).Ok? {
      UnpackedLayout(mask, 8, bytes);
    }
  }

  class Reader {
    const data: seq<byte>
    var pos: nat
    var err: Option<ReadError>

    ghost predicate Valid()
      reads this
    {
      pos <= |data|
    }

    ghost function State(): Cursor
      requires Valid()
      reads this
    {
      Cursor(data[pos..], err)
    }

    constructor (data: seq<byte>)
      ensures Valid() && State() == Cursor(data, None)
    {
      this.data, pos, err := data, 0, None;
    }

    /** `Uint8` to `Uint64`, by width. */
    method Uint(w: nat) returns (n: nat)
      requires Valid() && w in {1, 2, 4, 8}
      modifies this
      ensures Valid()
      ensures (Unsigned(w, n), State()) == ReadOne(UnsignedKind(w), old(State()))
      ensures old(err).Some? ==> n == 0 && pos == old(pos) && err == old(err)
      ensures old(err).None? && old(pos) + w <= |data| ==>
                err == None && pos == old(pos) + w && Denotes(data[old(pos)..pos], n)
      ensures old(err).None? && old(pos) + w > |data| ==>
                n == 0 && pos == |data| && err == Some(if old(pos) == |data| then EndOfFile else UnexpectedEndOfFile)
    {
      if err.Some? {
        return 0;
      }
      if |data| - pos >= w {
        n := LittleEndian(data[pos..pos + w]);
        LittleEndianDenotes(data[pos..pos + w]);
        assert data[pos..][..w] == data[pos..pos + w] && data[pos..][w..] == data[pos + w..];
        pos := pos + w;
      } else {
        n, err := 0, Some(if pos == |data| then EndOfFile else UnexpectedEndOfFile);
        pos := |data|;
        assert data[pos..] == [];
      }
    }

    /** `Int8` to `Int64`, by width. */
    method Int(w: nat) returns (i: int)
      requires Valid() && w in {1, 2, 4, 8}
      modifies this
      ensures Valid()
      ensures (Signed(w, i), State()) == ReadOne(SignedKind(w), old(State()))
      ensures old(err).Some? ==> i == 0 && pos == old(pos) && err == old(err)
      ensures old(err).None? && old(pos) + w <= |data| ==>
                err == None && pos == old(pos) + w && DenotesSigned(data[old(pos)..pos], i)
      ensures old(err).None? && old(pos) + w > |data| ==>
                i == 0 && pos == |data| && err == Some(if old(pos) == |data| then EndOfFile else UnexpectedEndOfFile)
    {
      Widths();
      var n := Uint(w);
      i := SignOf(n, w);
      if old(err).None? && old(pos) + w <= |data| {
        LittleEndianDenotes(data[old(pos)..pos]);
      }
    }

    method String() returns (s: seq<byte>)
      requires Valid()
      modifies this
      ensures Valid()
      ensures (Text(s), State()) == ReadOne(StringKind, old(State()))
      ensures err == old(err) && (err.Some? ==> s == [] && pos == old(pos))
      ensures err.None? ==> 0 !in s
      ensures err.None? ==> data[old(pos)..] == s + [0] + data[pos..] || (data[old(pos)..] == s && pos == |data|)
    {
      hide StringFrom;
      if err.Some? {
        return [];
      }
      StringStops(data[pos..]);
      s := Scan();
    }

    /** The reading loop: bytes up to a NUL or the end. */
    method Scan() returns (s: seq<byte>)
      requires Valid() && err == None
      modifies this`pos
      ensures Valid() && (s, data[pos..]) == StringFrom(old(data[pos..]))
      ensures data[pos..] == [] ==> pos == |data|
    {
      s := [];
      ghost var (all, rest) := StringFrom(data[pos..]);
      while pos < |data|
        invariant pos <= |data|
        invariant var (s', rest') := StringFrom(data[pos..]); s + s' == all && rest' == rest
      {
        var d := data[pos];
        assert data[pos..][1..] == data[pos + 1..];
        pos := pos + 1;
        if d == 0 {
          assert s + [] == s;
          return;
        }
        s := s + [d];
      }
      assert data[pos..] == [] && s + [] == s;
    }

    method GUID() returns (guid: nat)
      requires Valid()
      modifies this
      ensures Valid()
      ensures (Guid(guid), State()) == ReadOne(GuidKind, old(State()))
      ensures err.Some? ==> guid == 0 && err == if old(err).Some? then old(err) else Some(EndOfFile)
      ensures old(err).Some? ==> err.Some? && pos == old(pos)
      ensures old(err).None? ==>
                (err.None? <==> old(pos) < |data| && MaskBits(data[old(pos)] as nat, 8) <= |data| - old(pos) - 1)
      ensures err.None? ==> old(pos) < pos && exists b ::
                |b| == 8 && Denotes(b, guid) && Packs(b, data[old(pos)] as nat, data[old(pos) + 1..pos])
    {
      hide GuidFrom, Packs, Denotes, LittleEndianBytes, MaskBits;
      if err.Some? {
        return 0;
      }
      if pos == |data| {
        err := Some(EndOfFile);
        return 0;
      }
      var mask := data[pos] as nat;
      assert data[pos..][1..] == data[pos + 1..];
      pos := pos + 1;
      ghost var from := pos;
      GuidReads(mask, data[pos..]);
      guid := Unpack(mask);
      if err.None? {
        assert data[from..pos] == data[from..][..pos - from];
        LittleEndianBytesDenote(guid, 8);
      }
    }

    /** The unpacking loop: one byte for every set bit of the mask. */
    method Unpack(mark: nat) returns (guid: nat)
      requires Valid() && err == None
      modifies this
      ensures Valid()
      ensures match GuidFrom(mark, 8, old(data[pos..]))
              case Ok(value, rest) => guid == value && State() == Cursor(rest, None)
              case Bad(e, rest) => guid == 0 && State() == Cursor(rest, Some(e))
    {
      hide GuidFrom, Shifted;
      ghost var goal := GuidFrom(mark, 8, data[pos..]);
      var mask := mark;
      guid := 0;
      var i, scale := 0, 1;
      ShiftedStart(goal);
      while i < 8
        invariant 0 <= i <= 8 && pos <= |data| && err == None
        invariant goal == Shifted(guid, scale, GuidFrom(mask, 8 - i, data[pos..]))
      {
        ShiftedStep(guid, scale, mask, 8 - i, data[pos..]);
        var b := 0;
        if mask % 2 == 1 {
          if pos == |data| {
            err := Some(EndOfFile);
            assert data[pos..] == [];
            return 0;
          }
          b := data[pos] as nat;
          assert data[pos..][1..] == data[pos + 1..];
          pos := pos + 1;
        }
        // byte i of the GUID is still zero, so or-ing the shifted byte adds it
        guid := guid + b * scale;
        mask, scale, i := mask / 2, 256 * scale, i + 1;
      }
      ShiftedEnd(guid, scale, mask, data[pos..]);
    }
  }

  /** The bytes still to come, placed above what has been read. */
  ghost function Shifted(guid: nat, scale: nat, high: Taken<nat>): Taken<nat> {
    match high
    case Ok(h, rest) => Ok(guid + scale * h, rest)
    case Bad(e, rest) => Bad(e, rest)
  }

  /** One iteration of the reader's loop. */
  lemma ShiftedStep(guid: nat, scale: nat, mask: nat, bits: nat, bytes: seq<byte>)
    requires bits > 0
    ensures var whole := Shifted(guid, scale, GuidFrom(mask, bits, bytes));
            if mask % 2 == 0 then
              whole == Shifted(guid + 0 * scale, 256 * scale, GuidFrom(mask / 2, bits - 1, bytes))
            else if bytes == [] then
              whole == Bad(EndOfFile, [])
            else
              whole == Shifted(guid + bytes[0] as nat * scale, 256 * scale, GuidFrom(mask / 2, bits - 1, bytes[1..]))
  {
    var b := if mask % 2 == 1 && bytes != [] then bytes[0] as nat else 0;
    var high := GuidFrom(mask / 2, bits - 1, if mask % 2 == 1 && bytes != [] then bytes[1..] else bytes);
    if high.Ok? {
      ScaledUp(scale, b, high.value);
    }
  }

  lemma ScaledUp(scale: nat, b: nat, high: nat)
    ensures scale * (b + 256 * high) == b * scale + 256 * scale * high
  {
  }

  lemma ShiftedStart(whole: Taken<nat>)
    ensures Shifted(0, 1, whole) == whole
  {
  }

  lemma ShiftedEnd(guid: nat, scale: nat, mask: nat, rest: seq<byte>)
    ensures Shifted(guid, scale, GuidFrom(mask, 0, rest)) == Ok(guid, rest)
  {
  }

  // ------------------------------------------------------------ a handler's chain of calls

  /** A handler building a packet: one writer call per field. */
  method WriteBody(w: Writer, fields: seq<Field>)
    requires AllFit(fields)
    modifies w
    ensures w.payload == old(w.payload) + BodyBytes(fields)
  {
    hide FieldBytes;
    var i := 0;
    while i < |fields|
      invariant 0 <= i <= |fields|
      invariant w.payload + BodyBytes(fields[i..]) == old(w.payload) + BodyBytes(fields)
    {
      assert fields[i..][1..] == fields[i + 1..] && fields[i] in fields;
      assert w.payload + BodyBytes(fields[i..]) == w.payload + FieldBytes(fields[i]) + BodyBytes(fields[i + 1..]);
      match fields[i] {
        case Unsigned(width, n) => w.Uint(n, width);
        case Signed(width, n) => w.Int(n, width);
        case Boolean(b) => w.Bool(b);
        case Text(s) => w.String(s);
        case Guid(guid) => w.GUID(guid);
      }
      i := i + 1;
    }
    assert w.payload + BodyBytes(fields[i..]) == w.payload;
  }

  /** A handler taking a packet apart: one reader call per kind. */
  method ReadBody(r: Reader, kinds: seq<Kind>) returns (fields: seq<Field>)
    requires r.Valid() && forall k :: k in kinds && (k.UnsignedKind? || k.SignedKind?) ==> k.w in {1, 2, 4, 8}
    modifies r
    ensures r.Valid() && (fields, r.State()) == ReadMany(kinds, old(r.State()))
  {
    fields := [];
    var i := 0;
    assert kinds[0..] == kinds && [] + ReadMany(kinds, r.State()).0 == ReadMany(kinds, r.State()).0;
    while i < |kinds|
      invariant 0 <= i <= |kinds| && r.Valid()
      invariant ReadMany(kinds, old(r.State()))
                == (fields + ReadMany(kinds[i..], r.State()).0, ReadMany(kinds[i..], r.State()).1)
    {
      ghost var before := r.State();
      var k := kinds[i];
      var f;
      match k {
        case UnsignedKind(w) =>
          var n := r.Uint(w);
          f := Unsigned(w, n);
        case SignedKind(w) =>
          var n := r.Int(w);
          f := Signed(w, n);
        case BoolKind =>
          var n := r.Uint(1);
          f := Boolean(n != 0);
        case StringKind =>
          var s := r.String();
          f := Text(s);
        case GuidKind =>
          var guid := r.GUID();
          f := Guid(guid);
      }
      assert (f, r.State()) == ReadOne(k, before);
      ReadManyStep(kinds, i, fields, before);
      fields := fields + [f];
      i := i + 1;
    }
    assert fields + [] == fields;
  }

  lemma ReadManyStep(kinds: seq<Kind>, i: nat, done: seq<Field>, c: Cursor)
    requires i < |kinds|
    ensures var (f, c') := ReadOne(kinds[i], c);
            && done + ReadMany(kinds[i..], c).0 == done + [f] + ReadMany(kinds[i + 1..], c').0
            && ReadMany(kinds[i..], c).1 == ReadMany(kinds[i + 1..], c').1
  {
    assert kinds[i..][1..] == kinds[i + 1..];
  }

  /** End to end: what a handler writes, another reads back, with no error and nothing left. */
  method WriteThenRead(fields: seq<Field>) returns (back: seq<Field>, left: nat, err: Option<ReadError>)
    requires AllFit(fields) && NulFree(fields)
    ensures back == fields && left == 0 && err == None
  {
    var w := new Writer();
    WriteBody(w, fields);
    var r := new Reader(w.payload);
    assert w.payload == BodyBytes(fields) + [];
    BodyRoundTrip(fields, []);
    forall k | k in Kinds(fields) && (k.UnsignedKind? || k.SignedKind?) ensures k.w in {1, 2, 4, 8} {
      var i :| 0 <= i < |fields| && fields[i].Kind() == k;
      assert fields[i].Fits();
    }
    back := ReadBody(r, Kinds(fields));
    left, err := |r.data| - r.pos, r.err;
  }
}
