/**
 * The 204-byte header of a C4Group archive (C4GroupHeader.java): the
 * magic id "RedWolf Design GrpFolder", two version numbers, the entry
 * count, the maker and password strings, and two time stamps, stored as
 * ISO-8859-1 strings padded with zero bytes and little-endian 32-bit
 * integers. Reading validates the id, the versions and the entry count.
 *
 * Bytes are the unsigned values 0..255 of Java's signed `byte` (every
 * use in the source masks them with `0xFF` or compares them with 1).
 */
module GroupHeader {
  import opened Common

  type Byte = b: int | 0 <= b < 256

  const STORED_SIZE: nat := 204
  const GROUP_ID: string := "RedWolf Design GrpFolder"
  /** The creation time stamp `createHeader` writes. */
  const DEFAULT_CREATION: Int32 := 1221126239
  /** The largest entry count a header may announce before it is rejected as suspicious. */
  const MAX_ENTRIES: int := 1000

  datatype C4GroupHeader = C4GroupHeader(
    id: string,
    ver1: Int32,
    ver2: Int32,
    entries: Int32,
    maker: string,
    password: string,
    creation: Int32,
    original: Int32)

  datatype C4GroupInvalidData = InvalidId | InvalidVersion1 | InvalidVersion2 | SuspiciousEntryCount

  /** `createHeader`: a header for `entryCount` entries written by `maker`. */
  function CreateHeader(entryCount: Int32, maker: string): (h: C4GroupHeader)
    ensures h.id == GROUP_ID && h.entries == entryCount && h.maker == maker
    ensures h.ver1 == 1 && h.ver2 == 2 && h.password == ""
  {
    C4GroupHeader(GROUP_ID, 1, 2, entryCount, maker, "", DEFAULT_CREATION, 0)
  }

  // ---------------------------------------------------------------------
  // Field codecs
  // ---------------------------------------------------------------------

  function Pow256(i: nat): (r: nat)
    ensures r >= 1
  {
    if i == 0 then 1 else 256 * Pow256(i - 1)
  }

  /** The unsigned little-endian value of `b`. */
  function UnsignedLE(b: seq<Byte>): nat
  {
    if b == [] then 0 else UnsignedLE(b[..|b| - 1]) + b[|b| - 1] * Pow256(|b| - 1)
  }

  /** The `int` four little-endian bytes stand for (two's complement). */
  function Int32FromBytes(b: seq<Byte>): Int32
    requires |b| == 4
  {
    Wrap32(UnsignedLE(b))
  }

  /** The four little-endian bytes of an `int` (two's complement). */
  function BytesOfInt32(n: Int32): (r: seq<Byte>)
    ensures |r| == 4
  {
    var u := n % TWO_TO_32;
    [u % 256, (u / 0x100) % 256, (u / 0x1_0000) % 256, (u / 0x100_0000) % 256]
  }

  /** `getBytes("ISO-8859-1")`: a character outside Latin-1 becomes `?`. */
  function Latin1Encode(s: string): (r: seq<Byte>)
    ensures |r| == |s|
  {
    seq(|s|, i requires 0 <= i < |s| => if s[i] as int < 256 then s[i] as int else '?' as int)
  }

  /** `new String(bytes, "ISO-8859-1")`: every byte is the character with that code. */
  function Latin1Decode(b: seq<Byte>): (r: string)
    ensures |r| == |b|
  {
    seq(|b|, i requires 0 <= i < |b| => b[i] as char)
  }

  predicate IsLatin1(s: string)
  {
    forall k :: 0 <= k < |s| ==> s[k] as int < 256
  }

  /** `source` cut or padded with zero bytes to `length` bytes, as `arrayCopyTo` stores it. */
  function Padded(source: seq<Byte>, length: nat): (r: seq<Byte>)
    ensures |r| == length
  {
    seq(length, i requires 0 <= i < length => if i < |source| then source[i] else 0)
  }

  function Zeros(length: nat): (r: seq<Byte>)
    ensures |r| == length
  {
    Padded([], length)
  }

  /**
   * The 204 bytes `writeTo` assembles before scrambling: the version
   * fields are written as the constants 1 and 2, not from the header.
   */
  function EncodeHeader(h: C4GroupHeader): (r: seq<Byte>)
    ensures |r| == STORED_SIZE
  {
    EncodeIdentity(h) + EncodeOwner(h) + Zeros(STORED_SIZE - 112)
  }

  /** The first 40 bytes: the id, four unused bytes, the two versions and the entry count. */
  function EncodeIdentity(h: C4GroupHeader): (r: seq<Byte>)
    ensures |r| == 40
  {
    Padded(Latin1Encode(h.id), 24) + Zeros(4)
    + [1, 0, 0, 0] + [2, 0, 0, 0]
    + BytesOfInt32(h.entries)
  }

  /** The next 72 bytes: maker, password, the two times, each string followed by two unused bytes. */
  function EncodeOwner(h: C4GroupHeader): (r: seq<Byte>)
    ensures |r| == 72
  {
    Padded(Latin1Encode(h.maker), 30) + Zeros(2)
    + Padded(Latin1Encode(h.password), 30) + Zeros(2)
    + BytesOfInt32(h.creation) + BytesOfInt32(h.original)
  }

  /**
   * `createFromStream` on the 204 unscrambled bytes: the id must not
   * compare greater than the magic id, the first version must be 1, the
   * second at least 1, and the entry count at most 1000.
   */
  function DecodeHeader(b: seq<Byte>): (r: Result<C4GroupHeader, C4GroupInvalidData>)
    requires |b| == STORED_SIZE
    ensures r.Success? ==> CompareTo(r.value.id, GROUP_ID) <= 0 && IsTrimmed(r.value.id)
    ensures r.Success? ==> r.value.ver1 == 1 && r.value.ver2 >= 1 && r.value.entries <= MAX_ENTRIES
    ensures r.Success? ==> IsTrimmed(r.value.maker) && IsTrimmed(r.value.password)
  {
    var id := Trim(Latin1Decode(b[0..24]));
    if CompareTo(id, GROUP_ID) > 0 then Failure(InvalidId)
    else
      var ver1 := Int32FromBytes(b[28..32]);
      if ver1 != 1 then Failure(InvalidVersion1)
      else
        var ver2 := Int32FromBytes(b[32..36]);
        if ver2 < 1 then Failure(InvalidVersion2)
        else
          var entries := Int32FromBytes(b[36..40]);
          if entries > MAX_ENTRIES then Failure(SuspiciousEntryCount)
          else
            Success(C4GroupHeader(id, ver1, ver2, entries,
                                  Trim(Latin1Decode(b[40..70])), Trim(Latin1Decode(b[72..102])),
                                  Int32FromBytes(b[104..108]), Int32FromBytes(b[108..112])))
  }

  // ---------------------------------------------------------------------
  // The byte loops of the source
  // ---------------------------------------------------------------------

  /** `byteToInt32`: sums the bytes shifted into place, in wrapping `int` arithmetic. */
  method ByteToInt32(buffer: seq<Byte>, offset: nat) returns (result: Int32)
    requires offset + 4 <= |buffer|
    ensures result == Int32FromBytes(buffer[offset..offset + 4])
  {
    result := 0;
    var i := 0;
    while i < 4
      invariant 0 <= i <= 4
      invariant result == Wrap32(UnsignedLE(buffer[offset..offset + 4][..i]))
    {
      var shifted := Wrap32(buffer[i + offset] * Pow256(i));  // (b & 0xFF) << (i * 8)
      ShiftedByteStep(buffer[offset..offset + 4], i);
      result := Wrap32(result + shifted);
      i := i + 1;
    }
    assert buffer[offset..offset + 4][..4] == buffer[offset..offset + 4];
  }

  /** Adding the next byte shifted into place extends the wrapped little-endian value by that byte. */
  lemma ShiftedByteStep(b: seq<Byte>, i: nat)
    requires i < |b|
    ensures Wrap32(Wrap32(UnsignedLE(b[..i])) + Wrap32(b[i] * Pow256(i))) == Wrap32(UnsignedLE(b[..i + 1]))
  {
    WrapAdd(UnsignedLE(b[..i]), b[i] * Pow256(i));
    assert b[..i + 1][..i] == b[..i];
  }

  /** `int32ToByte`: byte `i` is `(number & (0xFF << 8i)) >> 8i`, masked to eight bits. */
  method Int32ToByte(number: Int32) returns (buffer: array<Byte>)
    ensures fresh(buffer)
    ensures buffer[..] == BytesOfInt32(number)
  {
    buffer := new Byte[4](_ => 0);
    var u := number % TWO_TO_32;
    var i := 0;
    while i < 4
      invariant 0 <= i <= 4
      invariant forall k :: 0 <= k < i ==> buffer[k] == (u / Pow256(k)) % 256
    {
      buffer[i] := (u / Pow256(i)) % 256;
      i := i + 1;
    }
    assert Pow256(1) == 0x100 && Pow256(2) == 0x1_0000 && Pow256(3) == 0x100_0000;
  }

  /** `arrayCopyTo`: stores `source`, cut or padded with zeros to `length` bytes, at `dstOffset`. */
  method ArrayCopyTo(source: seq<Byte>, target: array<Byte>, dstOffset: nat, length: nat)
    requires dstOffset + length <= target.Length
    modifies target
    ensures target[..] == old(target[..dstOffset]) + Padded(source, length) + old(target[dstOffset + length..])
  {
    var i := 0;
    while i < length
      invariant 0 <= i <= length
      invariant forall k :: 0 <= k < target.Length ==>
                  target[k] == if dstOffset <= k < dstOffset + i then Padded(source, length)[k - dstOffset]
                               else old(target[k])
    {
      if i >= |source| {
        target[dstOffset + i] := 0;  // fill with zeros
      } else {
        target[dstOffset + i] := source[i];
      }
      i := i + 1;
    }
    assert target[..] == old(target[..dstOffset]) + Padded(source, length) + old(target[dstOffset + length..]);
  }

  /** `writeTo`, without the scrambling that follows: the 204 bytes of the header. */
  method WriteTo(h: C4GroupHeader) returns (completeHeader: array<Byte>)
    ensures fresh(completeHeader)
    ensures completeHeader[..] == EncodeHeader(h)
  {
    completeHeader := new Byte[STORED_SIZE](_ => 0);
    ghost var e := EncodeHeader(h);
    EncodedFields(h);
    assert completeHeader[..] == e[..0] + Zeros(STORED_SIZE);
    WriteField(Latin1Encode(h.id), completeHeader, 0, 24, e, 0);
    WriteField([1, 0, 0, 0], completeHeader, 28, 4, e, 24);
    WriteField([2, 0, 0, 0], completeHeader, 32, 4, e, 32);
    var entries := Int32ToByte(h.entries);
    WriteField(entries[..], completeHeader, 36, 4, e, 36);
    WriteField(Latin1Encode(h.maker), completeHeader, 40, 30, e, 40);
    WriteField(Latin1Encode(h.password), completeHeader, 72, 30, e, 70);
    var creation := Int32ToByte(h.creation);
    WriteField(creation[..], completeHeader, 104, 4, e, 102);
    var original := Int32ToByte(h.original);
    WriteField(original[..], completeHeader, 108, 4, e, 108);
    assert e[..112] + Zeros(STORED_SIZE - 112) == e;
  }

  /**
   * One `arrayCopyTo` of `writeTo`: with the buffer holding the encoded
   * header `e` up to `prev` and zeros after, and `e` holding zeros from
   * `prev` to `dstOffset` and the padded field after them, the buffer
   * afterwards holds `e` up to the end of the field and zeros after.
   */
  method WriteField(source: seq<Byte>, target: array<Byte>, dstOffset: nat, length: nat, ghost e: seq<Byte>, ghost prev: nat)
    requires |e| == target.Length && prev <= dstOffset && dstOffset + length <= target.Length
    requires target[..] == e[..prev] + Zeros(|e| - prev)
    requires e[prev..dstOffset] == Zeros(dstOffset - prev) && e[dstOffset..dstOffset + length] == Padded(source, length)
    modifies target
    ensures target[..] == e[..dstOffset + length] + Zeros(|e| - (dstOffset + length))
  {
    ArrayCopyTo(source, target, dstOffset, length);
    WrittenPrefix(e, prev, dstOffset, Padded(source, length));
  }


  /** Where each field of the encoded header lies. */
  lemma EncodedFields(h: C4GroupHeader)
    ensures var e := EncodeHeader(h);
            && e[0..24] == Padded(Latin1Encode(h.id), 24)
            && e[24..28] == Zeros(4)
            && e[28..32] == [1, 0, 0, 0]
            && e[32..36] == [2, 0, 0, 0]
            && e[36..40] == BytesOfInt32(h.entries)
            && e[40..70] == Padded(Latin1Encode(h.maker), 30)
            && e[70..72] == Zeros(2)
            && e[72..102] == Padded(Latin1Encode(h.password), 30)
            && e[102..104] == Zeros(2)
            && e[104..108] == BytesOfInt32(h.creation)
            && e[108..112] == BytesOfInt32(h.original)
            && e[112..] == Zeros(STORED_SIZE - 112)
  {
    var e := EncodeHeader(h);
    var a := EncodeIdentity(h);
    var o := EncodeOwner(h);
    IdentityFields(h);
    OwnerFields(h);
    assert e[..40] == a && e[40..112] == o && e[112..] == Zeros(STORED_SIZE - 112);
    assert e[0..24] == a[0..24] && e[24..28] == a[24..28] && e[28..32] == a[28..32];
    assert e[32..36] == a[32..36] && e[36..40] == a[36..40];
    assert e[40..70] == o[0..30] && e[70..72] == o[30..32] && e[72..102] == o[32..62];
    assert e[102..104] == o[62..64] && e[104..108] == o[64..68] && e[108..112] == o[68..72];
  }

  /** Where each field of the first 40 bytes lies. */
  lemma IdentityFields(h: C4GroupHeader)
    ensures var a := EncodeIdentity(h);
            && a[0..24] == Padded(Latin1Encode(h.id), 24)
            && a[24..28] == Zeros(4)
            && a[28..32] == [1, 0, 0, 0]
            && a[32..36] == [2, 0, 0, 0]
            && a[36..40] == BytesOfInt32(h.entries)
  {
    var p0 := Padded(Latin1Encode(h.id), 24);
    var p1 := p0 + Zeros(4);
    var p2 := p1 + [1, 0, 0, 0];
    var p3 := p2 + [2, 0, 0, 0];
    var a := EncodeIdentity(h);
    assert a == p3 + BytesOfInt32(h.entries);
    assert a[..36] == p3 && p3[..32] == p2 && p2[..28] == p1 && p1[..24] == p0;
    assert a[24..28] == p1[24..28];
    assert a[28..32] == p2[28..32];
    assert a[32..36] == p3[32..36];
  }

  /** Where each field of the 72 bytes after them lies. */
  lemma OwnerFields(h: C4GroupHeader)
    ensures var o := EncodeOwner(h);
            && o[0..30] == Padded(Latin1Encode(h.maker), 30)
            && o[30..32] == Zeros(2)
            && o[32..62] == Padded(Latin1Encode(h.password), 30)
            && o[62..64] == Zeros(2)
            && o[64..68] == BytesOfInt32(h.creation)
            && o[68..72] == BytesOfInt32(h.original)
  {
    var p0 := Padded(Latin1Encode(h.maker), 30);
    var p1 := p0 + Zeros(2);
    var p2 := p1 + Padded(Latin1Encode(h.password), 30);
    var p3 := p2 + Zeros(2);
    var p4 := p3 + BytesOfInt32(h.creation);
    var o := EncodeOwner(h);
    assert o == p4 + BytesOfInt32(h.original);
    assert o[..68] == p4 && p4[..64] == p3 && p3[..62] == p2 && p2[..32] == p1 && p1[..30] == p0;
    assert o[30..32] == p1[30..32];
    assert o[32..62] == p2[32..62];
    assert o[62..64] == p3[62..64];
    assert o[64..68] == p4[64..68];
  }

  /**
   * After `field` is copied at `dst` into a buffer holding the encoded
   * header up to `prev` and zeros after, the buffer holds the encoded
   * header up to the end of `field` and zeros after.
   */
  lemma WrittenPrefix(e: seq<Byte>, prev: nat, dst: nat, field: seq<Byte>)
    requires prev <= dst && dst + |field| <= |e|
    requires e[prev..dst] == Zeros(dst - prev) && e[dst..dst + |field|] == field
    ensures var t := e[..prev] + Zeros(|e| - prev);
            t[..dst] + field + t[dst + |field|..] == e[..dst + |field|] + Zeros(|e| - (dst + |field|))
  {
    var t := e[..prev] + Zeros(|e| - prev);
    var lhs := t[..dst] + field + t[dst + |field|..];
    var rhs := e[..dst + |field|] + Zeros(|e| - (dst + |field|));
    assert |lhs| == |rhs|;
    forall k | 0 <= k < |lhs| ensures lhs[k] == rhs[k] {
      if k < prev {
      } else if k < dst {
        assert e[prev..dst][k - prev] == 0;
      } else if k < dst + |field| {
        assert e[dst..dst + |field|][k - dst] == field[k - dst];
      }
    }
  }

  /** `createFromStream`, given the 204 bytes the stream delivered, already unscrambled. */
  method CreateFromStream(buffer: seq<Byte>) returns (r: Result<C4GroupHeader, C4GroupInvalidData>)
    requires |buffer| == STORED_SIZE
    ensures r == DecodeHeader(buffer)
  {
    var id := Trim(Latin1Decode(buffer[0..24]));
    if CompareTo(id, GROUP_ID) > 0 {
      return Failure(InvalidId);
    }
    var ver1 := ByteToInt32(buffer, 28);
    if ver1 != 1 {
      return Failure(InvalidVersion1);
    }
    var ver2 := ByteToInt32(buffer, 32);
    if ver2 < 1 {
      return Failure(InvalidVersion2);
    }
    var entries := ByteToInt32(buffer, 36);
    if entries > MAX_ENTRIES {
      return Failure(SuspiciousEntryCount);
    }
    var maker := Trim(Latin1Decode(buffer[40..70]));
    var password := Trim(Latin1Decode(buffer[72..102]));
    var creation := ByteToInt32(buffer, 104);
    var original := ByteToInt32(buffer, 108);
    return Success(C4GroupHeader(id, ver1, ver2, entries, maker, password, creation, original));
  }

  /** `byteToBoolean`. */
  function ByteToBoolean(buffer: seq<Byte>, offset: nat): bool
    requires offset < |buffer|
  {
    buffer[offset] == 1
  }

  /** `booleanToByte`. */
  function BooleanToByte(b: bool): (r: seq<Byte>)
    ensures |r| == 1 && ByteToBoolean(r, 0) == b
  {
    [if b then 1 else 0]
  }

  // ---------------------------------------------------------------------
  // Properties
  // ---------------------------------------------------------------------

  lemma WrapAdd(x: int, y: int)
    ensures Wrap32(Wrap32(x) + Wrap32(y)) == Wrap32(x + y)
  {
    var qx := (x - INT_MIN) / TWO_TO_32;
    var qy := (y - INT_MIN) / TWO_TO_32;
    assert Wrap32(x) == x - qx * TWO_TO_32;
    assert Wrap32(y) == y - qy * TWO_TO_32;
    WrapShift(x + y, qx + qy);
  }

  /** Wrapping forgets multiples of 2^32. */
  lemma WrapShift(z: int, k: int)
    ensures Wrap32(z - k * TWO_TO_32) == Wrap32(z)
  {
    var q := (z - INT_MIN) / TWO_TO_32;
    var m := (z - INT_MIN) % TWO_TO_32;
    assert z - k * TWO_TO_32 - INT_MIN == (q - k) * TWO_TO_32 + m;
  }

  /** An unsigned 32-bit value is the sum of its four bytes shifted into place. */
  lemma BytesOfUnsigned(u: int)
    requires 0 <= u < TWO_TO_32
    ensures u == u % 256 + 0x100 * ((u / 0x100) % 256) + 0x1_0000 * ((u / 0x1_0000) % 256)
                 + 0x100_0000 * ((u / 0x100_0000) % 256)
  {
    var q1 := u / 0x100;
    var q2 := q1 / 0x100;
    var q3 := q2 / 0x100;
    assert u == u % 256 + 0x100 * q1;
    assert q1 == q1 % 256 + 0x100 * q2;
    assert q2 == q2 % 256 + 0x100 * q3;
    assert q2 == u / 0x1_0000;
    assert q3 == u / 0x100_0000;
    assert q3 < 256;
  }

  /** `byteToInt32` inverts `int32ToByte`. */
  lemma Int32RoundTrip(n: Int32)
    ensures Int32FromBytes(BytesOfInt32(n)) == n
  {
    var b := BytesOfInt32(n);
    var u := n % TWO_TO_32;
    BytesOfUnsigned(u);
    UnsignedLEOfFour(b);
    assert UnsignedLE(b) == u;
    WrapShift(n, n / TWO_TO_32);
    assert n - n / TWO_TO_32 * TWO_TO_32 == u;
  }

  /** The little-endian value of four bytes. */
  lemma UnsignedLEOfFour(b: seq<Byte>)
    requires |b| == 4
    ensures UnsignedLE(b) == (b[0] as int) + 0x100 * (b[1] as int) + 0x1_0000 * (b[2] as int) + 0x100_0000 * (b[3] as int)
  {
    assert Pow256(1) == 0x100 && Pow256(2) == 0x1_0000 && Pow256(3) == 0x100_0000;
    assert UnsignedLE(b[..1]) == b[0] as int by { assert b[..1][..0] == []; }
    assert UnsignedLE(b[..2]) == (b[0] as int) + 0x100 * (b[1] as int) by { assert b[..2][..1] == b[..1]; }
    assert UnsignedLE(b[..3]) == (b[0] as int) + 0x100 * (b[1] as int) + 0x1_0000 * (b[2] as int) by { assert b[..3][..2] == b[..2]; }
    assert b[..4] == b;
  }

  /** ISO-8859-1 decoding inverts encoding on Latin-1 text. */
  lemma Latin1RoundTrip(s: string)
    requires IsLatin1(s)
    ensures Latin1Decode(Latin1Encode(s)) == s
  {
  }

  /**
   * What `createHeader` makes and `writeTo` writes, `createFromStream`
   * reads back, provided the entry count passes the reader's check and the
   * maker fits its 30 bytes as Latin-1 text without surrounding spaces.
   */
  lemma HeaderRoundTrip(entryCount: Int32, maker: string)
    requires entryCount <= MAX_ENTRIES
    requires |maker| <= 30 && IsLatin1(maker) && IsTrimmed(maker)
    ensures DecodeHeader(EncodeHeader(CreateHeader(entryCount, maker))) == Success(CreateHeader(entryCount, maker))
  {
    var h := CreateHeader(entryCount, maker);
    EncodedFields(h);
    WrittenVersionsAreConstant(h);
    CreatedHeaderFields(EncodeHeader(h), entryCount, maker);
  }

  /** The decoding half of `HeaderRoundTrip`, on bytes laid out as `writeTo` lays them out. */
  lemma CreatedHeaderFields(b: seq<Byte>, entryCount: Int32, maker: string)
    requires |b| == STORED_SIZE
    requires entryCount <= MAX_ENTRIES
    requires |maker| <= 30 && IsLatin1(maker) && IsTrimmed(maker)
    requires b[0..24] == Padded(Latin1Encode(GROUP_ID), 24)
    requires Int32FromBytes(b[28..32]) == 1 && Int32FromBytes(b[32..36]) == 2
    requires b[36..40] == BytesOfInt32(entryCount)
    requires b[40..70] == Padded(Latin1Encode(maker), 30)
    requires b[72..102] == Padded(Latin1Encode(""), 30)
    requires b[104..108] == BytesOfInt32(DEFAULT_CREATION)
    requires b[108..112] == BytesOfInt32(0)
    ensures DecodeHeader(b) == Success(CreateHeader(entryCount, maker))
  {
    GroupIdShape();
    CreatedStringFields(b, GROUP_ID, maker, "");
    CreatedNumberFields(b, entryCount);
    DecodeFields(b, CreateHeader(entryCount, maker));
  }

  /** The id, maker and password fields of a created header read back as written. */
  lemma CreatedStringFields(b: seq<Byte>, id: string, maker: string, password: string)
    requires |b| == STORED_SIZE
    requires |id| <= 24 && IsLatin1(id) && IsTrimmed(id)
    requires |maker| <= 30 && IsLatin1(maker) && IsTrimmed(maker)
    requires |password| <= 30 && IsLatin1(password) && IsTrimmed(password)
    requires b[0..24] == Padded(Latin1Encode(id), 24)
    requires b[40..70] == Padded(Latin1Encode(maker), 30)
    requires b[72..102] == Padded(Latin1Encode(password), 30)
    ensures Trim(Latin1Decode(b[0..24])) == id
    ensures Trim(Latin1Decode(b[40..70])) == maker
    ensures Trim(Latin1Decode(b[72..102])) == password
  {
    StringFieldRoundTrip(b, 0, 24, id);
    StringFieldRoundTrip(b, 40, 30, maker);
    StringFieldRoundTrip(b, 72, 30, password);
  }

  /** The entry count and time stamps of a created header read back as written. */
  lemma CreatedNumberFields(b: seq<Byte>, entryCount: Int32)
    requires |b| == STORED_SIZE
    requires b[36..40] == BytesOfInt32(entryCount)
    requires b[104..108] == BytesOfInt32(DEFAULT_CREATION)
    requires b[108..112] == BytesOfInt32(0)
    ensures Int32FromBytes(b[36..40]) == entryCount
    ensures Int32FromBytes(b[104..108]) == DEFAULT_CREATION
    ensures Int32FromBytes(b[108..112]) == 0
  {
    Int32RoundTrip(entryCount);
    Int32RoundTrip(DEFAULT_CREATION);
    Int32RoundTrip(0);
  }

  /** The magic id is 24 Latin-1 characters without surrounding spaces. */
  lemma GroupIdShape()
    ensures |GROUP_ID| == 24 && IsLatin1(GROUP_ID) && IsTrimmed(GROUP_ID)
    ensures CompareTo(GROUP_ID, GROUP_ID) == 0
  {
  }

  /** The fields of `h` are those `createFromStream` reads from `b`, and they pass its checks. */
  ghost predicate ReadsAs(b: seq<Byte>, h: C4GroupHeader)
    requires |b| == STORED_SIZE
  {
    && Int32FromBytes(b[28..32]) == h.ver1 == 1
    && Int32FromBytes(b[32..36]) == h.ver2 && h.ver2 >= 1
    && Int32FromBytes(b[36..40]) == h.entries && h.entries <= MAX_ENTRIES
    && Int32FromBytes(b[104..108]) == h.creation
    && Int32FromBytes(b[108..112]) == h.original
    && Trim(Latin1Decode(b[0..24])) == h.id && CompareTo(h.id, GROUP_ID) <= 0
    && Trim(Latin1Decode(b[40..70])) == h.maker
    && Trim(Latin1Decode(b[72..102])) == h.password
  }

  /** `createFromStream` accepts bytes whose fields decode to a header that passes its checks. */
  lemma DecodeFields(b: seq<Byte>, h: C4GroupHeader)
    requires |b| == STORED_SIZE && ReadsAs(b, h)
    ensures DecodeHeader(b) == Success(h)
  {
    DecodeSucceeds(b, h);
    DecodedValue(b);
    var v := C4GroupHeader(Trim(Latin1Decode(b[0..24])), Int32FromBytes(b[28..32]),
                           Int32FromBytes(b[32..36]), Int32FromBytes(b[36..40]),
                           Trim(Latin1Decode(b[40..70])), Trim(Latin1Decode(b[72..102])),
                           Int32FromBytes(b[104..108]), Int32FromBytes(b[108..112]));
    assert v == h;
  }

  /** A successful decoding holds the fields read from their places. */
  lemma DecodedValue(b: seq<Byte>)
    requires |b| == STORED_SIZE
    ensures DecodeHeader(b).Success? ==>
      DecodeHeader(b).value == C4GroupHeader(Trim(Latin1Decode(b[0..24])), Int32FromBytes(b[28..32]),
                                             Int32FromBytes(b[32..36]), Int32FromBytes(b[36..40]),
                                             Trim(Latin1Decode(b[40..70])), Trim(Latin1Decode(b[72..102])),
                                             Int32FromBytes(b[104..108]), Int32FromBytes(b[108..112]))
  {
  }

  /** Bytes whose id, versions and entry count pass the checks decode successfully. */
  lemma DecodeSucceeds(b: seq<Byte>, h: C4GroupHeader)
    requires |b| == STORED_SIZE
    requires Trim(Latin1Decode(b[0..24])) == h.id && CompareTo(h.id, GROUP_ID) <= 0
    requires Int32FromBytes(b[28..32]) == h.ver1 == 1
    requires Int32FromBytes(b[32..36]) == h.ver2 && h.ver2 >= 1
    requires Int32FromBytes(b[36..40]) == h.entries && h.entries <= MAX_ENTRIES
    ensures DecodeHeader(b).Success?
  {
  }

  /** A string field written with `arrayCopyTo` and read with `byteToString(..).trim()`. */
  lemma StringFieldRoundTrip(b: seq<Byte>, offset: nat, length: nat, s: string)
    requires offset + length <= |b|
    requires b[offset..offset + length] == Padded(Latin1Encode(s), length)
    requires |s| <= length && IsLatin1(s) && IsTrimmed(s)
    ensures Trim(Latin1Decode(b[offset..offset + length])) == s
  {
    var text := Latin1Decode(b[offset..offset + length]);
    var pad := text[|s|..];
    assert text == s + pad;
    TrimPadded(s, pad);
  }

  /**
   * `writeTo` ignores the header's version fields: whatever they hold,
   * the bytes read back announce versions 1 and 2.
   */
  lemma WrittenVersionsAreConstant(h: C4GroupHeader)
    ensures Int32FromBytes(EncodeHeader(h)[28..32]) == 1
    ensures Int32FromBytes(EncodeHeader(h)[32..36]) == 2
  {
    EncodedFields(h);
    assert [1, 0, 0, 0] == BytesOfInt32(1);
    assert [2, 0, 0, 0] == BytesOfInt32(2);
    Int32RoundTrip(1);
    Int32RoundTrip(2);
  }
}
