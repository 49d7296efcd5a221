/** Canonical big-endian bytes: the writer and the bounds-checked reader of src/bytes.cpp. */
module CanonicalBytes {
  import opened Errors

  type Byte = x: int | 0 <= x < 256
  type Bytes = seq<Byte>
  type U16 = x: int | 0 <= x < 0x1_0000
  type U32 = x: int | 0 <= x < 0x1_0000_0000
  type U64 = x: int | 0 <= x < 0x1_0000_0000_0000_0000
  type I64 = x: int | -0x8000_0000_0000_0000 <= x < 0x8000_0000_0000_0000

  const I64_MIN: I64 := -0x8000_0000_0000_0000

  const DIGEST_BYTES: nat := 32
  const ID_BYTES: nat := 16
  type Digest = b: Bytes | |b| == DIGEST_BYTES witness seq(DIGEST_BYTES, _ => 0)
  type Id = b: Bytes | |b| == ID_BYTES witness seq(ID_BYTES, _ => 0)

  const ZERO_DIGEST: Digest := BigEndian(DIGEST_BYTES, 0)
  const NIL_ID: Id := BigEndian(ID_BYTES, 0)

  /** Two different inputs with the same output. */
  ghost predicate Collision(f: Bytes -> Digest, x: Bytes, y: Bytes) {
    x != y && f(x) == f(y)
  }

  // ---------------------------------------------------------------------------
  // Fixed-width big-endian numbers
  // ---------------------------------------------------------------------------

  /** The low n bytes of v, most significant first; higher bytes are cut off. */
  function BigEndian(n: nat, v: nat): (b: Bytes)
    ensures |b| == n
  {
    if n == 0 then [] else BigEndian(n - 1, v / 256) + [v % 256]
  }

  function ValueOf(b: Bytes): nat {
    if b == [] then 0 else ValueOf(b[..|b| - 1]) * 256 + b[|b| - 1]
  }

  function Pow256(n: nat): (p: nat)
    ensures p > 0
  {
    if n == 0 then 1 else 256 * Pow256(n - 1)
  }

  lemma PowersOf256()
    ensures Pow256(2) == 0x1_0000
    ensures Pow256(4) == 0x1_0000_0000
    ensures Pow256(8) == 0x1_0000_0000_0000_0000
  {
    assert Pow256(3) == 0x100_0000;
    assert Pow256(4) == 0x1_0000_0000;
    assert Pow256(6) == 0x1_0000_0000_0000;
  }

  lemma {:induction false} ValueOfBound(b: Bytes)
    ensures ValueOf(b) < Pow256(|b|)
  {
    if b != [] {
      ValueOfBound(b[..|b| - 1]);
    }
  }

  lemma {:induction false} ValueOfBigEndian(n: nat, v: nat)
    requires v < Pow256(n)
    ensures ValueOf(BigEndian(n, v)) == v
  {
    if n > 0 {
      ValueOfBigEndian(n - 1, v / 256);
      assert BigEndian(n, v)[..n - 1] == BigEndian(n - 1, v / 256);
    }
  }

  lemma {:induction false} BigEndianOfValue(b: Bytes)
    ensures BigEndian(|b|, ValueOf(b)) == b
  {
    if b != [] {
      BigEndianOfValue(b[..|b| - 1]);
      assert b == b[..|b| - 1] + [b[|b| - 1]];
    }
  }

  /** Byte i of an n-byte number is the value shifted right by the bytes behind it. */
  lemma {:induction false} BigEndianAt(n: nat, v: nat, i: nat)
    requires i < n
    ensures BigEndian(n, v)[i] == (v / Pow256(n - 1 - i)) % 256
  {
    if i < n - 1 {
      BigEndianAt(n - 1, v / 256, i);
      DivDiv(v, Pow256(n - 2 - i));
    }
  }

  lemma DivDiv(v: nat, p: nat)
    requires p > 0
    ensures (v / 256) / p == v / (256 * p)
  {
    var q := v / 256;
    var r := v % 256;
    var a := q / p;
    var s := q % p;
    assert q == a * p + s;
    assert v == 256 * (a * p + s) + r;
    assert v == (256 * p) * a + (256 * s + r);
    assert 0 <= 256 * s + r < 256 * p;
    DivUnique(v, 256 * p, a, 256 * s + r);
  }

  lemma DivUnique(v: nat, d: nat, q: nat, r: nat)
    requires d > 0
    requires v == d * q + r
    requires r < d
    ensures v / d == q
  {
    var q' := v / d;
    assert v == d * q' + v % d;
    assert d * (q' - q) == r - v % d;
    SmallMultiple(d, q' - q);
  }

  lemma SmallMultiple(d: int, k: int)
    requires 0 < d && -d < d * k < d
    ensures k == 0
  {
  }

  // Two's complement, as static_cast between int64 and uint64.
  function ToUnsigned(v: I64): U64 {
    if v < 0 then v + 0x1_0000_0000_0000_0000 else v
  }

  function ToSigned(v: U64): I64 {
    if v < 0x8000_0000_0000_0000 then v else v - 0x1_0000_0000_0000_0000
  }

  // ---------------------------------------------------------------------------
  // Encodings of single fields
  // ---------------------------------------------------------------------------

  function EncBool(v: bool): Bytes { if v then [1] else [0] }
  function EncU16(v: U16): Bytes { BigEndian(2, v) }
  function EncU32(v: U32): Bytes { BigEndian(4, v) }
  function EncU64(v: U64): Bytes { BigEndian(8, v) }
  function EncI64(v: I64): Bytes { EncU64(ToUnsigned(v)) }

  // The length is cast to 32 bits, so only texts shorter than 2^32 read back.
  function EncStr(s: Bytes): Bytes { BigEndian(4, |s|) + s }

  // ---------------------------------------------------------------------------
  // Decodings of single fields from the front of the remaining bytes
  // ---------------------------------------------------------------------------

  /** What a read leaves behind: the value and the bytes after it, or the error. */
  datatype Parse<+T> = Parsed(value: T, rest: Bytes) | Malformed(error: ErrorCode) {
    predicate IsFailure() {
      Malformed?
    }

    function PropagateFailure<U>(): Parse<U>
      requires Malformed?
    {
      Malformed(error)
    }

    function Extract(): (T, Bytes)
      requires Parsed?
    {
      (value, rest)
    }
  }

  function DecRaw(n: nat, b: Bytes): (p: Parse<Bytes>)
    ensures p.Parsed? ==> |p.value| == n && b == p.value + p.rest
  {
    if |b| < n then Malformed(ProtocolViolation) else Parsed(b[..n], b[n..])
  }

  function DecU8(b: Bytes): Parse<Byte> {
    if |b| < 1 then Malformed(ProtocolViolation) else Parsed(b[0], b[1..])
  }

  function DecBool(b: Bytes): Parse<bool> {
    var (v, r) :- DecU8(b);
    if v > 1 then Malformed(ProtocolViolation) else Parsed(v == 1, r)
  }

  function DecU16(b: Bytes): Parse<U16> {
    var (v, r) :- DecRaw(2, b);
    ValueOfBound(v); PowersOf256();
    Parsed(ValueOf(v), r)
  }

  function DecU32(b: Bytes): Parse<U32> {
    var (v, r) :- DecRaw(4, b);
    ValueOfBound(v); PowersOf256();
    Parsed(ValueOf(v), r)
  }

  function DecU64(b: Bytes): Parse<U64> {
    var (v, r) :- DecRaw(8, b);
    ValueOfBound(v); PowersOf256();
    Parsed(ValueOf(v), r)
  }

  function DecI64(b: Bytes): Parse<I64> {
    var (v, r) :- DecU64(b);
    Parsed(ToSigned(v), r)
  }

  function DecStr(b: Bytes): Parse<Bytes> {
    var (n, r) :- DecU32(b);
    DecRaw(n, r)
  }

  function DecId(b: Bytes): Parse<Id> {
    var (v, r) :- DecRaw(ID_BYTES, b);
    Parsed(v, r)
  }

  function DecDigest(b: Bytes): Parse<Digest> {
    var (v, r) :- DecRaw(DIGEST_BYTES, b);
    Parsed(v, r)
  }

  // ---------------------------------------------------------------------------
  // Every field reads back from the front of any byte string it starts
  // ---------------------------------------------------------------------------

  lemma RawRoundTrip(v: Bytes, r: Bytes)
    ensures DecRaw(|v|, v + r) == Parsed(v, r)
  {
    assert (v + r)[..|v|] == v;
    assert (v + r)[|v|..] == r;
  }

  lemma BoolRoundTrip(v: bool, r: Bytes)
    ensures DecBool(EncBool(v) + r) == Parsed(v, r)
  {
    assert (EncBool(v) + r)[1..] == r;
  }

  lemma U8RoundTrip(v: Byte, r: Bytes)
    ensures DecU8([v] + r) == Parsed(v, r)
  {
    assert ([v] + r)[1..] == r;
  }

  lemma U16RoundTrip(v: U16, r: Bytes)
    ensures DecU16(EncU16(v) + r) == Parsed(v, r)
  {
    PowersOf256();
    RawRoundTrip(EncU16(v), r);
    ValueOfBigEndian(2, v);
  }

  lemma U32RoundTrip(v: U32, r: Bytes)
    ensures DecU32(EncU32(v) + r) == Parsed(v, r)
  {
    PowersOf256();
    RawRoundTrip(EncU32(v), r);
    ValueOfBigEndian(4, v);
  }

  lemma U64RoundTrip(v: U64, r: Bytes)
    ensures DecU64(EncU64(v) + r) == Parsed(v, r)
  {
    PowersOf256();
    RawRoundTrip(EncU64(v), r);
    ValueOfBigEndian(8, v);
  }

  lemma I64RoundTrip(v: I64, r: Bytes)
    ensures DecI64(EncI64(v) + r) == Parsed(v, r)
  {
    U64RoundTrip(ToUnsigned(v), r);
  }

  lemma StrRoundTrip(s: Bytes, r: Bytes)
    requires |s| < 0x1_0000_0000
    ensures DecStr(EncStr(s) + r) == Parsed(s, r)
  {
    assert EncStr(s) + r == EncU32(|s|) + (s + r);
    U32RoundTrip(|s|, s + r);
    RawRoundTrip(s, r);
  }

  lemma IdRoundTrip(v: Id, r: Bytes)
    ensures DecId(v + r) == Parsed(v, r)
  {
    RawRoundTrip(v, r);
  }

  lemma DigestRoundTrip(v: Digest, r: Bytes)
    ensures DecDigest(v + r) == Parsed(v, r)
  {
    RawRoundTrip(v, r);
  }

  // ---------------------------------------------------------------------------
  // Nothing else reads: what a number was read from is its encoding
  // ---------------------------------------------------------------------------

  lemma U32Consumed(b: Bytes)
    requires DecU32(b).Parsed?
    ensures b == EncU32(DecU32(b).value) + DecU32(b).rest
  {
    BigEndianOfValue(b[..4]);
  }

  lemma U64Consumed(b: Bytes)
    requires DecU64(b).Parsed?
    ensures b == EncU64(DecU64(b).value) + DecU64(b).rest
  {
    BigEndianOfValue(b[..8]);
  }

  lemma I64Consumed(b: Bytes)
    requires DecI64(b).Parsed?
    ensures b == EncI64(DecI64(b).value) + DecI64(b).rest
  {
    U64Consumed(b);
  }

  lemma Assoc(a: Bytes, b: Bytes, c: Bytes)
    ensures (a + b) + c == a + (b + c)
  {
  }

  // ---------------------------------------------------------------------------
  // The writer
  // ---------------------------------------------------------------------------

  class ByteWriter {
    var data: Bytes

    constructor ()
      ensures data == []
    {
      data := [];
    }

    method U8(v: Byte)
      modifies this
      ensures data == old(data) + [v]
    {
      data := data + [v];
    }

    method Boolean(v: bool)
      modifies this
      ensures data == old(data) + EncBool(v)
    {
      data := data + [if v then 1 else 0];
    }

    // put_u16_bytes, put_u32_bytes and put_u64_bytes: one byte per shift.
    method Fixed(n: nat, v: nat)
      modifies this
      ensures data == old(data) + BigEndian(n, v)
    {
      var buffer: Bytes := [];
      for i := 0 to n
        invariant |buffer| == i
        invariant forall j :: 0 <= j < i ==> buffer[j] == BigEndian(n, v)[j]
        invariant data == old(data)
      {
        BigEndianAt(n, v, i);
        buffer := buffer + [(v / Pow256(n - 1 - i)) % 256];
      }
      assert buffer == BigEndian(n, v);
      data := data + buffer;
    }

    method U16(v: U16)
      modifies this
      ensures data == old(data) + EncU16(v)
    {
      Fixed(2, v);
    }

    method U32(v: U32)
      modifies this
      ensures data == old(data) + EncU32(v)
    {
      Fixed(4, v);
    }

    method U64(v: U64)
      modifies this
      ensures data == old(data) + EncU64(v)
    {
      Fixed(8, v);
    }

    method I64(v: I64)
      modifies this
      ensures data == old(data) + EncI64(v)
    {
      U64(ToUnsigned(v));
    }

    method Raw(v: Bytes)
      modifies this
      ensures data == old(data) + v
    {
      data := data + v;
    }

    method Str(s: Bytes)
      modifies this
      ensures data == old(data) + EncStr(s)
    {
      Fixed(4, |s|);
      data := data + s;
      Assoc(old(data), BigEndian(4, |s|), s);
    }
  }

  // ---------------------------------------------------------------------------
  // The reader
  // ---------------------------------------------------------------------------

  class ByteReader {
    const data: Bytes
    var offset: nat

    ghost predicate Valid()
      reads this
    {
      offset <= |data|
    }

    /** The bytes not read yet. */
    function Rest(): Bytes
      reads this
      requires Valid()
    {
      data[offset..]
    }

    /** A read behaved as the decoder p says: same value, same bytes left, same error. */
    ghost predicate Reads<T>(r: Result<T>, p: Parse<T>)
      reads this
    {
      && Valid()
      && match p
         case Parsed(v, rest) => r == Ok(v) && Rest() == rest
         case Malformed(e) => r == Err(e)
    }

    constructor (data: Bytes)
      ensures Valid() && this.data == data && offset == 0 && Rest() == data
    {
      this.data := data;
      offset := 0;
    }

    method U8() returns (r: Result<Byte>)
      requires Valid()
      modifies this
      ensures Reads(r, DecU8(old(Rest())))
    {
      if |data| - offset < 1 {
        return Err(ProtocolViolation);
      }
      r := Ok(data[offset]);
      offset := offset + 1;
    }

    method Boolean() returns (r: Result<bool>)
      requires Valid()
      modifies this
      ensures Reads(r, DecBool(old(Rest())))
    {
      var raw :- U8();
      if raw > 1 {
        return Err(ProtocolViolation);
      }
      r := Ok(raw == 1);
    }

    // The accumulation loop shared by u16, u32 and u64.
    method Fixed(n: nat) returns (r: Result<nat>)
      requires Valid()
      modifies this
      ensures Valid()
      ensures |old(Rest())| < n ==> r == Err(ProtocolViolation)
      ensures |old(Rest())| >= n ==>
        r == Ok(ValueOf(old(Rest())[..n])) && Rest() == old(Rest())[n..]
    {
      if n > |data| - offset {
        return Err(ProtocolViolation);
      }
      var value: nat := 0;
      for i := 0 to n
        invariant offset == old(offset)
        invariant value == ValueOf(data[offset..][..i])
      {
        var part := data[offset..][..i + 1];
        assert part[..i] == data[offset..][..i];
        value := value * 256 + data[offset + i];
      }
      offset := offset + n;
      r := Ok(value);
    }

    method U16() returns (r: Result<U16>)
      requires Valid()
      modifies this
      ensures Reads(r, DecU16(old(Rest())))
    {
      var v :- Fixed(2);
      ValueOfBound(old(Rest())[..2]);
      PowersOf256();
      r := Ok(v);
    }

    method U32() returns (r: Result<U32>)
      requires Valid()
      modifies this
      ensures Reads(r, DecU32(old(Rest())))
    {
      var v :- Fixed(4);
      ValueOfBound(old(Rest())[..4]);
      PowersOf256();
      r := Ok(v);
    }

    method U64() returns (r: Result<U64>)
      requires Valid()
      modifies this
      ensures Reads(r, DecU64(old(Rest())))
    {
      var v :- Fixed(8);
      ValueOfBound(old(Rest())[..8]);
      PowersOf256();
      r := Ok(v);
    }

    method I64() returns (r: Result<I64>)
      requires Valid()
      modifies this
      ensures Reads(r, DecI64(old(Rest())))
    {
      var v :- U64();
      r := Ok(ToSigned(v));
    }

    method Raw(n: nat) returns (r: Result<Bytes>)
      requires Valid()
      modifies this
      ensures Reads(r, DecRaw(n, old(Rest())))
    {
      if n > |data| - offset {
        return Err(ProtocolViolation);
      }
      r := Ok(data[offset..offset + n]);
      offset := offset + n;
      assert old(Rest())[..n] == r.value;
    }

    method Str() returns (r: Result<Bytes>)
      requires Valid()
      modifies this
      ensures Reads(r, DecStr(old(Rest())))
    {
      var n :- U32();
      r := Raw(n);
    }

    method ReadId() returns (r: Result<Id>)
      requires Valid()
      modifies this
      ensures Reads(r, DecId(old(Rest())))
    {
      var v :- Raw(ID_BYTES);
      r := Ok(v);
    }

    method ReadDigest() returns (r: Result<Digest>)
      requires Valid()
      modifies this
      ensures Reads(r, DecDigest(old(Rest())))
    {
      var v :- Raw(DIGEST_BYTES);
      r := Ok(v);
    }
  }
}
