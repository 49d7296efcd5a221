/** SHA-256: the one-shot definition of FIPS 180-4 and the streaming hasher of src/hash.cpp. */
module Sha256 {
  import opened CanonicalBytes

  const BLOCK_BYTES: nat := 64

  type State = s: seq<bv32> | |s| == 8 witness seq(8, _ => 0)
  type Block = b: Bytes | |b| == BLOCK_BYTES witness seq(BLOCK_BYTES, _ => 0)

  // ---------------------------------------------------------------------------
  // The one-shot definition (FIPS 180-4, sections 4.1.2, 5.1.1, 5.3.3 and 6.2)
  // ---------------------------------------------------------------------------

  function Rotr(x: bv32, n: nat): bv32
    requires 0 < n < 32
  {
    (x >> n) | (x << (32 - n))
  }

  function Xor3(x: bv32, y: bv32, z: bv32): bv32 { x ^ y ^ z }
  function BigSigma0(x: bv32): bv32 { Xor3(Rotr(x, 2), Rotr(x, 13), Rotr(x, 22)) }
  function BigSigma1(x: bv32): bv32 { Xor3(Rotr(x, 6), Rotr(x, 11), Rotr(x, 25)) }
  function SmallSigma0(x: bv32): bv32 { Xor3(Rotr(x, 7), Rotr(x, 18), x >> 3) }
  function SmallSigma1(x: bv32): bv32 { Xor3(Rotr(x, 17), Rotr(x, 19), x >> 10) }
  function Ch(x: bv32, y: bv32, z: bv32): bv32 { (x & y) ^ ((!x) & z) }
  function Maj(x: bv32, y: bv32, z: bv32): bv32 { (x & y) ^ (x & z) ^ (y & z) }
  function Sum(x: bv32, y: bv32): bv32 { x + y }

  function Widen(b: Byte): bv32 { (b as bv8) as bv32 }

  function WordAt(block: Block, t: nat): bv32
    requires t < 16
  {
    (Widen(block[4 * t]) << 24) | (Widen(block[4 * t + 1]) << 16) |
    (Widen(block[4 * t + 2]) << 8) | Widen(block[4 * t + 3])
  }

  // Section 6.2.2 lists the four terms of the sum modulo 2^32 in the opposite order.
  function Schedule(block: Block, t: nat): bv32 {
    if t < 16 then
      WordAt(block, t)
    else
      Sum(Sum(Sum(Schedule(block, t - 16), SmallSigma0(Schedule(block, t - 15))),
              Schedule(block, t - 7)),
          SmallSigma1(Schedule(block, t - 2)))
  }

  datatype Working = Working(a: bv32, b: bv32, c: bv32, d: bv32, e: bv32, f: bv32, g: bv32, h: bv32)

  function Round(v: Working, k: bv32, w: bv32): Working {
    var t1 := Sum(Sum(Sum(Sum(v.h, BigSigma1(v.e)), Ch(v.e, v.f, v.g)), k), w);
    var t2 := Sum(BigSigma0(v.a), Maj(v.a, v.b, v.c));
    Working(Sum(t1, t2), v.a, v.b, v.c, Sum(v.d, t1), v.e, v.f, v.g)
  }

  function Rounds(s: State, block: Block, t: nat): Working
    requires t <= 64
  {
    if t == 0 then
      Working(s[0], s[1], s[2], s[3], s[4], s[5], s[6], s[7])
    else
      Round(Rounds(s, block, t - 1), RoundConstant(t - 1), Schedule(block, t - 1))
  }

  function Compressed(s: State, block: Block): State {
    var v := Rounds(s, block, 64);
    [Sum(s[0], v.a), Sum(s[1], v.b), Sum(s[2], v.c), Sum(s[3], v.d),
     Sum(s[4], v.e), Sum(s[5], v.f), Sum(s[6], v.g), Sum(s[7], v.h)]
  }

  /** The hash value after all the blocks of m, from the initial hash value. */
  function Absorbed(m: Bytes): State
    requires |m| % BLOCK_BYTES == 0
  {
    if m == [] then
      InitialState()
    else
      Compressed(Absorbed(m[..|m| - BLOCK_BYTES]), m[|m| - BLOCK_BYTES..])
  }

  /** Number k of zero bytes with |m| + 1 + k = 56 modulo 64. */
  function ZeroCount(n: nat): (k: nat)
    ensures k < BLOCK_BYTES && (n + 1 + k) % BLOCK_BYTES == 56
    ensures (n + 1 + k + 8) % BLOCK_BYTES == 0
  {
    (119 - n % BLOCK_BYTES) % BLOCK_BYTES
  }

  function Zeros(k: nat): Bytes { seq(k, _ => 0) }

  function Padded(m: Bytes): (p: Bytes)
    ensures |p| % BLOCK_BYTES == 0
  {
    hide ZeroCount;
    m + [0x80] + Zeros(ZeroCount(|m|)) + BigEndian(8, 8 * |m|)
  }

  function WordBytes(w: bv32): (b: Bytes)
    ensures |b| == 4
  {
    var b3, b2 := ((w >> 24) & 0xff) as bv8, ((w >> 16) & 0xff) as bv8;
    var b1, b0 := ((w >> 8) & 0xff) as bv8, (w & 0xff) as bv8;
    [b3 as int, b2 as int, b1 as int, b0 as int]
  }

  function StateBytes(s: seq<bv32>): (b: Bytes)
    ensures |b| == 4 * |s|
  {
    if s == [] then [] else StateBytes(s[..|s| - 1]) + WordBytes(s[|s| - 1])
  }

  function Hash(m: Bytes): Digest {
    StateBytes(Absorbed(Padded(m)))
  }

  function InitialState(): State {
    [0x6a09e667, 0xbb67ae85, 0x3c6ef372, 0xa54ff53a, 0x510e527f, 0x9b05688c, 0x1f83d9ab, 0x5be0cd19]
  }

  // The table, in rows of eight.
  function RoundConstant(t: nat): bv32
    requires t < 64
  {
    [[0x428a2f98, 0x71374491, 0xb5c0fbcf, 0xe9b5dba5, 0x3956c25b, 0x59f111f1, 0x923f82a4, 0xab1c5ed5],
     [0xd807aa98, 0x12835b01, 0x243185be, 0x550c7dc3, 0x72be5d74, 0x80deb1fe, 0x9bdc06a7, 0xc19bf174],
     [0xe49b69c1, 0xefbe4786, 0x0fc19dc6, 0x240ca1cc, 0x2de92c6f, 0x4a7484aa, 0x5cb0a9dc, 0x76f988da],
     [0x983e5152, 0xa831c66d, 0xb00327c8, 0xbf597fc7, 0xc6e00bf3, 0xd5a79147, 0x06ca6351, 0x14292967],
     [0x27b70a85, 0x2e1b2138, 0x4d2c6dfc, 0x53380d13, 0x650a7354, 0x766a0abb, 0x81c2c92e, 0x92722c85],
     [0xa2bfe8a1, 0xa81a664b, 0xc24b8b70, 0xc76c51a3, 0xd192e819, 0xd6990624, 0xf40e3585, 0x106aa070],
     [0x19a4c116, 0x1e376c08, 0x2748774c, 0x34b0bcb5, 0x391c0cb3, 0x4ed8aa4a, 0x5b9cca4f, 0x682e6ff3],
     [0x748f82ee, 0x78a5636f, 0x84c87814, 0x8cc70208, 0x90befffa, 0xa4506ceb, 0xbef9a3f7, 0xc67178f2]][t / 8][t % 8]
  }

  // ---------------------------------------------------------------------------
  // The streaming hasher
  // ---------------------------------------------------------------------------

  /** Appending one block compresses once more. */
  lemma AbsorbBlock(m: Bytes, block: Block)
    requires |m| % BLOCK_BYTES == 0
    ensures Absorbed(m + block) == Compressed(Absorbed(m), block)
  {
    hide Compressed;
    assert (m + block)[..|m|] == m;
    assert (m + block)[|m|..] == block;
  }

  class Hasher {
    var state: State
    const buffer: array<Byte>
    var buffered: nat
    var totalBytes: U64
    ghost var message: Bytes // every byte hashed since the last reset

    /** Whole blocks are in the state, the rest is in the buffer. */
    ghost predicate Valid()
      reads this, buffer
    {
      && buffer.Length == BLOCK_BYTES
      && buffered < BLOCK_BYTES
      && Holds(message, buffered)
      && totalBytes == |message| % 0x1_0000_0000_0000_0000
    }

    ghost predicate Holds(m: Bytes, n: nat)
      reads `state, buffer
      ensures Holds(m, n) ==> (|m| - n) % BLOCK_BYTES == 0 && n <= BLOCK_BYTES
      ensures Holds(m, n) ==> buffer.Length == BLOCK_BYTES
    {
      && buffer.Length == BLOCK_BYTES
      && n <= BLOCK_BYTES
      && n <= |m|
      && (|m| - n) % BLOCK_BYTES == 0
      && state == Absorbed(m[..|m| - n])
      && buffer[..n] == m[|m| - n..]
    }

    constructor ()
      ensures Valid() && fresh(buffer) && message == []
    {
      buffer := new Byte[BLOCK_BYTES];
      state := InitialState();
      buffered := 0;
      totalBytes := 0;
      message := [];
    }

    method Reset()
      requires buffer.Length == BLOCK_BYTES
      modifies this, buffer
      ensures Valid() && message == []
    {
      for i := 0 to BLOCK_BYTES {
        buffer[i] := 0;
      }
      state := InitialState();
      buffered := 0;
      totalBytes := 0;
      message := [];
    }

    // The message schedule: sixteen words of the block, then forty-eight derived ones.
    static method Expand(block: Block) returns (w: array<bv32>)
      ensures fresh(w) && w.Length == 64
      ensures forall t :: 0 <= t < 64 ==> w[t] == Schedule(block, t)
    {
      hide WordAt, SmallSigma0, SmallSigma1, Sum;
      w := new bv32[64];
      for i := 0 to 16
        invariant forall j :: 0 <= j < i ==> w[j] == Schedule(block, j)
      {
        w[i] := WordAt(block, i);
      }
      for i := 16 to 64
        invariant forall j :: 0 <= j < i ==> w[j] == Schedule(block, j)
      {
        var s0 := SmallSigma0(w[i - 15]);
        var s1 := SmallSigma1(w[i - 2]);
        w[i] := Sum(Sum(Sum(w[i - 16], s0), w[i - 7]), s1);
      }
    }

    // The sixty-four rounds over the eight working variables.
    static method Mix(s: State, block: Block, w: array<bv32>) returns (v: Working)
      requires w.Length == 64
      requires forall t :: 0 <= t < 64 ==> w[t] == Schedule(block, t)
      ensures v == Rounds(s, block, 64)
    {
      hide BigSigma0, BigSigma1, Ch, Maj, Sum, RoundConstant, Schedule;
      var a, b, c, d := s[0], s[1], s[2], s[3];
      var e, f, g, h := s[4], s[5], s[6], s[7];
      for i := 0 to 64
        invariant Working(a, b, c, d, e, f, g, h) == Rounds(s, block, i)
      {
        var s1 := BigSigma1(e);
        var ch := Ch(e, f, g);
        var temp1 := Sum(Sum(Sum(Sum(h, s1), ch), RoundConstant(i)), w[i]);
        var s0 := BigSigma0(a);
        var maj := Maj(a, b, c);
        var temp2 := Sum(s0, maj);
        h := g;
        g := f;
        f := e;
        e := Sum(d, temp1);
        d := c;
        c := b;
        b := a;
        a := Sum(temp1, temp2);
      }
      v := Working(a, b, c, d, e, f, g, h);
    }

    method Compress(block: Block)
      modifies `state
      ensures state == Compressed(old(state), block)
    {
      hide Rounds, Sum;
      var w := Expand(block);
      var v := Mix(state, block, w);
      state := [Sum(state[0], v.a), Sum(state[1], v.b), Sum(state[2], v.c), Sum(state[3], v.d),
                Sum(state[4], v.e), Sum(state[5], v.f), Sum(state[6], v.g), Sum(state[7], v.h)];
    }

    method Push(b: Byte)
      requires buffered < BLOCK_BYTES && Holds(message, buffered)
      modifies this`buffered, this`message, buffer
      ensures buffered == old(buffered) + 1
      ensures message == old(message) + [b] && Holds(message, buffered)
    {
      hide Absorbed;
      ghost var m := message;
      buffer[buffered] := b;
      buffered := buffered + 1;
      message := message + [b];
      assert message[..|message| - buffered] == m[..|m| - old(buffered)];
    }

    method Flush()
      requires buffered == BLOCK_BYTES && Holds(message, buffered)
      modifies this`buffered, this`state
      ensures buffered == 0 && Holds(message, 0)
    {
      hide Absorbed, Compressed;
      ghost var m := message[..|message| - BLOCK_BYTES];
      ghost var block: Block := message[|message| - BLOCK_BYTES..];
      assert buffer[..] == buffer[..BLOCK_BYTES] == block;
      assert m + block == message;
      Compress(buffer[..]);
      AbsorbBlock(m, block);
      buffered := 0;
      assert message[..|message|] == message;
    }

    method CompressBlock(block: Block)
      requires Holds(message, 0)
      modifies this`state, this`message
      ensures message == old(message) + block && Holds(message, 0)
    {
      hide Absorbed, Compressed;
      assert message[..|message|] == message;
      Compress(block);
      AbsorbBlock(message, block);
      message := message + block;
      assert message[..|message|] == message;
    }

    // Fill a partly used buffer and compress it once full.
    method TopUp(data: Bytes) returns (offset: nat)
      requires buffered < BLOCK_BYTES && Holds(message, buffered)
      modifies this`state, this`buffered, this`message, buffer
      ensures offset <= |data| && message == old(message) + data[..offset]
      ensures buffered < BLOCK_BYTES && Holds(message, buffered)
      ensures offset < |data| ==> buffered == 0
    {
      hide Absorbed, Holds;
      offset := 0;
      if buffered > 0 {
        while buffered < BLOCK_BYTES && offset < |data|
          invariant offset <= |data| && buffered <= BLOCK_BYTES
          invariant message == old(message) + data[..offset] && Holds(message, buffered)
        {
          Push(data[offset]);
          offset := offset + 1;
        }
        if buffered == BLOCK_BYTES {
          Flush();
        }
      }
    }

    // Compress whole blocks straight from the input.
    method TakeBlocks(data: Bytes, start: nat) returns (offset: nat)
      requires start <= |data| && (start < |data| ==> buffered == 0)
      requires buffered < BLOCK_BYTES && Holds(message, buffered)
      modifies this`state, this`message
      ensures start <= offset <= |data| && message == old(message) + data[start..offset]
      ensures Holds(message, buffered) && buffered + (|data| - offset) < BLOCK_BYTES
    {
      hide Absorbed, Holds;
      offset := start;
      while offset + BLOCK_BYTES <= |data|
        invariant start <= offset <= |data|
        invariant message == old(message) + data[start..offset] && Holds(message, buffered)
        invariant offset < |data| ==> buffered == 0
      {
        CompressBlock(data[offset..offset + BLOCK_BYTES]);
        Assoc(old(message), data[start..offset], data[offset..offset + BLOCK_BYTES]);
        SliceGrows(data, start, offset, offset + BLOCK_BYTES);
        offset := offset + BLOCK_BYTES;
      }
    }

    // Buffer what is left of the input.
    method Keep(data: Bytes, start: nat)
      requires start <= |data| && buffered + (|data| - start) < BLOCK_BYTES
      requires Holds(message, buffered)
      modifies this`buffered, this`message, buffer
      ensures message == old(message) + data[start..]
      ensures buffered < BLOCK_BYTES && Holds(message, buffered)
    {
      hide Absorbed, Holds;
      var offset := start;
      while offset < |data|
        invariant start <= offset <= |data|
        invariant message == old(message) + data[start..offset] && Holds(message, buffered)
        invariant buffered + (|data| - offset) < BLOCK_BYTES
      {
        Push(data[offset]);
        offset := offset + 1;
      }
    }

    method Update(data: Bytes)
      requires Valid()
      modifies this, buffer
      ensures Valid() && message == old(message) + data
    {
      hide Absorbed, Holds;
      ghost var m := message;
      TotalWraps(|m|, |data|);
      totalBytes := (totalBytes + |data|) % 0x1_0000_0000_0000_0000;
      var start := TopUp(data);
      var offset := TakeBlocks(data, start);
      Keep(data, offset);
      assert message == m + data;
    }

    // The padding byte, then zero bytes up to position 56 of the block.
    method Pad()
      requires Valid()
      modifies this, buffer
      ensures Valid() && buffered == 56
      ensures message == old(message) + [0x80] + Zeros(ZeroCount(|old(message)|))
    {
      hide Absorbed, Holds, ZeroCount;
      ghost var m := message;
      Update([0x80]);
      ghost var zeros := 0;
      while buffered != 56
        invariant Valid() && message == m + [0x80] + Zeros(zeros)
        invariant zeros <= ZeroCount(|m|)
        decreases ZeroCount(|m|) - zeros
      {
        ZerosMissing(m, zeros, buffered);
        Update([0]);
        zeros := zeros + 1;
      }
      ZerosComplete(m, zeros);
    }

    /** The digest is the one-shot hash of everything fed in, however it was cut into updates. */
    method Finish() returns (digest: Digest)
      requires Valid() && |message| < 0x2000_0000_0000_0000
      modifies this, buffer
      ensures digest == Hash(old(message))
      ensures Valid() && message == []
    {
      hide Absorbed, Holds, ZeroCount, StateBytes;
      ghost var m := message;
      var bitLength := (totalBytes * 8) % 0x1_0000_0000_0000_0000;
      assert bitLength == 8 * |m|;
      Pad();
      Update(BigEndian(8, bitLength));
      assert message == Padded(m);
      EndOfBlock();
      digest := StateBytes(state);
      Reset();
    }

    // At a block boundary the state holds the whole message.
    lemma EndOfBlock()
      requires Valid() && |message| % BLOCK_BYTES == 0
      ensures state == Absorbed(message)
    {
      hide Absorbed;
      assert buffered == 0;
      assert message[..|message|] == message;
    }
  }

  lemma SliceGrows(data: Bytes, a: nat, b: nat, c: nat)
    requires a <= b <= c <= |data|
    ensures data[a..c] == data[a..b] + data[b..c]
  {
  }

  function Flatten(chunks: seq<Bytes>): Bytes {
    if chunks == [] then [] else Flatten(chunks[..|chunks| - 1]) + chunks[|chunks| - 1]
  }

  /** Every way of cutting a message into updates gives the one-shot hash. */
  method HashChunks(chunks: seq<Bytes>) returns (digest: Digest)
    requires |Flatten(chunks)| < 0x2000_0000_0000_0000
    ensures digest == Hash(Flatten(chunks))
  {
    hide Hash, Absorbed, Hasher.Holds;
    var hasher := new Hasher();
    for i := 0 to |chunks|
      invariant fresh(hasher) && fresh(hasher.buffer) && hasher.Valid()
      invariant hasher.message == Flatten(chunks[..i])
    {
      assert chunks[..i + 1][..i] == chunks[..i];
      hasher.Update(chunks[i]);
    }
    assert chunks[..|chunks|] == chunks;
    digest := hasher.Finish();
  }

  /** The padding can be taken off again: no two messages share their padded blocks. */
  lemma PaddingInjective(m: Bytes, n: Bytes)
    requires |m| < 0x2000_0000_0000_0000 && |n| < 0x2000_0000_0000_0000
    requires Padded(m) == Padded(n)
    ensures m == n
  {
    var p, q := m + [0x80] + Zeros(ZeroCount(|m|)), n + [0x80] + Zeros(ZeroCount(|n|));
    assert Padded(m) == p + BigEndian(8, 8 * |m|);
    assert Padded(n) == q + BigEndian(8, 8 * |n|);
    assert Padded(m)[|p|..] == BigEndian(8, 8 * |m|);
    assert Padded(n)[|q|..] == BigEndian(8, 8 * |n|);
    assert |p| == |q|;
    PowersOf256();
    ValueOfBigEndian(8, 8 * |m|);
    ValueOfBigEndian(8, 8 * |n|);
    assert m == Padded(m)[..|m|] == Padded(n)[..|n|] == n;
  }

  lemma TotalWraps(n: nat, k: nat)
    ensures (n % 0x1_0000_0000_0000_0000 + k) % 0x1_0000_0000_0000_0000
         == (n + k) % 0x1_0000_0000_0000_0000
  {
  }

  // Short of position 56, at least one more zero byte is due.
  lemma ZerosMissing(m: Bytes, zeros: nat, buffered: nat)
    requires buffered < BLOCK_BYTES && buffered != 56 && zeros <= ZeroCount(|m|)
    requires (|m| + 1 + zeros - buffered) % BLOCK_BYTES == 0
    ensures zeros < ZeroCount(|m|)
  {
  }

  lemma ZerosComplete(m: Bytes, zeros: nat)
    requires zeros <= ZeroCount(|m|)
    requires (|m| + 1 + zeros - 56) % BLOCK_BYTES == 0
    ensures zeros == ZeroCount(|m|)
  {
  }
}
