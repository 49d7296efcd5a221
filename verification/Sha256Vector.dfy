/** The digest of the three bytes "abc" that FIPS 180-4 is published with (section B.1 of its
    examples), derived from the definition of Sha256 round by round. */
module Sha256Vector {
  import opened CanonicalBytes
  import opened Sha256

  /** The message is these three bytes. */
  predicate IsAbc(m: Bytes) {
    |m| == 3 && m[0] == 0x61 && m[1] == 0x62 && m[2] == 0x63
  }

  function AbcBlock(m: Bytes): Block
    requires |m| == 3
  {
    m + [0x80] + Zeros(59) + [24]
  }

  lemma AbcPadded(m: Bytes)
    requires |m| == 3
    ensures Padded(m) == AbcBlock(m)
  {
    hide Zeros;
    assert ZeroCount(3) == 52;
    LengthBytes();
    hide BigEndian, ZeroCount;
    ZerosJoin(52, 7);
  }

  lemma LengthBytes()
    ensures BigEndian(8, 24) == Zeros(7) + [24]
  {
    assert BigEndian(8, 24) == BigEndian(7, 0) + [24];
    ZeroBytes(7);
  }

  lemma ZerosJoin(m: nat, n: nat)
    ensures Zeros(m) + Zeros(n) == Zeros(m + n)
  {
  }

  lemma {:induction false} ZeroBytes(n: nat)
    ensures BigEndian(n, 0) == Zeros(n)
  {
    if n > 0 {
      ZeroBytes(n - 1);
    }
  }

  // ---------------------------------------------------------------------------
  // The rotations as shifts
  // ---------------------------------------------------------------------------

  function Big0(x: bv32): bv32 { Xor3((x >> 2) | (x << 30), (x >> 13) | (x << 19), (x >> 22) | (x << 10)) }
  function Big1(x: bv32): bv32 { Xor3((x >> 6) | (x << 26), (x >> 11) | (x << 21), (x >> 25) | (x << 7)) }
  function Small0(x: bv32): bv32 { Xor3((x >> 7) | (x << 25), (x >> 18) | (x << 14), x >> 3) }
  function Small1(x: bv32): bv32 { Xor3((x >> 17) | (x << 15), (x >> 19) | (x << 13), x >> 10) }

  lemma Big0Is(x: bv32)
    ensures BigSigma0(x) == Big0(x)
  {
    assert Rotr(x, 2) == (x >> 2) | (x << 30);
    assert Rotr(x, 13) == (x >> 13) | (x << 19);
    assert Rotr(x, 22) == (x >> 22) | (x << 10);
    hide Rotr, Xor3;
  }

  lemma Big1Is(x: bv32)
    ensures BigSigma1(x) == Big1(x)
  {
    assert Rotr(x, 6) == (x >> 6) | (x << 26);
    assert Rotr(x, 11) == (x >> 11) | (x << 21);
    assert Rotr(x, 25) == (x >> 25) | (x << 7);
    hide Rotr, Xor3;
  }

  lemma Small0Is(x: bv32)
    ensures SmallSigma0(x) == Small0(x)
  {
    assert Rotr(x, 7) == (x >> 7) | (x << 25);
    assert Rotr(x, 18) == (x >> 18) | (x << 14);
    hide Rotr, Xor3;
  }

  lemma Small1Is(x: bv32)
    ensures SmallSigma1(x) == Small1(x)
  {
    assert Rotr(x, 17) == (x >> 17) | (x << 15);
    assert Rotr(x, 19) == (x >> 19) | (x << 13);
    hide Rotr, Xor3;
  }

  function NextWord(x16: bv32, x15: bv32, x7: bv32, x2: bv32): bv32 {
    Sum(Sum(Sum(x16, Small0(x15)), x7), Small1(x2))
  }

  function NextWorking(v: Working, k: bv32, w: bv32): Working {
    var t1 := Sum(Sum(Sum(Sum(v.h, Big1(v.e)), Ch(v.e, v.f, v.g)), k), w);
    var t2 := Sum(Big0(v.a), Maj(v.a, v.b, v.c));
    Working(Sum(t1, t2), v.a, v.b, v.c, Sum(v.d, t1), v.e, v.f, v.g)
  }

  lemma RoundIs(v: Working, k: bv32, w: bv32)
    ensures Round(v, k, w) == NextWorking(v, k, w)
  {
    Big0Is(v.a);
    Big1Is(v.e);
    hide BigSigma0, BigSigma1, Big0, Big1, Sum, Ch, Maj;
  }

  // ---------------------------------------------------------------------------
  // The message schedule
  // ---------------------------------------------------------------------------

  lemma AbcBytes(m: Bytes, i: nat)
    requires IsAbc(m) && i < 64
    ensures AbcBlock(m)[i] == if i < 4 then [0x61, 0x62, 0x63, 0x80][i] else if i < 63 then 0 else 24
  {
  }

  lemma FirstWord(m: Bytes)
    requires IsAbc(m)
    ensures WordAt(AbcBlock(m), 0) == 0x61626380
  {
    AbcBytes(m, 0);
    AbcBytes(m, 1);
    AbcBytes(m, 2);
    AbcBytes(m, 3);
    assert Widen(0x61) == 0x61 && Widen(0x62) == 0x62 && Widen(0x63) == 0x63 && Widen(0x80) == 0x80;
    hide AbcBlock, Widen;
  }

  lemma ZeroWord(m: Bytes, t: nat)
    requires IsAbc(m) && 0 < t < 15
    ensures WordAt(AbcBlock(m), t) == 0
  {
    AbcBytes(m, 4 * t);
    AbcBytes(m, 4 * t + 1);
    AbcBytes(m, 4 * t + 2);
    AbcBytes(m, 4 * t + 3);
    hide AbcBlock;
  }

  lemma LastWord(m: Bytes)
    requires IsAbc(m)
    ensures WordAt(AbcBlock(m), 15) == 24
  {
    AbcBytes(m, 60);
    AbcBytes(m, 61);
    AbcBytes(m, 62);
    AbcBytes(m, 63);
    hide AbcBlock;
  }

  predicate DerivedAt(w: seq<bv32>, t: nat)
    requires |w| == 64 && 16 <= t < 64
  {
    w[t] == NextWord(w[t - 16], w[t - 15], w[t - 7], w[t - 2])
  }

  /** The sixteen words of the block and the forty-eight derived from them. */
  predicate Expanded(w: seq<bv32>) {
    && |w| == 64 && w[0] == 0x61626380 && w[15] == 24
    && (forall t :: 0 < t < 15 ==> w[t] == 0)
    && (forall t :: 16 <= t < 64 ==> DerivedAt(w, t))
  }

  lemma AbcSchedule(m: Bytes) returns (w: seq<bv32>)
    requires IsAbc(m)
    ensures Expanded(w) && forall t :: 0 <= t < 64 ==> w[t] == Schedule(AbcBlock(m), t)
  {
    var block := AbcBlock(m);
    w := seq(64, t requires 0 <= t < 64 => Schedule(block, t));
    FirstWord(m);
    LastWord(m);
    forall t | 0 < t < 15
      ensures w[t] == 0
    {
      ZeroWord(m, t);
    }
    hide AbcBlock, WordAt, SmallSigma0, SmallSigma1, Sum, Small0, Small1;
    forall t | 16 <= t < 64
      ensures DerivedAt(w, t)
    {
      Small0Is(w[t - 15]);
      Small1Is(w[t - 2]);
    }
  }

  // The facts of the derivation are predicates, so that joining them needs no arithmetic on words.

  predicate WordIs(w: seq<bv32>, t: nat, x: bv32) {
    t < |w| && w[t] == x
  }

  predicate Sums(x16: bv32, x15: bv32, x7: bv32, x2: bv32, x: bv32) {
    NextWord(x16, x15, x7, x2) == x
  }

  // A word of the schedule from the four it is made of.
  lemma Word(w: seq<bv32>, t: nat, x16: bv32, x15: bv32, x7: bv32, x2: bv32, x: bv32)
    requires Expanded(w) && 16 <= t < 64
    requires WordIs(w, t - 16, x16) && WordIs(w, t - 15, x15) && WordIs(w, t - 7, x7) && WordIs(w, t - 2, x2)
    requires Sums(x16, x15, x7, x2, x)
    ensures WordIs(w, t, x)
  {
    hide NextWord;
    assert DerivedAt(w, t);
  }

  lemma Words0(w: seq<bv32>)
    requires Expanded(w)
    ensures WordIs(w, 0, 0x61626380) && WordIs(w, 1, 0x00000000) && WordIs(w, 2, 0x00000000)
    ensures WordIs(w, 3, 0x00000000) && WordIs(w, 4, 0x00000000) && WordIs(w, 5, 0x00000000)
    ensures WordIs(w, 6, 0x00000000) && WordIs(w, 7, 0x00000000)
  {
  }

  lemma Words8(w: seq<bv32>)
    requires Expanded(w)
    ensures WordIs(w, 8, 0x00000000) && WordIs(w, 9, 0x00000000) && WordIs(w, 10, 0x00000000)
    ensures WordIs(w, 11, 0x00000000) && WordIs(w, 12, 0x00000000) && WordIs(w, 13, 0x00000000)
    ensures WordIs(w, 14, 0x00000000) && WordIs(w, 15, 0x00000018)
  {
  }

  lemma Sums16()
    ensures Sums(0x61626380, 0x00000000, 0x00000000, 0x00000000, 0x61626380)
    ensures Sums(0x00000000, 0x00000000, 0x00000000, 0x00000018, 0x000f0000)
    ensures Sums(0x00000000, 0x00000000, 0x00000000, 0x61626380, 0x7da86405)
    ensures Sums(0x00000000, 0x00000000, 0x00000000, 0x000f0000, 0x600003c6)
    ensures Sums(0x00000000, 0x00000000, 0x00000000, 0x7da86405, 0x3e9d7b78)
    ensures Sums(0x00000000, 0x00000000, 0x00000000, 0x600003c6, 0x0183fc00)
    ensures Sums(0x00000000, 0x00000000, 0x00000018, 0x3e9d7b78, 0x12dcbfdb)
    ensures Sums(0x00000000, 0x00000000, 0x61626380, 0x0183fc00, 0xe2e2c38e)
  {
  }

  lemma Words16(w: seq<bv32>)
    requires Expanded(w)
    ensures WordIs(w, 16, 0x61626380) && WordIs(w, 17, 0x000f0000) && WordIs(w, 18, 0x7da86405)
    ensures WordIs(w, 19, 0x600003c6) && WordIs(w, 20, 0x3e9d7b78) && WordIs(w, 21, 0x0183fc00)
    ensures WordIs(w, 22, 0x12dcbfdb) && WordIs(w, 23, 0xe2e2c38e)
  {
    hide Expanded, WordIs, Sums;
    Sums16();
    Words0(w);
    Words8(w);
    Word(w, 16, 0x61626380, 0x00000000, 0x00000000, 0x00000000, 0x61626380);
    Word(w, 17, 0x00000000, 0x00000000, 0x00000000, 0x00000018, 0x000f0000);
    Word(w, 18, 0x00000000, 0x00000000, 0x00000000, 0x61626380, 0x7da86405);
    Word(w, 19, 0x00000000, 0x00000000, 0x00000000, 0x000f0000, 0x600003c6);
    Word(w, 20, 0x00000000, 0x00000000, 0x00000000, 0x7da86405, 0x3e9d7b78);
    Word(w, 21, 0x00000000, 0x00000000, 0x00000000, 0x600003c6, 0x0183fc00);
    Word(w, 22, 0x00000000, 0x00000000, 0x00000018, 0x3e9d7b78, 0x12dcbfdb);
    Word(w, 23, 0x00000000, 0x00000000, 0x61626380, 0x0183fc00, 0xe2e2c38e);
  }

  lemma Sums24()
    ensures Sums(0x00000000, 0x00000000, 0x000f0000, 0x12dcbfdb, 0xc8215c1a)
    ensures Sums(0x00000000, 0x00000000, 0x7da86405, 0xe2e2c38e, 0xb73679a2)
    ensures Sums(0x00000000, 0x00000000, 0x600003c6, 0xc8215c1a, 0xe5bc3909)
    ensures Sums(0x00000000, 0x00000000, 0x3e9d7b78, 0xb73679a2, 0x32663c5b)
    ensures Sums(0x00000000, 0x00000000, 0x0183fc00, 0xe5bc3909, 0x9d209d67)
    ensures Sums(0x00000000, 0x00000000, 0x12dcbfdb, 0x32663c5b, 0xec8726cb)
    ensures Sums(0x00000000, 0x00000018, 0xe2e2c38e, 0x9d209d67, 0x702138a4)
    ensures Sums(0x00000018, 0x61626380, 0xc8215c1a, 0xec8726cb, 0xd3b7973b)
  {
  }

  lemma Words24(w: seq<bv32>)
    requires Expanded(w)
    ensures WordIs(w, 24, 0xc8215c1a) && WordIs(w, 25, 0xb73679a2) && WordIs(w, 26, 0xe5bc3909)
    ensures WordIs(w, 27, 0x32663c5b) && WordIs(w, 28, 0x9d209d67) && WordIs(w, 29, 0xec8726cb)
    ensures WordIs(w, 30, 0x702138a4) && WordIs(w, 31, 0xd3b7973b)
  {
    hide Expanded, WordIs, Sums;
    Sums24();
    Words8(w);
    Words16(w);
    Word(w, 24, 0x00000000, 0x00000000, 0x000f0000, 0x12dcbfdb, 0xc8215c1a);
    Word(w, 25, 0x00000000, 0x00000000, 0x7da86405, 0xe2e2c38e, 0xb73679a2);
    Word(w, 26, 0x00000000, 0x00000000, 0x600003c6, 0xc8215c1a, 0xe5bc3909);
    Word(w, 27, 0x00000000, 0x00000000, 0x3e9d7b78, 0xb73679a2, 0x32663c5b);
    Word(w, 28, 0x00000000, 0x00000000, 0x0183fc00, 0xe5bc3909, 0x9d209d67);
    Word(w, 29, 0x00000000, 0x00000000, 0x12dcbfdb, 0x32663c5b, 0xec8726cb);
    Word(w, 30, 0x00000000, 0x00000018, 0xe2e2c38e, 0x9d209d67, 0x702138a4);
    Word(w, 31, 0x00000018, 0x61626380, 0xc8215c1a, 0xec8726cb, 0xd3b7973b);
  }

  lemma Sums32()
    ensures Sums(0x61626380, 0x000f0000, 0xb73679a2, 0x702138a4, 0x93f5997f)
    ensures Sums(0x000f0000, 0x7da86405, 0xe5bc3909, 0xd3b7973b, 0x3b68ba73)
    ensures Sums(0x7da86405, 0x600003c6, 0x32663c5b, 0x93f5997f, 0xaff4ffc1)
    ensures Sums(0x600003c6, 0x3e9d7b78, 0x9d209d67, 0x3b68ba73, 0xf10a5c62)
    ensures Sums(0x3e9d7b78, 0x0183fc00, 0xec8726cb, 0xaff4ffc1, 0x0a8b3996)
    ensures Sums(0x0183fc00, 0x12dcbfdb, 0x702138a4, 0xf10a5c62, 0x72af830a)
    ensures Sums(0x12dcbfdb, 0xe2e2c38e, 0xd3b7973b, 0x0a8b3996, 0x9409e33e)
    ensures Sums(0xe2e2c38e, 0xc8215c1a, 0x93f5997f, 0x72af830a, 0x24641522)
  {
  }

  lemma Words32(w: seq<bv32>)
    requires Expanded(w)
    ensures WordIs(w, 32, 0x93f5997f) && WordIs(w, 33, 0x3b68ba73) && WordIs(w, 34, 0xaff4ffc1)
    ensures WordIs(w, 35, 0xf10a5c62) && WordIs(w, 36, 0x0a8b3996) && WordIs(w, 37, 0x72af830a)
    ensures WordIs(w, 38, 0x9409e33e) && WordIs(w, 39, 0x24641522)
  {
    hide Expanded, WordIs, Sums;
    Sums32();
    Words16(w);
    Words24(w);
    Word(w, 32, 0x61626380, 0x000f0000, 0xb73679a2, 0x702138a4, 0x93f5997f);
    Word(w, 33, 0x000f0000, 0x7da86405, 0xe5bc3909, 0xd3b7973b, 0x3b68ba73);
    Word(w, 34, 0x7da86405, 0x600003c6, 0x32663c5b, 0x93f5997f, 0xaff4ffc1);
    Word(w, 35, 0x600003c6, 0x3e9d7b78, 0x9d209d67, 0x3b68ba73, 0xf10a5c62);
    Word(w, 36, 0x3e9d7b78, 0x0183fc00, 0xec8726cb, 0xaff4ffc1, 0x0a8b3996);
    Word(w, 37, 0x0183fc00, 0x12dcbfdb, 0x702138a4, 0xf10a5c62, 0x72af830a);
    Word(w, 38, 0x12dcbfdb, 0xe2e2c38e, 0xd3b7973b, 0x0a8b3996, 0x9409e33e);
    Word(w, 39, 0xe2e2c38e, 0xc8215c1a, 0x93f5997f, 0x72af830a, 0x24641522);
  }

  lemma Sums40()
    ensures Sums(0xc8215c1a, 0xb73679a2, 0x3b68ba73, 0x9409e33e, 0x9f47bf94)
    ensures Sums(0xb73679a2, 0xe5bc3909, 0xaff4ffc1, 0x24641522, 0xf0a64f5a)
    ensures Sums(0xe5bc3909, 0x32663c5b, 0xf10a5c62, 0x9f47bf94, 0x3e246a79)
    ensures Sums(0x32663c5b, 0x9d209d67, 0x0a8b3996, 0xf0a64f5a, 0x27333ba3)
    ensures Sums(0x9d209d67, 0xec8726cb, 0x72af830a, 0x3e246a79, 0x0c4763f2)
    ensures Sums(0xec8726cb, 0x702138a4, 0x9409e33e, 0x27333ba3, 0x840abf27)
    ensures Sums(0x702138a4, 0xd3b7973b, 0x24641522, 0x0c4763f2, 0x7a290d5d)
    ensures Sums(0xd3b7973b, 0x93f5997f, 0x9f47bf94, 0x840abf27, 0x065c43da)
  {
  }

  lemma Words40(w: seq<bv32>)
    requires Expanded(w)
    ensures WordIs(w, 40, 0x9f47bf94) && WordIs(w, 41, 0xf0a64f5a) && WordIs(w, 42, 0x3e246a79)
    ensures WordIs(w, 43, 0x27333ba3) && WordIs(w, 44, 0x0c4763f2) && WordIs(w, 45, 0x840abf27)
    ensures WordIs(w, 46, 0x7a290d5d) && WordIs(w, 47, 0x065c43da)
  {
    hide Expanded, WordIs, Sums;
    Sums40();
    Words24(w);
    Words32(w);
    Word(w, 40, 0xc8215c1a, 0xb73679a2, 0x3b68ba73, 0x9409e33e, 0x9f47bf94);
    Word(w, 41, 0xb73679a2, 0xe5bc3909, 0xaff4ffc1, 0x24641522, 0xf0a64f5a);
    Word(w, 42, 0xe5bc3909, 0x32663c5b, 0xf10a5c62, 0x9f47bf94, 0x3e246a79);
    Word(w, 43, 0x32663c5b, 0x9d209d67, 0x0a8b3996, 0xf0a64f5a, 0x27333ba3);
    Word(w, 44, 0x9d209d67, 0xec8726cb, 0x72af830a, 0x3e246a79, 0x0c4763f2);
    Word(w, 45, 0xec8726cb, 0x702138a4, 0x9409e33e, 0x27333ba3, 0x840abf27);
    Word(w, 46, 0x702138a4, 0xd3b7973b, 0x24641522, 0x0c4763f2, 0x7a290d5d);
    Word(w, 47, 0xd3b7973b, 0x93f5997f, 0x9f47bf94, 0x840abf27, 0x065c43da);
  }

  lemma Sums48()
    ensures Sums(0x93f5997f, 0x3b68ba73, 0xf0a64f5a, 0x7a290d5d, 0xfb3e89cb)
    ensures Sums(0x3b68ba73, 0xaff4ffc1, 0x3e246a79, 0x065c43da, 0xcc7617db)
    ensures Sums(0xaff4ffc1, 0xf10a5c62, 0x27333ba3, 0xfb3e89cb, 0xb9e66c34)
    ensures Sums(0xf10a5c62, 0x0a8b3996, 0x0c4763f2, 0xcc7617db, 0xa9993667)
    ensures Sums(0x0a8b3996, 0x72af830a, 0x840abf27, 0xb9e66c34, 0x84badedd)
    ensures Sums(0x72af830a, 0x9409e33e, 0x7a290d5d, 0xa9993667, 0xc21462bc)
    ensures Sums(0x9409e33e, 0x24641522, 0x065c43da, 0x84badedd, 0x1487472c)
    ensures Sums(0x24641522, 0x9f47bf94, 0xfb3e89cb, 0xc21462bc, 0xb20f7a99)
  {
  }

  lemma Words48(w: seq<bv32>)
    requires Expanded(w)
    ensures WordIs(w, 48, 0xfb3e89cb) && WordIs(w, 49, 0xcc7617db) && WordIs(w, 50, 0xb9e66c34)
    ensures WordIs(w, 51, 0xa9993667) && WordIs(w, 52, 0x84badedd) && WordIs(w, 53, 0xc21462bc)
    ensures WordIs(w, 54, 0x1487472c) && WordIs(w, 55, 0xb20f7a99)
  {
    hide Expanded, WordIs, Sums;
    Sums48();
    Words32(w);
    Words40(w);
    Word(w, 48, 0x93f5997f, 0x3b68ba73, 0xf0a64f5a, 0x7a290d5d, 0xfb3e89cb);
    Word(w, 49, 0x3b68ba73, 0xaff4ffc1, 0x3e246a79, 0x065c43da, 0xcc7617db);
    Word(w, 50, 0xaff4ffc1, 0xf10a5c62, 0x27333ba3, 0xfb3e89cb, 0xb9e66c34);
    Word(w, 51, 0xf10a5c62, 0x0a8b3996, 0x0c4763f2, 0xcc7617db, 0xa9993667);
    Word(w, 52, 0x0a8b3996, 0x72af830a, 0x840abf27, 0xb9e66c34, 0x84badedd);
    Word(w, 53, 0x72af830a, 0x9409e33e, 0x7a290d5d, 0xa9993667, 0xc21462bc);
    Word(w, 54, 0x9409e33e, 0x24641522, 0x065c43da, 0x84badedd, 0x1487472c);
    Word(w, 55, 0x24641522, 0x9f47bf94, 0xfb3e89cb, 0xc21462bc, 0xb20f7a99);
  }

  lemma Sums56()
    ensures Sums(0x9f47bf94, 0xf0a64f5a, 0xcc7617db, 0x1487472c, 0xef57b9cd)
    ensures Sums(0xf0a64f5a, 0x3e246a79, 0xb9e66c34, 0xb20f7a99, 0xebe6b238)
    ensures Sums(0x3e246a79, 0x27333ba3, 0xa9993667, 0xef57b9cd, 0x9fe3095e)
    ensures Sums(0x27333ba3, 0x0c4763f2, 0x84badedd, 0xebe6b238, 0x78bc8d4b)
    ensures Sums(0x0c4763f2, 0x840abf27, 0xc21462bc, 0x9fe3095e, 0xa43fcf15)
    ensures Sums(0x840abf27, 0x7a290d5d, 0x1487472c, 0x78bc8d4b, 0x668b2ff8)
    ensures Sums(0x7a290d5d, 0x065c43da, 0xb20f7a99, 0xa43fcf15, 0xeeaba2cc)
    ensures Sums(0x065c43da, 0xfb3e89cb, 0xef57b9cd, 0x668b2ff8, 0x12b1edeb)
  {
  }

  lemma Words56(w: seq<bv32>)
    requires Expanded(w)
    ensures WordIs(w, 56, 0xef57b9cd) && WordIs(w, 57, 0xebe6b238) && WordIs(w, 58, 0x9fe3095e)
    ensures WordIs(w, 59, 0x78bc8d4b) && WordIs(w, 60, 0xa43fcf15) && WordIs(w, 61, 0x668b2ff8)
    ensures WordIs(w, 62, 0xeeaba2cc) && WordIs(w, 63, 0x12b1edeb)
  {
    hide Expanded, WordIs, Sums;
    Sums56();
    Words40(w);
    Words48(w);
    Word(w, 56, 0x9f47bf94, 0xf0a64f5a, 0xcc7617db, 0x1487472c, 0xef57b9cd);
    Word(w, 57, 0xf0a64f5a, 0x3e246a79, 0xb9e66c34, 0xb20f7a99, 0xebe6b238);
    Word(w, 58, 0x3e246a79, 0x27333ba3, 0xa9993667, 0xef57b9cd, 0x9fe3095e);
    Word(w, 59, 0x27333ba3, 0x0c4763f2, 0x84badedd, 0xebe6b238, 0x78bc8d4b);
    Word(w, 60, 0x0c4763f2, 0x840abf27, 0xc21462bc, 0x9fe3095e, 0xa43fcf15);
    Word(w, 61, 0x840abf27, 0x7a290d5d, 0x1487472c, 0x78bc8d4b, 0x668b2ff8);
    Word(w, 62, 0x7a290d5d, 0x065c43da, 0xb20f7a99, 0xa43fcf15, 0xeeaba2cc);
    Word(w, 63, 0x065c43da, 0xfb3e89cb, 0xef57b9cd, 0x668b2ff8, 0x12b1edeb);
  }

  // ---------------------------------------------------------------------------
  // The sixty-four rounds
  // ---------------------------------------------------------------------------

  function FirstWorking(s: State): Working {
    Working(s[0], s[1], s[2], s[3], s[4], s[5], s[6], s[7])
  }

  /** The rounds over a given schedule. */
  function RoundsOver(w: seq<bv32>, t: nat): Working
    requires |w| == 64 && t <= 64
  {
    if t == 0 then FirstWorking(InitialState())
    else Round(RoundsOver(w, t - 1), RoundConstant(t - 1), w[t - 1])
  }

  lemma {:induction false} SameRounds(block: Block, w: seq<bv32>, t: nat)
    requires |w| == 64 && t <= 64 && forall i :: 0 <= i < t ==> w[i] == Schedule(block, i)
    ensures RoundsOver(w, t) == Rounds(InitialState(), block, t)
  {
    hide Round, RoundConstant, Schedule, InitialState;
    if t > 0 {
      SameRounds(block, w, t - 1);
    }
  }

  predicate StandsAt(w: seq<bv32>, t: nat, x: Working) {
    |w| == 64 && t <= 64 && RoundsOver(w, t) == x
  }

  predicate ConstantIs(t: nat, k: bv32) {
    t < 64 && RoundConstant(t) == k
  }

  /** The working variables behind this round: a and e are new, the others move one on. */
  function Shifted(x: Working, a: bv32, e: bv32): Working {
    Working(a, x.a, x.b, x.c, e, x.e, x.f, x.g)
  }

  predicate TurnsInto(x: Working, k: bv32, word: bv32, a: bv32, e: bv32) {
    NextWorking(x, k, word) == Shifted(x, a, e)
  }

  lemma Turn(w: seq<bv32>, t: nat, x: Working, k: bv32, word: bv32, a: bv32, e: bv32)
    requires StandsAt(w, t, x) && ConstantIs(t, k) && WordIs(w, t, word) && TurnsInto(x, k, word, a, e)
    ensures StandsAt(w, t + 1, Shifted(x, a, e))
  {
    hide RoundConstant, Round, NextWorking;
    RoundIs(x, k, word);
  }

  lemma Start(w: seq<bv32>)
    requires |w| == 64
    ensures StandsAt(w, 0,
      Working(0x6a09e667, 0xbb67ae85, 0x3c6ef372, 0xa54ff53a, 0x510e527f, 0x9b05688c, 0x1f83d9ab, 0x5be0cd19))
  {
    hide AbcBlock;
  }

  lemma Values0()
    ensures ConstantIs(0, 0x428a2f98) && ConstantIs(1, 0x71374491) && ConstantIs(2, 0xb5c0fbcf)
    ensures ConstantIs(3, 0xe9b5dba5) && ConstantIs(4, 0x3956c25b) && ConstantIs(5, 0x59f111f1)
    ensures ConstantIs(6, 0x923f82a4) && ConstantIs(7, 0xab1c5ed5)
  {
  }

  lemma Steps0()
    ensures TurnsInto(
      Working(0x6a09e667, 0xbb67ae85, 0x3c6ef372, 0xa54ff53a, 0x510e527f, 0x9b05688c, 0x1f83d9ab, 0x5be0cd19),
      0x428a2f98, 0x61626380, 0x5d6aebcd, 0xfa2a4622)
    ensures TurnsInto(
      Working(0x5d6aebcd, 0x6a09e667, 0xbb67ae85, 0x3c6ef372, 0xfa2a4622, 0x510e527f, 0x9b05688c, 0x1f83d9ab),
      0x71374491, 0x00000000, 0x5a6ad9ad, 0x78ce7989)
    ensures TurnsInto(
      Working(0x5a6ad9ad, 0x5d6aebcd, 0x6a09e667, 0xbb67ae85, 0x78ce7989, 0xfa2a4622, 0x510e527f, 0x9b05688c),
      0xb5c0fbcf, 0x00000000, 0xc8c347a7, 0xf92939eb)
    ensures TurnsInto(
      Working(0xc8c347a7, 0x5a6ad9ad, 0x5d6aebcd, 0x6a09e667, 0xf92939eb, 0x78ce7989, 0xfa2a4622, 0x510e527f),
      0xe9b5dba5, 0x00000000, 0xd550f666, 0x24e00850)
    ensures TurnsInto(
      Working(0xd550f666, 0xc8c347a7, 0x5a6ad9ad, 0x5d6aebcd, 0x24e00850, 0xf92939eb, 0x78ce7989, 0xfa2a4622),
      0x3956c25b, 0x00000000, 0x04409a6a, 0x43ada245)
    ensures TurnsInto(
      Working(0x04409a6a, 0xd550f666, 0xc8c347a7, 0x5a6ad9ad, 0x43ada245, 0x24e00850, 0xf92939eb, 0x78ce7989),
      0x59f111f1, 0x00000000, 0x2b4209f5, 0x714260ad)
    ensures TurnsInto(
      Working(0x2b4209f5, 0x04409a6a, 0xd550f666, 0xc8c347a7, 0x714260ad, 0x43ada245, 0x24e00850, 0xf92939eb),
      0x923f82a4, 0x00000000, 0xe5030380, 0x9b27a401)
    ensures TurnsInto(
      Working(0xe5030380, 0x2b4209f5, 0x04409a6a, 0xd550f666, 0x9b27a401, 0x714260ad, 0x43ada245, 0x24e00850),
      0xab1c5ed5, 0x00000000, 0x85a07b5f, 0x0c657a79)
  {
  }

  lemma Rounds8(w: seq<bv32>)
    requires Expanded(w) && StandsAt(w, 0,
      Working(0x6a09e667, 0xbb67ae85, 0x3c6ef372, 0xa54ff53a, 0x510e527f, 0x9b05688c, 0x1f83d9ab, 0x5be0cd19))
    ensures StandsAt(w, 8,
      Working(0x85a07b5f, 0xe5030380, 0x2b4209f5, 0x04409a6a, 0x0c657a79, 0x9b27a401, 0x714260ad, 0x43ada245))
  {
    hide Expanded, WordIs, ConstantIs, TurnsInto, StandsAt;
    Values0();
    Words0(w);
    Steps0();
    Turn(w, 0, Working(0x6a09e667, 0xbb67ae85, 0x3c6ef372, 0xa54ff53a, 0x510e527f, 0x9b05688c, 0x1f83d9ab, 0x5be0cd19),
      0x428a2f98, 0x61626380, 0x5d6aebcd, 0xfa2a4622);
    Turn(w, 1, Working(0x5d6aebcd, 0x6a09e667, 0xbb67ae85, 0x3c6ef372, 0xfa2a4622, 0x510e527f, 0x9b05688c, 0x1f83d9ab),
      0x71374491, 0x00000000, 0x5a6ad9ad, 0x78ce7989);
    Turn(w, 2, Working(0x5a6ad9ad, 0x5d6aebcd, 0x6a09e667, 0xbb67ae85, 0x78ce7989, 0xfa2a4622, 0x510e527f, 0x9b05688c),
      0xb5c0fbcf, 0x00000000, 0xc8c347a7, 0xf92939eb);
    Turn(w, 3, Working(0xc8c347a7, 0x5a6ad9ad, 0x5d6aebcd, 0x6a09e667, 0xf92939eb, 0x78ce7989, 0xfa2a4622, 0x510e527f),
      0xe9b5dba5, 0x00000000, 0xd550f666, 0x24e00850);
    Turn(w, 4, Working(0xd550f666, 0xc8c347a7, 0x5a6ad9ad, 0x5d6aebcd, 0x24e00850, 0xf92939eb, 0x78ce7989, 0xfa2a4622),
      0x3956c25b, 0x00000000, 0x04409a6a, 0x43ada245);
    Turn(w, 5, Working(0x04409a6a, 0xd550f666, 0xc8c347a7, 0x5a6ad9ad, 0x43ada245, 0x24e00850, 0xf92939eb, 0x78ce7989),
      0x59f111f1, 0x00000000, 0x2b4209f5, 0x714260ad);
    Turn(w, 6, Working(0x2b4209f5, 0x04409a6a, 0xd550f666, 0xc8c347a7, 0x714260ad, 0x43ada245, 0x24e00850, 0xf92939eb),
      0x923f82a4, 0x00000000, 0xe5030380, 0x9b27a401);
    Turn(w, 7, Working(0xe5030380, 0x2b4209f5, 0x04409a6a, 0xd550f666, 0x9b27a401, 0x714260ad, 0x43ada245, 0x24e00850),
      0xab1c5ed5, 0x00000000, 0x85a07b5f, 0x0c657a79);
  }

  lemma Values8()
    ensures ConstantIs(8, 0xd807aa98) && ConstantIs(9, 0x12835b01) && ConstantIs(10, 0x243185be)
    ensures ConstantIs(11, 0x550c7dc3) && ConstantIs(12, 0x72be5d74) && ConstantIs(13, 0x80deb1fe)
    ensures ConstantIs(14, 0x9bdc06a7) && ConstantIs(15, 0xc19bf174)
  {
  }

  lemma Steps8()
    ensures TurnsInto(
      Working(0x85a07b5f, 0xe5030380, 0x2b4209f5, 0x04409a6a, 0x0c657a79, 0x9b27a401, 0x714260ad, 0x43ada245),
      0xd807aa98, 0x00000000, 0x8e04ecb9, 0x32ca2d8c)
    ensures TurnsInto(
      Working(0x8e04ecb9, 0x85a07b5f, 0xe5030380, 0x2b4209f5, 0x32ca2d8c, 0x0c657a79, 0x9b27a401, 0x714260ad),
      0x12835b01, 0x00000000, 0x8c87346b, 0x1cc92596)
    ensures TurnsInto(
      Working(0x8c87346b, 0x8e04ecb9, 0x85a07b5f, 0xe5030380, 0x1cc92596, 0x32ca2d8c, 0x0c657a79, 0x9b27a401),
      0x243185be, 0x00000000, 0x4798a3f4, 0x436b23e8)
    ensures TurnsInto(
      Working(0x4798a3f4, 0x8c87346b, 0x8e04ecb9, 0x85a07b5f, 0x436b23e8, 0x1cc92596, 0x32ca2d8c, 0x0c657a79),
      0x550c7dc3, 0x00000000, 0xf71fc5a9, 0x816fd6e9)
    ensures TurnsInto(
      Working(0xf71fc5a9, 0x4798a3f4, 0x8c87346b, 0x8e04ecb9, 0x816fd6e9, 0x436b23e8, 0x1cc92596, 0x32ca2d8c),
      0x72be5d74, 0x00000000, 0x87912990, 0x1e578218)
    ensures TurnsInto(
      Working(0x87912990, 0xf71fc5a9, 0x4798a3f4, 0x8c87346b, 0x1e578218, 0x816fd6e9, 0x436b23e8, 0x1cc92596),
      0x80deb1fe, 0x00000000, 0xd932eb16, 0x745a48de)
    ensures TurnsInto(
      Working(0xd932eb16, 0x87912990, 0xf71fc5a9, 0x4798a3f4, 0x745a48de, 0x1e578218, 0x816fd6e9, 0x436b23e8),
      0x9bdc06a7, 0x00000000, 0xc0645fde, 0x0b92f20c)
    ensures TurnsInto(
      Working(0xc0645fde, 0xd932eb16, 0x87912990, 0xf71fc5a9, 0x0b92f20c, 0x745a48de, 0x1e578218, 0x816fd6e9),
      0xc19bf174, 0x00000018, 0xb0fa238e, 0x07590dcd)
  {
  }

  lemma Rounds16(w: seq<bv32>)
    requires Expanded(w) && StandsAt(w, 8,
      Working(0x85a07b5f, 0xe5030380, 0x2b4209f5, 0x04409a6a, 0x0c657a79, 0x9b27a401, 0x714260ad, 0x43ada245))
    ensures StandsAt(w, 16,
      Working(0xb0fa238e, 0xc0645fde, 0xd932eb16, 0x87912990, 0x07590dcd, 0x0b92f20c, 0x745a48de, 0x1e578218))
  {
    hide Expanded, WordIs, ConstantIs, TurnsInto, StandsAt;
    Values8();
    Words8(w);
    Steps8();
    Turn(w, 8, Working(0x85a07b5f, 0xe5030380, 0x2b4209f5, 0x04409a6a, 0x0c657a79, 0x9b27a401, 0x714260ad, 0x43ada245),
      0xd807aa98, 0x00000000, 0x8e04ecb9, 0x32ca2d8c);
    Turn(w, 9, Working(0x8e04ecb9, 0x85a07b5f, 0xe5030380, 0x2b4209f5, 0x32ca2d8c, 0x0c657a79, 0x9b27a401, 0x714260ad),
      0x12835b01, 0x00000000, 0x8c87346b, 0x1cc92596);
    Turn(w, 10, Working(0x8c87346b, 0x8e04ecb9, 0x85a07b5f, 0xe5030380, 0x1cc92596, 0x32ca2d8c, 0x0c657a79, 0x9b27a401),
      0x243185be, 0x00000000, 0x4798a3f4, 0x436b23e8);
    Turn(w, 11, Working(0x4798a3f4, 0x8c87346b, 0x8e04ecb9, 0x85a07b5f, 0x436b23e8, 0x1cc92596, 0x32ca2d8c, 0x0c657a79),
      0x550c7dc3, 0x00000000, 0xf71fc5a9, 0x816fd6e9);
    Turn(w, 12, Working(0xf71fc5a9, 0x4798a3f4, 0x8c87346b, 0x8e04ecb9, 0x816fd6e9, 0x436b23e8, 0x1cc92596, 0x32ca2d8c),
      0x72be5d74, 0x00000000, 0x87912990, 0x1e578218);
    Turn(w, 13, Working(0x87912990, 0xf71fc5a9, 0x4798a3f4, 0x8c87346b, 0x1e578218, 0x816fd6e9, 0x436b23e8, 0x1cc92596),
      0x80deb1fe, 0x00000000, 0xd932eb16, 0x745a48de);
    Turn(w, 14, Working(0xd932eb16, 0x87912990, 0xf71fc5a9, 0x4798a3f4, 0x745a48de, 0x1e578218, 0x816fd6e9, 0x436b23e8),
      0x9bdc06a7, 0x00000000, 0xc0645fde, 0x0b92f20c);
    Turn(w, 15, Working(0xc0645fde, 0xd932eb16, 0x87912990, 0xf71fc5a9, 0x0b92f20c, 0x745a48de, 0x1e578218, 0x816fd6e9),
      0xc19bf174, 0x00000018, 0xb0fa238e, 0x07590dcd);
  }

  lemma Values16()
    ensures ConstantIs(16, 0xe49b69c1) && ConstantIs(17, 0xefbe4786) && ConstantIs(18, 0x0fc19dc6)
    ensures ConstantIs(19, 0x240ca1cc) && ConstantIs(20, 0x2de92c6f) && ConstantIs(21, 0x4a7484aa)
    ensures ConstantIs(22, 0x5cb0a9dc) && ConstantIs(23, 0x76f988da)
  {
  }

  lemma Steps16()
    ensures TurnsInto(
      Working(0xb0fa238e, 0xc0645fde, 0xd932eb16, 0x87912990, 0x07590dcd, 0x0b92f20c, 0x745a48de, 0x1e578218),
      0xe49b69c1, 0x61626380, 0x21da9a9b, 0x8034229c)
    ensures TurnsInto(
      Working(0x21da9a9b, 0xb0fa238e, 0xc0645fde, 0xd932eb16, 0x8034229c, 0x07590dcd, 0x0b92f20c, 0x745a48de),
      0xefbe4786, 0x000f0000, 0xc2fbd9d1, 0x846ee454)
    ensures TurnsInto(
      Working(0xc2fbd9d1, 0x21da9a9b, 0xb0fa238e, 0xc0645fde, 0x846ee454, 0x8034229c, 0x07590dcd, 0x0b92f20c),
      0x0fc19dc6, 0x7da86405, 0xfe777bbf, 0xcc899961)
    ensures TurnsInto(
      Working(0xfe777bbf, 0xc2fbd9d1, 0x21da9a9b, 0xb0fa238e, 0xcc899961, 0x846ee454, 0x8034229c, 0x07590dcd),
      0x240ca1cc, 0x600003c6, 0xe1f20c33, 0xb0638179)
    ensures TurnsInto(
      Working(0xe1f20c33, 0xfe777bbf, 0xc2fbd9d1, 0x21da9a9b, 0xb0638179, 0xcc899961, 0x846ee454, 0x8034229c),
      0x2de92c6f, 0x3e9d7b78, 0x9dc68b63, 0x8ada8930)
    ensures TurnsInto(
      Working(0x9dc68b63, 0xe1f20c33, 0xfe777bbf, 0xc2fbd9d1, 0x8ada8930, 0xb0638179, 0xcc899961, 0x846ee454),
      0x4a7484aa, 0x0183fc00, 0xc2606d6d, 0xe1257970)
    ensures TurnsInto(
      Working(0xc2606d6d, 0x9dc68b63, 0xe1f20c33, 0xfe777bbf, 0xe1257970, 0x8ada8930, 0xb0638179, 0xcc899961),
      0x5cb0a9dc, 0x12dcbfdb, 0xa7a3623f, 0x49f5114a)
    ensures TurnsInto(
      Working(0xa7a3623f, 0xc2606d6d, 0x9dc68b63, 0xe1f20c33, 0x49f5114a, 0xe1257970, 0x8ada8930, 0xb0638179),
      0x76f988da, 0xe2e2c38e, 0xc5d53d8d, 0xaa47c347)
  {
  }

  lemma Rounds24(w: seq<bv32>)
    requires Expanded(w) && StandsAt(w, 16,
      Working(0xb0fa238e, 0xc0645fde, 0xd932eb16, 0x87912990, 0x07590dcd, 0x0b92f20c, 0x745a48de, 0x1e578218))
    ensures StandsAt(w, 24,
      Working(0xc5d53d8d, 0xa7a3623f, 0xc2606d6d, 0x9dc68b63, 0xaa47c347, 0x49f5114a, 0xe1257970, 0x8ada8930))
  {
    hide Expanded, WordIs, ConstantIs, TurnsInto, StandsAt;
    Values16();
    Words16(w);
    Steps16();
    Turn(w, 16, Working(0xb0fa238e, 0xc0645fde, 0xd932eb16, 0x87912990, 0x07590dcd, 0x0b92f20c, 0x745a48de, 0x1e578218),
      0xe49b69c1, 0x61626380, 0x21da9a9b, 0x8034229c);
    Turn(w, 17, Working(0x21da9a9b, 0xb0fa238e, 0xc0645fde, 0xd932eb16, 0x8034229c, 0x07590dcd, 0x0b92f20c, 0x745a48de),
      0xefbe4786, 0x000f0000, 0xc2fbd9d1, 0x846ee454);
    Turn(w, 18, Working(0xc2fbd9d1, 0x21da9a9b, 0xb0fa238e, 0xc0645fde, 0x846ee454, 0x8034229c, 0x07590dcd, 0x0b92f20c),
      0x0fc19dc6, 0x7da86405, 0xfe777bbf, 0xcc899961);
    Turn(w, 19, Working(0xfe777bbf, 0xc2fbd9d1, 0x21da9a9b, 0xb0fa238e, 0xcc899961, 0x846ee454, 0x8034229c, 0x07590dcd),
      0x240ca1cc, 0x600003c6, 0xe1f20c33, 0xb0638179);
    Turn(w, 20, Working(0xe1f20c33, 0xfe777bbf, 0xc2fbd9d1, 0x21da9a9b, 0xb0638179, 0xcc899961, 0x846ee454, 0x8034229c),
      0x2de92c6f, 0x3e9d7b78, 0x9dc68b63, 0x8ada8930);
    Turn(w, 21, Working(0x9dc68b63, 0xe1f20c33, 0xfe777bbf, 0xc2fbd9d1, 0x8ada8930, 0xb0638179, 0xcc899961, 0x846ee454),
      0x4a7484aa, 0x0183fc00, 0xc2606d6d, 0xe1257970);
    Turn(w, 22, Working(0xc2606d6d, 0x9dc68b63, 0xe1f20c33, 0xfe777bbf, 0xe1257970, 0x8ada8930, 0xb0638179, 0xcc899961),
      0x5cb0a9dc, 0x12dcbfdb, 0xa7a3623f, 0x49f5114a);
    Turn(w, 23, Working(0xa7a3623f, 0xc2606d6d, 0x9dc68b63, 0xe1f20c33, 0x49f5114a, 0xe1257970, 0x8ada8930, 0xb0638179),
      0x76f988da, 0xe2e2c38e, 0xc5d53d8d, 0xaa47c347);
  }

  lemma Values24()
    ensures ConstantIs(24, 0x983e5152) && ConstantIs(25, 0xa831c66d) && ConstantIs(26, 0xb00327c8)
    ensures ConstantIs(27, 0xbf597fc7) && ConstantIs(28, 0xc6e00bf3) && ConstantIs(29, 0xd5a79147)
    ensures ConstantIs(30, 0x06ca6351) && ConstantIs(31, 0x14292967)
  {
  }

  lemma Steps24()
    ensures TurnsInto(
      Working(0xc5d53d8d, 0xa7a3623f, 0xc2606d6d, 0x9dc68b63, 0xaa47c347, 0x49f5114a, 0xe1257970, 0x8ada8930),
      0x983e5152, 0xc8215c1a, 0x1c2c2838, 0x2823ef91)
    ensures TurnsInto(
      Working(0x1c2c2838, 0xc5d53d8d, 0xa7a3623f, 0xc2606d6d, 0x2823ef91, 0xaa47c347, 0x49f5114a, 0xe1257970),
      0xa831c66d, 0xb73679a2, 0xcde8037d, 0x14383d8e)
    ensures TurnsInto(
      Working(0xcde8037d, 0x1c2c2838, 0xc5d53d8d, 0xa7a3623f, 0x14383d8e, 0x2823ef91, 0xaa47c347, 0x49f5114a),
      0xb00327c8, 0xe5bc3909, 0xb62ec4bc, 0xc74c6516)
    ensures TurnsInto(
      Working(0xb62ec4bc, 0xcde8037d, 0x1c2c2838, 0xc5d53d8d, 0xc74c6516, 0x14383d8e, 0x2823ef91, 0xaa47c347),
      0xbf597fc7, 0x32663c5b, 0x77d37528, 0xedffbff8)
    ensures TurnsInto(
      Working(0x77d37528, 0xb62ec4bc, 0xcde8037d, 0x1c2c2838, 0xedffbff8, 0xc74c6516, 0x14383d8e, 0x2823ef91),
      0xc6e00bf3, 0x9d209d67, 0x363482c9, 0x6112a3b7)
    ensures TurnsInto(
      Working(0x363482c9, 0x77d37528, 0xb62ec4bc, 0xcde8037d, 0x6112a3b7, 0xedffbff8, 0xc74c6516, 0x14383d8e),
      0xd5a79147, 0xec8726cb, 0xa0060b30, 0xade79437)
    ensures TurnsInto(
      Working(0xa0060b30, 0x363482c9, 0x77d37528, 0xb62ec4bc, 0xade79437, 0x6112a3b7, 0xedffbff8, 0xc74c6516),
      0x06ca6351, 0x702138a4, 0xea992a22, 0x0109ab3a)
    ensures TurnsInto(
      Working(0xea992a22, 0xa0060b30, 0x363482c9, 0x77d37528, 0x0109ab3a, 0xade79437, 0x6112a3b7, 0xedffbff8),
      0x14292967, 0xd3b7973b, 0x73b33bf5, 0xba591112)
  {
  }

  lemma Rounds32(w: seq<bv32>)
    requires Expanded(w) && StandsAt(w, 24,
      Working(0xc5d53d8d, 0xa7a3623f, 0xc2606d6d, 0x9dc68b63, 0xaa47c347, 0x49f5114a, 0xe1257970, 0x8ada8930))
    ensures StandsAt(w, 32,
      Working(0x73b33bf5, 0xea992a22, 0xa0060b30, 0x363482c9, 0xba591112, 0x0109ab3a, 0xade79437, 0x6112a3b7))
  {
    hide Expanded, WordIs, ConstantIs, TurnsInto, StandsAt;
    Values24();
    Words24(w);
    Steps24();
    Turn(w, 24, Working(0xc5d53d8d, 0xa7a3623f, 0xc2606d6d, 0x9dc68b63, 0xaa47c347, 0x49f5114a, 0xe1257970, 0x8ada8930),
      0x983e5152, 0xc8215c1a, 0x1c2c2838, 0x2823ef91);
    Turn(w, 25, Working(0x1c2c2838, 0xc5d53d8d, 0xa7a3623f, 0xc2606d6d, 0x2823ef91, 0xaa47c347, 0x49f5114a, 0xe1257970),
      0xa831c66d, 0xb73679a2, 0xcde8037d, 0x14383d8e);
    Turn(w, 26, Working(0xcde8037d, 0x1c2c2838, 0xc5d53d8d, 0xa7a3623f, 0x14383d8e, 0x2823ef91, 0xaa47c347, 0x49f5114a),
      0xb00327c8, 0xe5bc3909, 0xb62ec4bc, 0xc74c6516);
    Turn(w, 27, Working(0xb62ec4bc, 0xcde8037d, 0x1c2c2838, 0xc5d53d8d, 0xc74c6516, 0x14383d8e, 0x2823ef91, 0xaa47c347),
      0xbf597fc7, 0x32663c5b, 0x77d37528, 0xedffbff8);
    Turn(w, 28, Working(0x77d37528, 0xb62ec4bc, 0xcde8037d, 0x1c2c2838, 0xedffbff8, 0xc74c6516, 0x14383d8e, 0x2823ef91),
      0xc6e00bf3, 0x9d209d67, 0x363482c9, 0x6112a3b7);
    Turn(w, 29, Working(0x363482c9, 0x77d37528, 0xb62ec4bc, 0xcde8037d, 0x6112a3b7, 0xedffbff8, 0xc74c6516, 0x14383d8e),
      0xd5a79147, 0xec8726cb, 0xa0060b30, 0xade79437);
    Turn(w, 30, Working(0xa0060b30, 0x363482c9, 0x77d37528, 0xb62ec4bc, 0xade79437, 0x6112a3b7, 0xedffbff8, 0xc74c6516),
      0x06ca6351, 0x702138a4, 0xea992a22, 0x0109ab3a);
    Turn(w, 31, Working(0xea992a22, 0xa0060b30, 0x363482c9, 0x77d37528, 0x0109ab3a, 0xade79437, 0x6112a3b7, 0xedffbff8),
      0x14292967, 0xd3b7973b, 0x73b33bf5, 0xba591112);
  }

  lemma Values32()
    ensures ConstantIs(32, 0x27b70a85) && ConstantIs(33, 0x2e1b2138) && ConstantIs(34, 0x4d2c6dfc)
    ensures ConstantIs(35, 0x53380d13) && ConstantIs(36, 0x650a7354) && ConstantIs(37, 0x766a0abb)
    ensures ConstantIs(38, 0x81c2c92e) && ConstantIs(39, 0x92722c85)
  {
  }

  lemma Steps32()
    ensures TurnsInto(
      Working(0x73b33bf5, 0xea992a22, 0xa0060b30, 0x363482c9, 0xba591112, 0x0109ab3a, 0xade79437, 0x6112a3b7),
      0x27b70a85, 0x93f5997f, 0x98e12507, 0x9cd9f5f6)
    ensures TurnsInto(
      Working(0x98e12507, 0x73b33bf5, 0xea992a22, 0xa0060b30, 0x9cd9f5f6, 0xba591112, 0x0109ab3a, 0xade79437),
      0x2e1b2138, 0x3b68ba73, 0xfe604df5, 0x59249dd3)
    ensures TurnsInto(
      Working(0xfe604df5, 0x98e12507, 0x73b33bf5, 0xea992a22, 0x59249dd3, 0x9cd9f5f6, 0xba591112, 0x0109ab3a),
      0x4d2c6dfc, 0xaff4ffc1, 0xa9a7738c, 0x085f3833)
    ensures TurnsInto(
      Working(0xa9a7738c, 0xfe604df5, 0x98e12507, 0x73b33bf5, 0x085f3833, 0x59249dd3, 0x9cd9f5f6, 0xba591112),
      0x53380d13, 0xf10a5c62, 0x65a0cfe4, 0xf4b002d6)
    ensures TurnsInto(
      Working(0x65a0cfe4, 0xa9a7738c, 0xfe604df5, 0x98e12507, 0xf4b002d6, 0x085f3833, 0x59249dd3, 0x9cd9f5f6),
      0x650a7354, 0x0a8b3996, 0x41a65cb1, 0x0772a26b)
    ensures TurnsInto(
      Working(0x41a65cb1, 0x65a0cfe4, 0xa9a7738c, 0xfe604df5, 0x0772a26b, 0xf4b002d6, 0x085f3833, 0x59249dd3),
      0x766a0abb, 0x72af830a, 0x34df1604, 0xa507a53d)
    ensures TurnsInto(
      Working(0x34df1604, 0x41a65cb1, 0x65a0cfe4, 0xa9a7738c, 0xa507a53d, 0x0772a26b, 0xf4b002d6, 0x085f3833),
      0x81c2c92e, 0x9409e33e, 0x6dc57a8a, 0xf0781bc8)
    ensures TurnsInto(
      Working(0x6dc57a8a, 0x34df1604, 0x41a65cb1, 0x65a0cfe4, 0xf0781bc8, 0xa507a53d, 0x0772a26b, 0xf4b002d6),
      0x92722c85, 0x24641522, 0x79ea687a, 0x1efbc0a0)
  {
  }

  lemma Rounds40(w: seq<bv32>)
    requires Expanded(w) && StandsAt(w, 32,
      Working(0x73b33bf5, 0xea992a22, 0xa0060b30, 0x363482c9, 0xba591112, 0x0109ab3a, 0xade79437, 0x6112a3b7))
    ensures StandsAt(w, 40,
      Working(0x79ea687a, 0x6dc57a8a, 0x34df1604, 0x41a65cb1, 0x1efbc0a0, 0xf0781bc8, 0xa507a53d, 0x0772a26b))
  {
    hide Expanded, WordIs, ConstantIs, TurnsInto, StandsAt;
    Values32();
    Words32(w);
    Steps32();
    Turn(w, 32, Working(0x73b33bf5, 0xea992a22, 0xa0060b30, 0x363482c9, 0xba591112, 0x0109ab3a, 0xade79437, 0x6112a3b7),
      0x27b70a85, 0x93f5997f, 0x98e12507, 0x9cd9f5f6);
    Turn(w, 33, Working(0x98e12507, 0x73b33bf5, 0xea992a22, 0xa0060b30, 0x9cd9f5f6, 0xba591112, 0x0109ab3a, 0xade79437),
      0x2e1b2138, 0x3b68ba73, 0xfe604df5, 0x59249dd3);
    Turn(w, 34, Working(0xfe604df5, 0x98e12507, 0x73b33bf5, 0xea992a22, 0x59249dd3, 0x9cd9f5f6, 0xba591112, 0x0109ab3a),
      0x4d2c6dfc, 0xaff4ffc1, 0xa9a7738c, 0x085f3833);
    Turn(w, 35, Working(0xa9a7738c, 0xfe604df5, 0x98e12507, 0x73b33bf5, 0x085f3833, 0x59249dd3, 0x9cd9f5f6, 0xba591112),
      0x53380d13, 0xf10a5c62, 0x65a0cfe4, 0xf4b002d6);
    Turn(w, 36, Working(0x65a0cfe4, 0xa9a7738c, 0xfe604df5, 0x98e12507, 0xf4b002d6, 0x085f3833, 0x59249dd3, 0x9cd9f5f6),
      0x650a7354, 0x0a8b3996, 0x41a65cb1, 0x0772a26b);
    Turn(w, 37, Working(0x41a65cb1, 0x65a0cfe4, 0xa9a7738c, 0xfe604df5, 0x0772a26b, 0xf4b002d6, 0x085f3833, 0x59249dd3),
      0x766a0abb, 0x72af830a, 0x34df1604, 0xa507a53d);
    Turn(w, 38, Working(0x34df1604, 0x41a65cb1, 0x65a0cfe4, 0xa9a7738c, 0xa507a53d, 0x0772a26b, 0xf4b002d6, 0x085f3833),
      0x81c2c92e, 0x9409e33e, 0x6dc57a8a, 0xf0781bc8);
    Turn(w, 39, Working(0x6dc57a8a, 0x34df1604, 0x41a65cb1, 0x65a0cfe4, 0xf0781bc8, 0xa507a53d, 0x0772a26b, 0xf4b002d6),
      0x92722c85, 0x24641522, 0x79ea687a, 0x1efbc0a0);
  }

  lemma Values40()
    ensures ConstantIs(40, 0xa2bfe8a1) && ConstantIs(41, 0xa81a664b) && ConstantIs(42, 0xc24b8b70)
    ensures ConstantIs(43, 0xc76c51a3) && ConstantIs(44, 0xd192e819) && ConstantIs(45, 0xd6990624)
    ensures ConstantIs(46, 0xf40e3585) && ConstantIs(47, 0x106aa070)
  {
  }

  lemma Steps40()
    ensures TurnsInto(
      Working(0x79ea687a, 0x6dc57a8a, 0x34df1604, 0x41a65cb1, 0x1efbc0a0, 0xf0781bc8, 0xa507a53d, 0x0772a26b),
      0xa2bfe8a1, 0x9f47bf94, 0xd6670766, 0x26352d63)
    ensures TurnsInto(
      Working(0xd6670766, 0x79ea687a, 0x6dc57a8a, 0x34df1604, 0x26352d63, 0x1efbc0a0, 0xf0781bc8, 0xa507a53d),
      0xa81a664b, 0xf0a64f5a, 0xdf46652f, 0x838b2711)
    ensures TurnsInto(
      Working(0xdf46652f, 0xd6670766, 0x79ea687a, 0x6dc57a8a, 0x838b2711, 0x26352d63, 0x1efbc0a0, 0xf0781bc8),
      0xc24b8b70, 0x3e246a79, 0x17aa0dfe, 0xdecd4715)
    ensures TurnsInto(
      Working(0x17aa0dfe, 0xdf46652f, 0xd6670766, 0x79ea687a, 0xdecd4715, 0x838b2711, 0x26352d63, 0x1efbc0a0),
      0xc76c51a3, 0x27333ba3, 0x9d4baf93, 0xfda24c2e)
    ensures TurnsInto(
      Working(0x9d4baf93, 0x17aa0dfe, 0xdf46652f, 0xd6670766, 0xfda24c2e, 0xdecd4715, 0x838b2711, 0x26352d63),
      0xd192e819, 0x0c4763f2, 0x26628815, 0xa80f11f0)
    ensures TurnsInto(
      Working(0x26628815, 0x9d4baf93, 0x17aa0dfe, 0xdf46652f, 0xa80f11f0, 0xfda24c2e, 0xdecd4715, 0x838b2711),
      0xd6990624, 0x840abf27, 0x72ab4b91, 0xb7755da1)
    ensures TurnsInto(
      Working(0x72ab4b91, 0x26628815, 0x9d4baf93, 0x17aa0dfe, 0xb7755da1, 0xa80f11f0, 0xfda24c2e, 0xdecd4715),
      0xf40e3585, 0x7a290d5d, 0xa14c14b0, 0xd57b94a9)
    ensures TurnsInto(
      Working(0xa14c14b0, 0x72ab4b91, 0x26628815, 0x9d4baf93, 0xd57b94a9, 0xb7755da1, 0xa80f11f0, 0xfda24c2e),
      0x106aa070, 0x065c43da, 0x4172328d, 0xfecf0bc6)
  {
  }

  lemma Rounds48(w: seq<bv32>)
    requires Expanded(w) && StandsAt(w, 40,
      Working(0x79ea687a, 0x6dc57a8a, 0x34df1604, 0x41a65cb1, 0x1efbc0a0, 0xf0781bc8, 0xa507a53d, 0x0772a26b))
    ensures StandsAt(w, 48,
      Working(0x4172328d, 0xa14c14b0, 0x72ab4b91, 0x26628815, 0xfecf0bc6, 0xd57b94a9, 0xb7755da1, 0xa80f11f0))
  {
    hide Expanded, WordIs, ConstantIs, TurnsInto, StandsAt;
    Values40();
    Words40(w);
    Steps40();
    Turn(w, 40, Working(0x79ea687a, 0x6dc57a8a, 0x34df1604, 0x41a65cb1, 0x1efbc0a0, 0xf0781bc8, 0xa507a53d, 0x0772a26b),
      0xa2bfe8a1, 0x9f47bf94, 0xd6670766, 0x26352d63);
    Turn(w, 41, Working(0xd6670766, 0x79ea687a, 0x6dc57a8a, 0x34df1604, 0x26352d63, 0x1efbc0a0, 0xf0781bc8, 0xa507a53d),
      0xa81a664b, 0xf0a64f5a, 0xdf46652f, 0x838b2711);
    Turn(w, 42, Working(0xdf46652f, 0xd6670766, 0x79ea687a, 0x6dc57a8a, 0x838b2711, 0x26352d63, 0x1efbc0a0, 0xf0781bc8),
      0xc24b8b70, 0x3e246a79, 0x17aa0dfe, 0xdecd4715);
    Turn(w, 43, Working(0x17aa0dfe, 0xdf46652f, 0xd6670766, 0x79ea687a, 0xdecd4715, 0x838b2711, 0x26352d63, 0x1efbc0a0),
      0xc76c51a3, 0x27333ba3, 0x9d4baf93, 0xfda24c2e);
    Turn(w, 44, Working(0x9d4baf93, 0x17aa0dfe, 0xdf46652f, 0xd6670766, 0xfda24c2e, 0xdecd4715, 0x838b2711, 0x26352d63),
      0xd192e819, 0x0c4763f2, 0x26628815, 0xa80f11f0);
    Turn(w, 45, Working(0x26628815, 0x9d4baf93, 0x17aa0dfe, 0xdf46652f, 0xa80f11f0, 0xfda24c2e, 0xdecd4715, 0x838b2711),
      0xd6990624, 0x840abf27, 0x72ab4b91, 0xb7755da1);
    Turn(w, 46, Working(0x72ab4b91, 0x26628815, 0x9d4baf93, 0x17aa0dfe, 0xb7755da1, 0xa80f11f0, 0xfda24c2e, 0xdecd4715),
      0xf40e3585, 0x7a290d5d, 0xa14c14b0, 0xd57b94a9);
    Turn(w, 47, Working(0xa14c14b0, 0x72ab4b91, 0x26628815, 0x9d4baf93, 0xd57b94a9, 0xb7755da1, 0xa80f11f0, 0xfda24c2e),
      0x106aa070, 0x065c43da, 0x4172328d, 0xfecf0bc6);
  }

  lemma Values48()
    ensures ConstantIs(48, 0x19a4c116) && ConstantIs(49, 0x1e376c08) && ConstantIs(50, 0x2748774c)
    ensures ConstantIs(51, 0x34b0bcb5) && ConstantIs(52, 0x391c0cb3) && ConstantIs(53, 0x4ed8aa4a)
    ensures ConstantIs(54, 0x5b9cca4f) && ConstantIs(55, 0x682e6ff3)
  {
  }

  lemma Steps48()
    ensures TurnsInto(
      Working(0x4172328d, 0xa14c14b0, 0x72ab4b91, 0x26628815, 0xfecf0bc6, 0xd57b94a9, 0xb7755da1, 0xa80f11f0),
      0x19a4c116, 0xfb3e89cb, 0x05757ceb, 0xbd714038)
    ensures TurnsInto(
      Working(0x05757ceb, 0x4172328d, 0xa14c14b0, 0x72ab4b91, 0xbd714038, 0xfecf0bc6, 0xd57b94a9, 0xb7755da1),
      0x1e376c08, 0xcc7617db, 0xf11bfaa8, 0x6e5c390c)
    ensures TurnsInto(
      Working(0xf11bfaa8, 0x05757ceb, 0x4172328d, 0xa14c14b0, 0x6e5c390c, 0xbd714038, 0xfecf0bc6, 0xd57b94a9),
      0x2748774c, 0xb9e66c34, 0x7a0508a1, 0x52f1ccf7)
    ensures TurnsInto(
      Working(0x7a0508a1, 0xf11bfaa8, 0x05757ceb, 0x4172328d, 0x52f1ccf7, 0x6e5c390c, 0xbd714038, 0xfecf0bc6),
      0x34b0bcb5, 0xa9993667, 0x886e7a22, 0x49231c1e)
    ensures TurnsInto(
      Working(0x886e7a22, 0x7a0508a1, 0xf11bfaa8, 0x05757ceb, 0x49231c1e, 0x52f1ccf7, 0x6e5c390c, 0xbd714038),
      0x391c0cb3, 0x84badedd, 0x101fd28f, 0x529e7d00)
    ensures TurnsInto(
      Working(0x101fd28f, 0x886e7a22, 0x7a0508a1, 0xf11bfaa8, 0x529e7d00, 0x49231c1e, 0x52f1ccf7, 0x6e5c390c),
      0x4ed8aa4a, 0xc21462bc, 0xf5702fdb, 0x9f4787c3)
    ensures TurnsInto(
      Working(0xf5702fdb, 0x101fd28f, 0x886e7a22, 0x7a0508a1, 0x9f4787c3, 0x529e7d00, 0x49231c1e, 0x52f1ccf7),
      0x5b9cca4f, 0x1487472c, 0x3ec45cdb, 0xe50e1b4f)
    ensures TurnsInto(
      Working(0x3ec45cdb, 0xf5702fdb, 0x101fd28f, 0x886e7a22, 0xe50e1b4f, 0x9f4787c3, 0x529e7d00, 0x49231c1e),
      0x682e6ff3, 0xb20f7a99, 0x38cc9913, 0x54cb266b)
  {
  }

  lemma Rounds56(w: seq<bv32>)
    requires Expanded(w) && StandsAt(w, 48,
      Working(0x4172328d, 0xa14c14b0, 0x72ab4b91, 0x26628815, 0xfecf0bc6, 0xd57b94a9, 0xb7755da1, 0xa80f11f0))
    ensures StandsAt(w, 56,
      Working(0x38cc9913, 0x3ec45cdb, 0xf5702fdb, 0x101fd28f, 0x54cb266b, 0xe50e1b4f, 0x9f4787c3, 0x529e7d00))
  {
    hide Expanded, WordIs, ConstantIs, TurnsInto, StandsAt;
    Values48();
    Words48(w);
    Steps48();
    Turn(w, 48, Working(0x4172328d, 0xa14c14b0, 0x72ab4b91, 0x26628815, 0xfecf0bc6, 0xd57b94a9, 0xb7755da1, 0xa80f11f0),
      0x19a4c116, 0xfb3e89cb, 0x05757ceb, 0xbd714038);
    Turn(w, 49, Working(0x05757ceb, 0x4172328d, 0xa14c14b0, 0x72ab4b91, 0xbd714038, 0xfecf0bc6, 0xd57b94a9, 0xb7755da1),
      0x1e376c08, 0xcc7617db, 0xf11bfaa8, 0x6e5c390c);
    Turn(w, 50, Working(0xf11bfaa8, 0x05757ceb, 0x4172328d, 0xa14c14b0, 0x6e5c390c, 0xbd714038, 0xfecf0bc6, 0xd57b94a9),
      0x2748774c, 0xb9e66c34, 0x7a0508a1, 0x52f1ccf7);
    Turn(w, 51, Working(0x7a0508a1, 0xf11bfaa8, 0x05757ceb, 0x4172328d, 0x52f1ccf7, 0x6e5c390c, 0xbd714038, 0xfecf0bc6),
      0x34b0bcb5, 0xa9993667, 0x886e7a22, 0x49231c1e);
    Turn(w, 52, Working(0x886e7a22, 0x7a0508a1, 0xf11bfaa8, 0x05757ceb, 0x49231c1e, 0x52f1ccf7, 0x6e5c390c, 0xbd714038),
      0x391c0cb3, 0x84badedd, 0x101fd28f, 0x529e7d00);
    Turn(w, 53, Working(0x101fd28f, 0x886e7a22, 0x7a0508a1, 0xf11bfaa8, 0x529e7d00, 0x49231c1e, 0x52f1ccf7, 0x6e5c390c),
      0x4ed8aa4a, 0xc21462bc, 0xf5702fdb, 0x9f4787c3);
    Turn(w, 54, Working(0xf5702fdb, 0x101fd28f, 0x886e7a22, 0x7a0508a1, 0x9f4787c3, 0x529e7d00, 0x49231c1e, 0x52f1ccf7),
      0x5b9cca4f, 0x1487472c, 0x3ec45cdb, 0xe50e1b4f);
    Turn(w, 55, Working(0x3ec45cdb, 0xf5702fdb, 0x101fd28f, 0x886e7a22, 0xe50e1b4f, 0x9f4787c3, 0x529e7d00, 0x49231c1e),
      0x682e6ff3, 0xb20f7a99, 0x38cc9913, 0x54cb266b);
  }

  lemma Values56()
    ensures ConstantIs(56, 0x748f82ee) && ConstantIs(57, 0x78a5636f) && ConstantIs(58, 0x84c87814)
    ensures ConstantIs(59, 0x8cc70208) && ConstantIs(60, 0x90befffa) && ConstantIs(61, 0xa4506ceb)
    ensures ConstantIs(62, 0xbef9a3f7) && ConstantIs(63, 0xc67178f2)
  {
  }

  lemma Steps56()
    ensures TurnsInto(
      Working(0x38cc9913, 0x3ec45cdb, 0xf5702fdb, 0x101fd28f, 0x54cb266b, 0xe50e1b4f, 0x9f4787c3, 0x529e7d00),
      0x748f82ee, 0xef57b9cd, 0xfcd1887b, 0x9b5e906c)
    ensures TurnsInto(
      Working(0xfcd1887b, 0x38cc9913, 0x3ec45cdb, 0xf5702fdb, 0x9b5e906c, 0x54cb266b, 0xe50e1b4f, 0x9f4787c3),
      0x78a5636f, 0xebe6b238, 0xc062d46f, 0x7e44008e)
    ensures TurnsInto(
      Working(0xc062d46f, 0xfcd1887b, 0x38cc9913, 0x3ec45cdb, 0x7e44008e, 0x9b5e906c, 0x54cb266b, 0xe50e1b4f),
      0x84c87814, 0x9fe3095e, 0xffb70472, 0x6d83bfc6)
    ensures TurnsInto(
      Working(0xffb70472, 0xc062d46f, 0xfcd1887b, 0x38cc9913, 0x6d83bfc6, 0x7e44008e, 0x9b5e906c, 0x54cb266b),
      0x8cc70208, 0x78bc8d4b, 0xb6ae8fff, 0xb21bad3d)
    ensures TurnsInto(
      Working(0xb6ae8fff, 0xffb70472, 0xc062d46f, 0xfcd1887b, 0xb21bad3d, 0x6d83bfc6, 0x7e44008e, 0x9b5e906c),
      0x90befffa, 0xa43fcf15, 0xb85e2ce9, 0x961f4894)
    ensures TurnsInto(
      Working(0xb85e2ce9, 0xb6ae8fff, 0xffb70472, 0xc062d46f, 0x961f4894, 0xb21bad3d, 0x6d83bfc6, 0x7e44008e),
      0xa4506ceb, 0x668b2ff8, 0x04d24d6c, 0x948d25b6)
    ensures TurnsInto(
      Working(0x04d24d6c, 0xb85e2ce9, 0xb6ae8fff, 0xffb70472, 0x948d25b6, 0x961f4894, 0xb21bad3d, 0x6d83bfc6),
      0xbef9a3f7, 0xeeaba2cc, 0xd39a2165, 0xfb121210)
    ensures TurnsInto(
      Working(0xd39a2165, 0x04d24d6c, 0xb85e2ce9, 0xb6ae8fff, 0xfb121210, 0x948d25b6, 0x961f4894, 0xb21bad3d),
      0xc67178f2, 0x12b1edeb, 0x506e3058, 0x5ef50f24)
  {
  }

  lemma Rounds64(w: seq<bv32>)
    requires Expanded(w) && StandsAt(w, 56,
      Working(0x38cc9913, 0x3ec45cdb, 0xf5702fdb, 0x101fd28f, 0x54cb266b, 0xe50e1b4f, 0x9f4787c3, 0x529e7d00))
    ensures StandsAt(w, 64,
      Working(0x506e3058, 0xd39a2165, 0x04d24d6c, 0xb85e2ce9, 0x5ef50f24, 0xfb121210, 0x948d25b6, 0x961f4894))
  {
    hide Expanded, WordIs, ConstantIs, TurnsInto, StandsAt;
    Values56();
    Words56(w);
    Steps56();
    Turn(w, 56, Working(0x38cc9913, 0x3ec45cdb, 0xf5702fdb, 0x101fd28f, 0x54cb266b, 0xe50e1b4f, 0x9f4787c3, 0x529e7d00),
      0x748f82ee, 0xef57b9cd, 0xfcd1887b, 0x9b5e906c);
    Turn(w, 57, Working(0xfcd1887b, 0x38cc9913, 0x3ec45cdb, 0xf5702fdb, 0x9b5e906c, 0x54cb266b, 0xe50e1b4f, 0x9f4787c3),
      0x78a5636f, 0xebe6b238, 0xc062d46f, 0x7e44008e);
    Turn(w, 58, Working(0xc062d46f, 0xfcd1887b, 0x38cc9913, 0x3ec45cdb, 0x7e44008e, 0x9b5e906c, 0x54cb266b, 0xe50e1b4f),
      0x84c87814, 0x9fe3095e, 0xffb70472, 0x6d83bfc6);
    Turn(w, 59, Working(0xffb70472, 0xc062d46f, 0xfcd1887b, 0x38cc9913, 0x6d83bfc6, 0x7e44008e, 0x9b5e906c, 0x54cb266b),
      0x8cc70208, 0x78bc8d4b, 0xb6ae8fff, 0xb21bad3d);
    Turn(w, 60, Working(0xb6ae8fff, 0xffb70472, 0xc062d46f, 0xfcd1887b, 0xb21bad3d, 0x6d83bfc6, 0x7e44008e, 0x9b5e906c),
      0x90befffa, 0xa43fcf15, 0xb85e2ce9, 0x961f4894);
    Turn(w, 61, Working(0xb85e2ce9, 0xb6ae8fff, 0xffb70472, 0xc062d46f, 0x961f4894, 0xb21bad3d, 0x6d83bfc6, 0x7e44008e),
      0xa4506ceb, 0x668b2ff8, 0x04d24d6c, 0x948d25b6);
    Turn(w, 62, Working(0x04d24d6c, 0xb85e2ce9, 0xb6ae8fff, 0xffb70472, 0x948d25b6, 0x961f4894, 0xb21bad3d, 0x6d83bfc6),
      0xbef9a3f7, 0xeeaba2cc, 0xd39a2165, 0xfb121210);
    Turn(w, 63, Working(0xd39a2165, 0x04d24d6c, 0xb85e2ce9, 0xb6ae8fff, 0xfb121210, 0x948d25b6, 0x961f4894, 0xb21bad3d),
      0xc67178f2, 0x12b1edeb, 0x506e3058, 0x5ef50f24);
  }

  lemma AllRounds(w: seq<bv32>)
    requires Expanded(w)
    ensures StandsAt(w, 64,
      Working(0x506e3058, 0xd39a2165, 0x04d24d6c, 0xb85e2ce9, 0x5ef50f24, 0xfb121210, 0x948d25b6, 0x961f4894))
  {
    hide StandsAt;
    Start(w);
    hide Expanded;
    Rounds8(w);
    Rounds16(w);
    Rounds24(w);
    Rounds32(w);
    Rounds40(w);
    Rounds48(w);
    Rounds56(w);
    Rounds64(w);
  }

  lemma LastWorking(m: Bytes)
    requires IsAbc(m)
    ensures Rounds(InitialState(), AbcBlock(m), 64) ==
      Working(0x506e3058, 0xd39a2165, 0x04d24d6c, 0xb85e2ce9, 0x5ef50f24, 0xfb121210, 0x948d25b6, 0x961f4894)
  {
    var w := AbcSchedule(m);
    SameRounds(AbcBlock(m), w, 64);
    AllRounds(w);
    hide Rounds, RoundsOver, Expanded, Schedule;
  }

  lemma LastSums()
    ensures Sum(0x6a09e667, 0x506e3058) == 0xba7816bf
    ensures Sum(0xbb67ae85, 0xd39a2165) == 0x8f01cfea
    ensures Sum(0x3c6ef372, 0x04d24d6c) == 0x414140de
    ensures Sum(0xa54ff53a, 0xb85e2ce9) == 0x5dae2223
    ensures Sum(0x510e527f, 0x5ef50f24) == 0xb00361a3
    ensures Sum(0x9b05688c, 0xfb121210) == 0x96177a9c
    ensures Sum(0x1f83d9ab, 0x948d25b6) == 0xb410ff61
    ensures Sum(0x5be0cd19, 0x961f4894) == 0xf20015ad
  {
  }

  function Totals(s: State, v: Working): State {
    [Sum(s[0], v.a), Sum(s[1], v.b), Sum(s[2], v.c), Sum(s[3], v.d),
     Sum(s[4], v.e), Sum(s[5], v.f), Sum(s[6], v.g), Sum(s[7], v.h)]
  }

  lemma LastTotals()
    ensures Totals(InitialState(),
      Working(0x506e3058, 0xd39a2165, 0x04d24d6c, 0xb85e2ce9, 0x5ef50f24, 0xfb121210, 0x948d25b6, 0x961f4894)) ==
      [0xba7816bf, 0x8f01cfea, 0x414140de, 0x5dae2223, 0xb00361a3, 0x96177a9c, 0xb410ff61, 0xf20015ad]
  {
    LastSums();
    hide Sum;
  }

  lemma FinalState(m: Bytes)
    requires IsAbc(m)
    ensures Absorbed(AbcBlock(m)) ==
      [0xba7816bf, 0x8f01cfea, 0x414140de, 0x5dae2223, 0xb00361a3, 0x96177a9c, 0xb410ff61, 0xf20015ad]
  {
    LastWorking(m);
    LastTotals();
    var block := AbcBlock(m);
    OneBlock(block);
    hide *;
  }

  lemma OneBlock(block: Block)
    ensures Absorbed(block) == Totals(InitialState(), Rounds(InitialState(), block, 64))
  {
    hide Sum, Rounds, InitialState;
    assert block[..|block| - BLOCK_BYTES] == [] && block[|block| - BLOCK_BYTES..] == block;
    assert Absorbed([]) == InitialState();
    assert Absorbed(block) == Compressed(InitialState(), block);
  }

  // ---------------------------------------------------------------------------
  // The digest
  // ---------------------------------------------------------------------------

  lemma EightWords(a: bv32, b: bv32, c: bv32, d: bv32, e: bv32, f: bv32, g: bv32, h: bv32)
    ensures StateBytes([a, b, c, d, e, f, g, h]) ==
      (WordBytes(a) + WordBytes(b) + WordBytes(c) + WordBytes(d)) +
      (WordBytes(e) + WordBytes(f) + WordBytes(g) + WordBytes(h))
  {
    hide WordBytes;
    var s := [a, b, c, d, e, f, g, h];
    FourWords(s[..4]);
    var front := StateBytes(s[..4]);
    assert s[..5][..4] == s[..4] && s[..6][..5] == s[..5] && s[..7][..6] == s[..6] && s[..8] == s;
    assert StateBytes(s[..5]) == front + WordBytes(e);
    assert StateBytes(s[..6]) == front + (WordBytes(e) + WordBytes(f));
    assert StateBytes(s[..7]) == front + (WordBytes(e) + WordBytes(f) + WordBytes(g));
  }

  lemma FourWords(s: seq<bv32>)
    requires |s| == 4
    ensures StateBytes(s) == WordBytes(s[0]) + WordBytes(s[1]) + WordBytes(s[2]) + WordBytes(s[3])
  {
    hide WordBytes;
    assert s[..1][..0] == [] && s[..2][..1] == s[..1] && s[..3][..2] == s[..2];
    assert StateBytes(s[..1]) == WordBytes(s[0]);
    assert StateBytes(s[..2]) == WordBytes(s[0]) + WordBytes(s[1]);
  }

  lemma DigestWords()
    ensures WordBytes(0xba7816bf) == [0xba, 0x78, 0x16, 0xbf]
    ensures WordBytes(0x8f01cfea) == [0x8f, 0x01, 0xcf, 0xea]
    ensures WordBytes(0x414140de) == [0x41, 0x41, 0x40, 0xde]
    ensures WordBytes(0x5dae2223) == [0x5d, 0xae, 0x22, 0x23]
    ensures WordBytes(0xb00361a3) == [0xb0, 0x03, 0x61, 0xa3]
    ensures WordBytes(0x96177a9c) == [0x96, 0x17, 0x7a, 0x9c]
    ensures WordBytes(0xb410ff61) == [0xb4, 0x10, 0xff, 0x61]
    ensures WordBytes(0xf20015ad) == [0xf2, 0x00, 0x15, 0xad]
  {
  }

  lemma JoinedWords()
    ensures [0xba, 0x78, 0x16, 0xbf] + [0x8f, 0x01, 0xcf, 0xea] +
      [0x41, 0x41, 0x40, 0xde] + [0x5d, 0xae, 0x22, 0x23] ==
      [0xba, 0x78, 0x16, 0xbf, 0x8f, 0x01, 0xcf, 0xea, 0x41, 0x41, 0x40, 0xde, 0x5d, 0xae, 0x22, 0x23]
    ensures [0xb0, 0x03, 0x61, 0xa3] + [0x96, 0x17, 0x7a, 0x9c] +
      [0xb4, 0x10, 0xff, 0x61] + [0xf2, 0x00, 0x15, 0xad] ==
      [0xb0, 0x03, 0x61, 0xa3, 0x96, 0x17, 0x7a, 0x9c, 0xb4, 0x10, 0xff, 0x61, 0xf2, 0x00, 0x15, 0xad]
  {
  }

  lemma FinalBytes()
    ensures StateBytes(
      [0xba7816bf, 0x8f01cfea, 0x414140de, 0x5dae2223, 0xb00361a3, 0x96177a9c, 0xb410ff61, 0xf20015ad]) ==
      [0xba, 0x78, 0x16, 0xbf, 0x8f, 0x01, 0xcf, 0xea, 0x41, 0x41, 0x40, 0xde, 0x5d, 0xae, 0x22, 0x23] +
      [0xb0, 0x03, 0x61, 0xa3, 0x96, 0x17, 0x7a, 0x9c, 0xb4, 0x10, 0xff, 0x61, 0xf2, 0x00, 0x15, 0xad]
  {
    DigestWords();
    EightWords(0xba7816bf, 0x8f01cfea, 0x414140de, 0x5dae2223,
               0xb00361a3, 0x96177a9c, 0xb410ff61, 0xf20015ad);
    hide *;
    JoinedWords();
  }

  /** The digest of "abc" is the published one. */
  lemma AbcDigest(m: Bytes)
    requires IsAbc(m)
    ensures Hash(m) ==
      [0xba, 0x78, 0x16, 0xbf, 0x8f, 0x01, 0xcf, 0xea, 0x41, 0x41, 0x40, 0xde, 0x5d, 0xae, 0x22, 0x23] +
      [0xb0, 0x03, 0x61, 0xa3, 0x96, 0x17, 0x7a, 0x9c, 0xb4, 0x10, 0xff, 0x61, 0xf2, 0x00, 0x15, 0xad]
  {
    AbcPadded(m);
    FinalState(m);
    FinalBytes();
    hide StateBytes, Absorbed, Padded, AbcBlock;
  }
}
