/** CRC-32C, the checksum of Appendix B of RFC 4960, as src/hash.cpp computes it. */
module Crc32c {
  import opened CanonicalBytes

  const POLYNOMIAL: bv32 := 0x82F63B78
  const ALL_ONES: bv32 := 0xFFFF_FFFF

  // ---------------------------------------------------------------------------
  // The bit-at-a-time definition
  // ---------------------------------------------------------------------------

  // The word operations are named so that a proof can hide their bits.
  function Xor(a: bv32, b: bv32): bv32 { a ^ b }
  function Half(a: bv32): bv32 { a >> 1 }
  predicate Odd(a: bv32) { a & 1 != 0 }

  function Low(b: Byte): bv32 {
    (b as bv8) as bv32
  }

  /** One division step of the reflected polynomial. */
  function BitStep(c: bv32): bv32 {
    if Odd(c) then Xor(POLYNOMIAL, Half(c)) else Half(c)
  }

  function BitSteps(c: bv32, k: nat): bv32 {
    if k == 0 then c else BitStep(BitSteps(c, k - 1))
  }

  function ByteStep(state: bv32, b: Byte): bv32 {
    BitSteps(Xor(state, Low(b)), 8)
  }

  function Run(state: bv32, data: Bytes): bv32 {
    if data == [] then state else ByteStep(Run(state, data[..|data| - 1]), data[|data| - 1])
  }

  function Extend(seed: bv32, data: Bytes): bv32 {
    Xor(Run(Xor(seed, ALL_ONES), data), ALL_ONES)
  }

  function Crc(data: Bytes): U32 {
    WordAsInt(Extend(0, data))
  }

  function WordAsInt(w: bv32): U32 {
    var v := w as int;
    v
  }

  lemma WordAsIntInjective(x: bv32, y: bv32)
    requires WordAsInt(x) == WordAsInt(y)
    ensures x == y
  {
    WordRoundTrip(x);
    WordRoundTrip(y);
  }

  lemma WordRoundTrip(x: bv32)
    ensures (x as int) as bv32 == x
  {
  }

  lemma LowInjective(a: Byte, b: Byte)
    requires Low(a) == Low(b)
    ensures a == b
  {
    ByteRoundTrip(a);
    ByteRoundTrip(b);
    WidenInjective(a as bv8, b as bv8);
  }

  lemma ByteRoundTrip(a: Byte)
    ensures (a as bv8) as int == a
  {
    var v := Preimage(a);
    IndexRoundTrip(v);
  }

  lemma {:induction false} Preimage(a: Byte) returns (v: bv8)
    ensures v as int == a
  {
    if a == 0 {
      v := 0;
    } else {
      var u := Preimage(a - 1);
      Successor(u);
      v := u + 1;
    }
  }

  lemma Successor(u: bv8)
    requires u as int < 255
    ensures (u + 1) as int == u as int + 1
  {
    assert (255 as bv8) as int == 255;
  }

  lemma WidenInjective(a: bv8, b: bv8)
    requires a as bv32 == b as bv32
    ensures a == b
  {
  }

  // ---------------------------------------------------------------------------
  // Word algebra
  // ---------------------------------------------------------------------------

  lemma XorAssoc(a: bv32, b: bv32, c: bv32)
    ensures Xor(Xor(a, b), c) == Xor(a, Xor(b, c))
  {
  }

  lemma XorComm(a: bv32, b: bv32)
    ensures Xor(a, b) == Xor(b, a)
  {
  }

  lemma XorSelf(a: bv32)
    ensures Xor(a, a) == 0
    ensures Xor(a, 0) == a
    ensures Xor(0, a) == a
  {
  }

  lemma XorZero(a: bv32, b: bv32)
    requires Xor(a, b) == 0
    ensures a == b
  {
  }

  /** (a ^ c) ^ (b ^ d) == (a ^ b) ^ (c ^ d) */
  lemma XorSwap(a: bv32, c: bv32, b: bv32, d: bv32)
    ensures Xor(Xor(a, c), Xor(b, d)) == Xor(Xor(a, b), Xor(c, d))
  {
    hide Xor;
    XorAssoc(a, c, Xor(b, d));
    XorAssoc(c, b, d);
    XorComm(c, b);
    XorAssoc(b, c, d);
    XorAssoc(a, b, Xor(c, d));
  }

  lemma XorCancelRight(a: bv32, b: bv32, c: bv32)
    requires Xor(a, c) == Xor(b, c)
    ensures a == b
  {
    hide Xor;
    XorSwap(a, c, b, c);
    XorSelf(Xor(a, c));
    XorSelf(c);
    XorSelf(Xor(a, b));
    XorZero(a, b);
  }

  lemma HalfXor(a: bv32, b: bv32)
    ensures Half(Xor(a, b)) == Xor(Half(a), Half(b))
  {
  }

  lemma OddXor(a: bv32, b: bv32)
    ensures Odd(Xor(a, b)) == (Odd(a) != Odd(b))
  {
    if a & 1 != 0 {
      if b & 1 != 0 { assert (a ^ b) & 1 == 0; } else { assert (a ^ b) & 1 != 0; }
    } else {
      if b & 1 != 0 { assert (a ^ b) & 1 != 0; } else { assert (a ^ b) & 1 == 0; }
    }
  }

  // ---------------------------------------------------------------------------
  // The step is linear and invertible
  // ---------------------------------------------------------------------------

  lemma BitStepLinear(x: bv32, y: bv32)
    ensures BitStep(Xor(x, y)) == Xor(BitStep(x), BitStep(y))
  {
    hide Xor, Half, Odd;
    var p, a, b := POLYNOMIAL, Half(x), Half(y);
    OddXor(x, y);
    HalfXor(x, y);
    XorSwap(p, a, p, b);
    XorSelf(p);
    XorSelf(Xor(a, b));
    XorAssoc(p, a, b);
    XorAssoc(a, p, b);
    XorComm(a, p);
  }

  lemma {:induction false} BitStepsLinear(x: bv32, y: bv32, k: nat)
    ensures BitSteps(Xor(x, y), k) == Xor(BitSteps(x, k), BitSteps(y, k))
  {
    hide Xor, BitStep;
    if k > 0 {
      BitStepsLinear(x, y, k - 1);
      BitStepLinear(BitSteps(x, k - 1), BitSteps(y, k - 1));
    }
  }

  predicate High(c: bv32) { c & 0x8000_0000 != 0 }
  function Double(c: bv32): bv32 { c << 1 }
  function DoubleAndOne(c: bv32): bv32 { (c << 1) | 1 }

  function BitUnstep(c: bv32): bv32 {
    if High(c) then DoubleAndOne(Xor(c, POLYNOMIAL)) else Double(c)
  }

  /** The division step is a bijection of the 32-bit state: BitUnstep undoes it on both sides. */
  lemma BitStepBijective(c: bv32)
    ensures BitUnstep(BitStep(c)) == c
    ensures BitStep(BitUnstep(c)) == c
  {
    UnstepStep(c);
    StepUnstep(c);
  }

  lemma UnstepStep(c: bv32)
    ensures BitUnstep(BitStep(c)) == c
  {
    hide Xor, Half, Odd, High, Double, DoubleAndOne;
    HalfIsLow(c);
    XorComm(POLYNOMIAL, Half(c));
    XorAssoc(Half(c), POLYNOMIAL, POLYNOMIAL);
    XorSelf(POLYNOMIAL);
    XorSelf(Half(c));
  }

  lemma StepUnstep(c: bv32)
    ensures BitStep(BitUnstep(c)) == c
  {
    hide Xor, Half, Odd, High, Double, DoubleAndOne;
    HighToLow(c);
    XorComm(POLYNOMIAL, Xor(c, POLYNOMIAL));
    XorAssoc(c, POLYNOMIAL, POLYNOMIAL);
    XorSelf(POLYNOMIAL);
    XorSelf(c);
  }

  lemma HalfIsLow(c: bv32)
    ensures !High(Half(c)) && High(Xor(POLYNOMIAL, Half(c)))
    ensures if Odd(c) then DoubleAndOne(Half(c)) == c else Double(Half(c)) == c
  {
    HalfBits(c);
    if c & 1 != 0 {
      OddHalf(c);
    } else {
      EvenHalf(c);
    }
  }

  lemma HalfBits(c: bv32)
    ensures (c >> 1) & 0x8000_0000 == 0
    ensures (0x82F63B78 ^ (c >> 1)) & 0x8000_0000 != 0
  {
  }

  lemma OddHalf(c: bv32)
    requires c & 1 != 0
    ensures ((c >> 1) << 1) | 1 == c
  {
  }

  lemma EvenHalf(c: bv32)
    requires c & 1 == 0
    ensures (c >> 1) << 1 == c
  {
  }

  lemma HighToLow(c: bv32)
    ensures High(c) ==>
      Odd(DoubleAndOne(Xor(c, POLYNOMIAL))) && Half(DoubleAndOne(Xor(c, POLYNOMIAL))) == Xor(c, POLYNOMIAL)
    ensures !High(c) ==> !Odd(Double(c)) && Half(Double(c)) == c
  {
    if c & 0x8000_0000 != 0 {
      HighCleared(c);
      DoubledAndOne(c ^ 0x82F63B78);
    } else {
      Doubled(c);
    }
  }

  lemma HighCleared(c: bv32)
    requires c & 0x8000_0000 != 0
    ensures (c ^ 0x82F63B78) & 0x8000_0000 == 0
  {
  }

  lemma DoubledAndOne(c: bv32)
    requires c & 0x8000_0000 == 0
    ensures ((c << 1) | 1) & 1 != 0 && ((c << 1) | 1) >> 1 == c
  {
  }

  lemma Doubled(c: bv32)
    requires c & 0x8000_0000 == 0
    ensures (c << 1) & 1 == 0 && (c << 1) >> 1 == c
  {
  }

  lemma {:induction false} BitStepsInjective(x: bv32, y: bv32, k: nat)
    requires BitSteps(x, k) == BitSteps(y, k)
    ensures x == y
  {
    hide BitStep, BitUnstep;
    if k > 0 {
      BitStepBijective(BitSteps(x, k - 1));
      BitStepBijective(BitSteps(y, k - 1));
      BitStepsInjective(x, y, k - 1);
    }
  }

  // ---------------------------------------------------------------------------
  // The table-driven implementation
  // ---------------------------------------------------------------------------

  method MakeTable() returns (table: array<bv32>)
    ensures fresh(table) && table.Length == 256
    ensures forall i: Byte :: table[i] == BitSteps(Low(i), 8)
  {
    table := new bv32[256];
    for i := 0 to 256
      invariant forall j: Byte :: j < i ==> table[j] == BitSteps(Low(j), 8)
    {
      var c := Low(i);
      for k := 0 to 8
        invariant c == BitSteps(Low(i), k)
        invariant forall j: Byte :: j < i ==> table[j] == BitSteps(Low(j), 8)
      {
        c := if Odd(c) then Xor(POLYNOMIAL, Half(c)) else Half(c);
      }
      table[i] := c;
    }
  }

  // The table index and the shifted state of one look-up.
  function Index(crc: bv32, b: Byte): Byte {
    var i := (Xor(crc, Low(b)) & 0xff) as bv8;
    i as int
  }

  function Shifted(crc: bv32): bv32 { crc >> 8 }

  /** crc32c_extend: one table look-up a byte computes eight division steps a byte. */
  method ExtendByTable(table: array<bv32>, seed: bv32, data: Bytes) returns (r: bv32)
    requires table.Length == 256
    requires forall i: Byte :: table[i] == BitSteps(Low(i), 8)
    ensures r == Extend(seed, data)
  {
    hide Xor, Shifted, Low, BitSteps, ByteStep, Index;
    var crc := Xor(seed, ALL_ONES);
    for i := 0 to |data|
      invariant crc == Run(Xor(seed, ALL_ONES), data[..i])
    {
      assert data[..i + 1][..i] == data[..i];
      TableStep(crc, data[i]);
      crc := Xor(table[Index(crc, data[i])], Shifted(crc));
    }
    assert data[..|data|] == data;
    r := Xor(crc, ALL_ONES);
  }

  /** The table step is eight division steps. */
  lemma TableStep(crc: bv32, b: Byte)
    ensures Xor(BitSteps(Low(Index(crc, b)), 8), Shifted(crc)) == ByteStep(crc, b)
  {
    hide Xor, Shifted, Low, BitSteps, Index;
    var x := Xor(crc, Low(b));
    IndexedByte(crc, b);
    SplitLow(x);
    BitStepsLinear(x & 0xff, x & 0xffff_ff00, 8);
    ZeroBitsShiftOut(x & 0xffff_ff00);
    SameShift(crc, b);
  }

  lemma IndexedByte(crc: bv32, b: Byte)
    ensures Low(Index(crc, b)) == Xor(crc, Low(b)) & 0xff
  {
    hide Xor, Low;
    var x := Xor(crc, Low(b));
    LowOfIndex((x & 0xff) as bv8);
    NarrowWiden(x);
  }

  lemma LowOfIndex(i: bv8)
    ensures Low(i as int) == i as bv32
  {
    hide *;
    IndexRoundTrip(i);
    LowOf(i as int, i);
  }

  lemma LowOf(b: Byte, i: bv8)
    requires b as bv8 == i
    ensures Low(b) == i as bv32
  {
  }

  lemma IndexRoundTrip(i: bv8)
    ensures (i as int) as bv8 == i
  {
  }

  lemma NarrowWiden(x: bv32)
    ensures ((x & 0xff) as bv8) as bv32 == x & 0xff
  {
  }

  lemma SplitLow(x: bv32)
    ensures Xor(x & 0xff, x & 0xffff_ff00) == x
    ensures (x & 0xffff_ff00) & 0xff == 0
    ensures Shifted(x & 0xffff_ff00) == Shifted(x)
  {
  }

  lemma SameShift(crc: bv32, b: Byte)
    ensures Shifted(Xor(crc, Low(b))) == Shifted(crc)
  {
    LowByteShiftsOut(crc, b as bv8);
  }

  lemma LowByteShiftsOut(crc: bv32, b: bv8)
    ensures (crc ^ (b as bv32)) >> 8 == crc >> 8
  {
  }

  /** Eight steps on a state whose low byte is zero only shift. */
  lemma ZeroBitsShiftOut(x: bv32)
    requires x & 0xff == 0
    ensures BitSteps(x, 8) == Shifted(x)
  {
    hide BitSteps;
    EightZeros(x);
    FourSteps(x);
    FourSteps(x >> 4);
    BitStepsCompose(x, 4, 4);
  }

  lemma EightZeros(x: bv32)
    requires x & 0xff == 0
    ensures x & 0xf == 0 && (x >> 4) & 0xf == 0 && (x >> 4) >> 4 == x >> 8
  {
  }

  lemma FourSteps(x: bv32)
    requires x & 0xf == 0
    ensures BitSteps(x, 4) == x >> 4
  {
    hide BitSteps;
    FourZeros(x);
    TwoSteps(x);
    TwoSteps(x >> 2);
    BitStepsCompose(x, 2, 2);
  }

  lemma FourZeros(x: bv32)
    requires x & 0xf == 0
    ensures x & 3 == 0 && (x >> 2) & 3 == 0 && (x >> 2) >> 2 == x >> 4
  {
  }

  lemma TwoSteps(x: bv32)
    requires x & 3 == 0
    ensures BitSteps(x, 2) == x >> 2
  {
    hide BitStep;
    TwoZeros(x);
    EvenStep(x);
    EvenStep(x >> 1);
    assert BitSteps(x, 1) == x >> 1;
  }

  lemma TwoZeros(x: bv32)
    requires x & 3 == 0
    ensures x & 1 == 0 && (x >> 1) & 1 == 0 && (x >> 1) >> 1 == x >> 2
  {
  }

  lemma EvenStep(c: bv32)
    requires c & 1 == 0
    ensures BitStep(c) == c >> 1
  {
  }

  lemma {:induction false} BitStepsCompose(x: bv32, a: nat, b: nat)
    ensures BitSteps(BitSteps(x, a), b) == BitSteps(x, a + b)
  {
    hide BitStep;
    if b > 0 {
      BitStepsCompose(x, a, b - 1);
    }
  }

  // ---------------------------------------------------------------------------
  // Runs over byte strings
  // ---------------------------------------------------------------------------

  lemma {:induction false} RunConcat(s: bv32, a: Bytes, b: Bytes)
    ensures Run(s, a + b) == Run(Run(s, a), b)
  {
    hide ByteStep;
    if b == [] {
      assert a + b == a;
    } else {
      RunConcat(s, a, b[..|b| - 1]);
      assert (a + b)[..|a + b| - 1] == a + b[..|b| - 1];
    }
  }

  /** Extending a checksum continues it: crc(a ++ b) from crc(a) alone. */
  lemma ExtendConcat(seed: bv32, a: Bytes, b: Bytes)
    ensures Extend(Extend(seed, a), b) == Extend(seed, a + b)
  {
    hide Xor, Run;
    var s := Run(Xor(seed, ALL_ONES), a);
    RunConcat(Xor(seed, ALL_ONES), a, b);
    XorAssoc(s, ALL_ONES, ALL_ONES);
    XorSelf(ALL_ONES);
    XorSelf(s);
  }

  lemma {:induction false} RunInjective(s: bv32, t: bv32, data: Bytes)
    requires Run(s, data) == Run(t, data)
    ensures s == t
  {
    if data != [] {
      hide Xor, Low, BitSteps;
      var n := |data| - 1;
      var x, y := Run(s, data[..n]), Run(t, data[..n]);
      BitStepsInjective(Xor(x, Low(data[n])), Xor(y, Low(data[n])), 8);
      XorCancelRight(x, y, Low(data[n]));
      RunInjective(s, t, data[..n]);
    }
  }

  // ---------------------------------------------------------------------------
  // Bursts
  // ---------------------------------------------------------------------------

  // The difference of two runs obeys the step on the difference of the bytes.
  lemma DifferenceStep(s: bv32, t: bv32, a: Byte, b: Byte)
    ensures Xor(ByteStep(s, a), ByteStep(t, b)) == BitSteps(Xor(Xor(s, t), Xor(Low(a), Low(b))), 8)
  {
    hide Xor, Low, BitSteps;
    BitStepsLinear(Xor(s, Low(a)), Xor(t, Low(b)), 8);
    XorSwap(s, Low(a), t, Low(b));
  }

  function Raised(d: bv32): bv32 { d << 8 }

  // A difference confined to its low 24 bits came from itself shifted up.
  lemma StepsBack(d: bv32, e: bv32)
    requires BitSteps(e, 8) == d && d <= 0xff_ffff
    ensures e == Raised(d)
  {
    hide BitSteps;
    RaisedShifts(d);
    ZeroBitsShiftOut(Raised(d));
    BitStepsInjective(e, Raised(d), 8);
  }

  lemma RaisedShifts(d: bv32)
    requires d <= 0xff_ffff
    ensures Raised(d) & 0xff == 0 && Shifted(Raised(d)) == d
  {
  }

  /** Four byte differences that cancel out are all zero. */
  lemma NoCancellation(d1: bv32, d2: bv32, d3: bv32, b0: bv32, b1: bv32, b2: bv32, b3: bv32)
    requires b0 <= 0xff && b1 <= 0xff && b2 <= 0xff && b3 <= 0xff
    requires d1 == BitSteps(b0, 8)
    requires d2 == BitSteps(Xor(d1, b1), 8)
    requires d3 == BitSteps(Xor(d2, b2), 8)
    requires Xor(d3, b3) == 0
    ensures b0 == b1 == b2 == b3 == 0
  {
    hide Xor, BitSteps, Raised;
    XorZero(d3, b3);
    StepsBack(d3, Xor(d2, b2));
    Peel(d2, b2, d3, 0xff, 0xffff);
    StepsBack(d2, Xor(d1, b1));
    Peel(d1, b1, d2, 0xffff, 0xff_ffff);
    StepsBack(d1, b0);
    LowIsNotRaised(b0, d1);
    XorSelf(b1);
    LowIsNotRaised(b1, d2);
    XorSelf(b2);
    LowIsNotRaised(b2, d3);
  }

  lemma Peel(d: bv32, b: bv32, e: bv32, bound: bv32, next: bv32)
    requires (bound == 0xff && next == 0xffff) || (bound == 0xffff && next == 0xff_ffff)
    requires b <= 0xff && e <= bound && Xor(d, b) == Raised(e)
    ensures d <= next
  {
    assert d == (e << 8) ^ b;
  }

  lemma LowIsNotRaised(b: bv32, d: bv32)
    requires b <= 0xff && d <= 0xff_ffff && b == Raised(d)
    ensures b == 0 && d == 0
  {
  }

  lemma DifferenceIsByte(a: Byte, b: Byte)
    ensures Xor(Low(a), Low(b)) <= 0xff
    ensures Xor(Low(a), Low(b)) == 0 ==> a == b
  {
    NarrowXor(a as bv8, b as bv8);
    if Xor(Low(a), Low(b)) == 0 {
      XorZero(Low(a), Low(b));
      LowInjective(a, b);
    }
  }

  lemma NarrowXor(a: bv8, b: bv8)
    ensures (a as bv32) ^ (b as bv32) <= 0xff
  {
  }

  lemma FourBytes(s: bv32, p: Bytes, q: Bytes)
    requires |p| == |q| == 4
    requires Run(s, p) == Run(s, q)
    ensures p == q
  {
    hide Xor, Low, BitSteps, ByteStep, Run;
    var s1, t1 := Run(s, p[..1]), Run(s, q[..1]);
    var s2, t2 := Run(s, p[..2]), Run(s, q[..2]);
    var s3, t3 := Run(s, p[..3]), Run(s, q[..3]);
    OneByte(s, p, 0);
    OneByte(s, q, 0);
    OneByte(s, p, 1);
    OneByte(s, q, 1);
    OneByte(s, p, 2);
    OneByte(s, q, 2);
    OneByte(s, p, 3);
    OneByte(s, q, 3);
    assert p[..4] == p && q[..4] == q;
    var b0, b1 := Xor(Low(p[0]), Low(q[0])), Xor(Low(p[1]), Low(q[1]));
    var b2, b3 := Xor(Low(p[2]), Low(q[2])), Xor(Low(p[3]), Low(q[3]));
    DifferenceStep(s, s, p[0], q[0]);
    DifferenceStep(s1, t1, p[1], q[1]);
    DifferenceStep(s2, t2, p[2], q[2]);
    DifferenceStep(s3, t3, p[3], q[3]);
    XorSelf(s);
    XorSelf(b0);
    XorSelf(Run(s, p));
    ZeroSteps(8);
    BitStepsInjective(Xor(Xor(s3, t3), b3), 0, 8);
    DifferenceIsByte(p[0], q[0]);
    DifferenceIsByte(p[1], q[1]);
    DifferenceIsByte(p[2], q[2]);
    DifferenceIsByte(p[3], q[3]);
    NoCancellation(Xor(s1, t1), Xor(s2, t2), Xor(s3, t3), b0, b1, b2, b3);
  }

  lemma OneByte(s: bv32, p: Bytes, i: nat)
    requires i < |p|
    ensures Run(s, p[..i + 1]) == ByteStep(Run(s, p[..i]), p[i])
    ensures i == 0 ==> Run(s, p[..i]) == s
  {
    hide ByteStep;
    assert p[..i + 1][..i] == p[..i];
  }

  lemma {:induction false} ZeroSteps(k: nat)
    ensures BitSteps(0, k) == 0
  {
    if k > 0 {
      ZeroSteps(k - 1);
      XorSelf(0);
    }
  }

  /** Two strings of one length that differ only inside four consecutive bytes have
      different checksums. */
  lemma BurstDetected(p: Bytes, q: Bytes, start: nat)
    requires |p| == |q| && p != q
    requires forall k :: 0 <= k < |p| && !(start <= k < start + 4) ==> p[k] == q[k]
    ensures Crc(p) != Crc(q)
  {
    hide *;
    if Crc(p) == Crc(q) {
      BurstRecovered(p, q, start);
    }
  }

  lemma BurstRecovered(p: Bytes, q: Bytes, start: nat)
    requires |p| == |q| && Crc(p) == Crc(q)
    requires forall k :: 0 <= k < |p| && !(start <= k < start + 4) ==> p[k] == q[k]
    ensures p == q
  {
    hide Xor, Run;
    var s := Xor(0, ALL_ONES);
    WordAsIntInjective(Extend(0, p), Extend(0, q));
    XorCancelRight(Run(s, p), Run(s, q), ALL_ONES);
    var i := if start <= |p| then start else |p|;
    var j := if start + 4 <= |p| then start + 4 else |p|;
    var head, a, b, tail := p[..i], p[i..j], q[i..j], p[j..];
    assert q[..i] == head && q[j..] == tail;
    assert p == (head + a) + tail;
    assert q == (head + b) + tail;
    RunConcat(s, head + a, tail);
    RunConcat(s, head + b, tail);
    RunInjective(Run(s, head + a), Run(s, head + b), tail);
    RunConcat(s, head, a);
    RunConcat(s, head, b);
    WindowRecovered(Run(s, head), a, b);
  }

  lemma WindowRecovered(t: bv32, a: Bytes, b: Bytes)
    requires |a| == |b| <= 4 && Run(t, a) == Run(t, b)
    ensures a == b
  {
    hide Run;
    var pad: Bytes := seq(4 - |a|, _ => 0);
    RunConcat(t, a, pad);
    RunConcat(t, b, pad);
    FourBytes(t, a + pad, b + pad);
    assert a == (a + pad)[..|a|];
    assert b == (b + pad)[..|a|];
  }

  // ---------------------------------------------------------------------------
  // The published check value
  // ---------------------------------------------------------------------------

  const DIGITS: Bytes := [0x31, 0x32, 0x33, 0x34, 0x35, 0x36, 0x37, 0x38, 0x39] // "123456789"

  lemma CheckSteps()
    ensures ByteStep(0xffffffff, 0x31) == 0x6f0a661c
    ensures ByteStep(0x6f0a661c, 0x32) == 0x8caa3b9f
    ensures ByteStep(0x8caa3b9f, 0x33) == 0xef84d04d
    ensures ByteStep(0xef84d04d, 0x34) == 0x09c50b11
    ensures ByteStep(0x09c50b11, 0x35) == 0xe72edcca
    ensures ByteStep(0xe72edcca, 0x36) == 0xbeca8e79
    ensures ByteStep(0xbeca8e79, 0x37) == 0xedbd6815
    ensures ByteStep(0xedbd6815, 0x38) == 0x9f787f65
    ensures ByteStep(0x9f787f65, 0x39) == 0x1cf96d7c
  {
  }

  // The last byte of a prefix of the digits.
  lemma DigitStep(i: nat, s: bv32, t: bv32)
    requires i < 9 && Run(ALL_ONES, DIGITS[..i]) == s && ByteStep(s, DIGITS[i]) == t
    ensures Run(ALL_ONES, DIGITS[..i + 1]) == t
  {
    hide ByteStep;
    assert DIGITS[..i + 1][..i] == DIGITS[..i];
  }

  /** The check value of CRC-32C: the checksum of the nine digits is 0xE3069283. */
  lemma CheckValue()
    ensures Crc(DIGITS) == 0xE3069283
  {
    CheckSteps();
    hide ByteStep;
    DigitStep(0, 0xffffffff, 0x6f0a661c);
    DigitStep(1, 0x6f0a661c, 0x8caa3b9f);
    DigitStep(2, 0x8caa3b9f, 0xef84d04d);
    DigitStep(3, 0xef84d04d, 0x09c50b11);
    DigitStep(4, 0x09c50b11, 0xe72edcca);
    DigitStep(5, 0xe72edcca, 0xbeca8e79);
    DigitStep(6, 0xbeca8e79, 0xedbd6815);
    DigitStep(7, 0xedbd6815, 0x9f787f65);
    DigitStep(8, 0x9f787f65, 0x1cf96d7c);
    assert DIGITS[..9] == DIGITS;
    assert Xor(0, ALL_ONES) == ALL_ONES;
  }
}
