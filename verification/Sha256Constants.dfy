/** Where the numbers of SHA-256 come from: the round constants are the first thirty-two bits of the
    fractional parts of the cube roots of the first sixty-four primes (FIPS 180-4, section 4.2.2), the
    initial hash value those of the square roots of the first eight (section 5.3.3). */
module Sha256Constants {
  import CanonicalBytes
  import opened Sha256

  // ---------------------------------------------------------------------------
  // The primes in order
  // ---------------------------------------------------------------------------

  predicate Prime(p: nat) {
    p >= 2 && forall d :: 2 <= d < p ==> p % d != 0
  }

  function PrimesBelow(n: nat): nat {
    if n == 0 then 0 else PrimesBelow(n - 1) + if Prime(n - 1) then 1 else 0
  }

  /** p is the prime with t primes below it. */
  predicate NthPrime(t: nat, p: nat) {
    Prime(p) && PrimesBelow(p) == t
  }

  // ---------------------------------------------------------------------------
  // Roots
  // ---------------------------------------------------------------------------

  /** x is the cube root of p times 2^32, rounded down. */
  predicate CubeRoot(x: nat, p: nat) {
    x * x * x <= p * 0x1_0000_0000_0000_0000_0000_0000 < (x + 1) * (x + 1) * (x + 1)
  }

  /** x is the square root of p times 2^32, rounded down. */
  predicate SquareRoot(x: nat, p: nat) {
    x * x <= p * 0x1_0000_0000_0000_0000 < (x + 1) * (x + 1)
  }

  /** The number with this whole part and this word as the thirty-two bits behind the point, times 2^32. */
  function WithFraction(whole: nat, word: bv32): nat {
    whole * 0x1_0000_0000 + (word as int)
  }

  ghost predicate IsRoundConstant(t: nat)
    requires t < 64
  {
    exists p, whole :: NthPrime(t, p) && CubeRoot(WithFraction(whole, RoundConstant(t)), p)
  }

  ghost predicate IsInitialWord(t: nat)
    requires t < 8
  {
    exists p, whole :: NthPrime(t, p) && SquareRoot(WithFraction(whole, InitialState()[t]), p)
  }

  // ---------------------------------------------------------------------------
  // Finding the primes
  // ---------------------------------------------------------------------------

  /** None of the primes up to 17 that is smaller than p divides p. */
  predicate Undivided(p: nat) {
    && (p <= 2 || p % 2 != 0) && (p <= 3 || p % 3 != 0) && (p <= 5 || p % 5 != 0) && (p <= 7 || p % 7 != 0)
    && (p <= 11 || p % 11 != 0) && (p <= 13 || p % 13 != 0) && (p <= 17 || p % 17 != 0)
  }

  // Nor does any other number up to 17.
  lemma UndividedBy(p: nat, d: nat)
    requires Undivided(p) && 2 <= d < 18 && d < p
    ensures p % d != 0
  {
    if d % 2 == 0 {
      Through(p, d, 2);
    } else if d % 3 == 0 {
      Through(p, d, 3);
    } else {
      assert d == 5 || d == 7 || d == 11 || d == 13 || d == 17;
    }
  }

  lemma Through(p: nat, d: nat, f: nat)
    requires 0 < f <= d && d % f == 0 && p % f != 0
    ensures p % d != 0
  {
    if p % d == 0 {
      var m, n := d / f, p / d;
      assert p == d * n && d == f * m;
      assert p == f * (m * n) + 0;
      CanonicalBytes.DivUnique(p, f, m * n, 0);
    }
  }

  /** Below 18 * 18, dividing by these tells the primes. */
  lemma TrialDivision(p: nat)
    requires 2 <= p < 324
    ensures Prime(p) <==> Undivided(p)
  {
    if Undivided(p) {
      forall d | 2 <= d < p
        ensures p % d != 0
      {
        if p % d == 0 {
          OneIsSmall(p, d);
          UndividedBy(p, if d < 18 then d else p / d);
          assert false;
        }
      }
    }
  }

  lemma OneIsSmall(p: nat, d: nat)
    requires p < 324 && 2 <= d < p && p % d == 0
    ensures 2 <= p / d < p && p % (p / d) == 0 && (d < 18 || p / d < 18)
  {
    var e := p / d;
    assert p == d * e;
    Factors(p, d, e);
    CanonicalBytes.DivUnique(p, e, d, 0);
    Exact(p, e, d);
  }

  lemma Factors(p: nat, d: nat, e: nat)
    requires p == d * e && p < 324 && 2 <= d < p
    ensures 2 <= e < p && (d < 18 || e < 18)
  {
  }

  lemma Exact(p: nat, e: nat, d: nat)
    requires e > 0 && p == d * e && p / e == d
    ensures p % e == 0
  {
    assert p == e * (p / e) + p % e;
  }

  lemma {:induction false} NonePassed(lo: nat, hi: nat)
    requires 2 <= lo <= hi <= 324 && forall n :: lo <= n < hi ==> !Undivided(n)
    ensures PrimesBelow(hi) == PrimesBelow(lo)
    decreases hi
  {
    hide Prime, Undivided;
    if lo < hi {
      NonePassed(lo, hi - 1);
      TrialDivision(hi - 1);
    }
  }

  /** No odd number between p and q is prime; q is at most 14 away. */
  predicate Skips(p: nat, q: nat) {
    && q <= p + 14
    && (p + 2 < q ==> !Undivided(p + 2)) && (p + 4 < q ==> !Undivided(p + 4))
    && (p + 6 < q ==> !Undivided(p + 6)) && (p + 8 < q ==> !Undivided(p + 8))
    && (p + 10 < q ==> !Undivided(p + 10)) && (p + 12 < q ==> !Undivided(p + 12))
  }

  lemma NextPrime(t: nat, p: nat, q: nat)
    requires NthPrime(t, p) && p < q < 324 && Undivided(q)
    requires p % 2 == 1 && Skips(p, q)
    ensures NthPrime(t + 1, q)
  {
    AtLeastTwo(p);
    forall n | p < n < q
      ensures !Undivided(n)
    {
      if n % 2 == 1 {
        Odd(p, n);
      }
    }
    hide Prime, Undivided;
    TrialDivision(q);
    NonePassed(p + 1, q);
  }

  lemma Odd(p: nat, n: nat)
    requires p % 2 == 1 && n % 2 == 1 && p < n < p + 14
    ensures n == p + 2 || n == p + 4 || n == p + 6 || n == p + 8 || n == p + 10 || n == p + 12
  {
  }

  lemma AtLeastTwo(p: nat)
    requires Prime(p)
    ensures p >= 2
  {
  }

  lemma FirstPrimes()
    ensures NthPrime(0, 2) && NthPrime(1, 3)
  {
    assert PrimesBelow(1) == 0;
  }

  // ---------------------------------------------------------------------------
  // The round constants
  // ---------------------------------------------------------------------------

  lemma Primes0()
    ensures NthPrime(0, 2) && NthPrime(1, 3) && NthPrime(2, 5) && NthPrime(3, 7)
    ensures NthPrime(4, 11) && NthPrime(5, 13) && NthPrime(6, 17) && NthPrime(7, 19)
    ensures NthPrime(8, 23)
  {
    hide NthPrime;
    FirstPrimes();
    NextPrime(1, 3, 5);
    NextPrime(2, 5, 7);
    NextPrime(3, 7, 11);
    NextPrime(4, 11, 13);
    NextPrime(5, 13, 17);
    NextPrime(6, 17, 19);
    NextPrime(7, 19, 23);
  }

  lemma Primes8()
    requires NthPrime(8, 23)
    ensures NthPrime(9, 29) && NthPrime(10, 31) && NthPrime(11, 37) && NthPrime(12, 41)
    ensures NthPrime(13, 43) && NthPrime(14, 47) && NthPrime(15, 53) && NthPrime(16, 59)
  {
    hide NthPrime;
    NextPrime(8, 23, 29);
    NextPrime(9, 29, 31);
    NextPrime(10, 31, 37);
    NextPrime(11, 37, 41);
    NextPrime(12, 41, 43);
    NextPrime(13, 43, 47);
    NextPrime(14, 47, 53);
    NextPrime(15, 53, 59);
  }

  lemma Primes16()
    requires NthPrime(16, 59)
    ensures NthPrime(17, 61) && NthPrime(18, 67) && NthPrime(19, 71) && NthPrime(20, 73)
    ensures NthPrime(21, 79) && NthPrime(22, 83) && NthPrime(23, 89) && NthPrime(24, 97)
  {
    hide NthPrime;
    NextPrime(16, 59, 61);
    NextPrime(17, 61, 67);
    NextPrime(18, 67, 71);
    NextPrime(19, 71, 73);
    NextPrime(20, 73, 79);
    NextPrime(21, 79, 83);
    NextPrime(22, 83, 89);
    NextPrime(23, 89, 97);
  }

  lemma Primes24()
    requires NthPrime(24, 97)
    ensures NthPrime(25, 101) && NthPrime(26, 103) && NthPrime(27, 107) && NthPrime(28, 109)
    ensures NthPrime(29, 113) && NthPrime(30, 127) && NthPrime(31, 131) && NthPrime(32, 137)
  {
    hide NthPrime;
    NextPrime(24, 97, 101);
    NextPrime(25, 101, 103);
    NextPrime(26, 103, 107);
    NextPrime(27, 107, 109);
    NextPrime(28, 109, 113);
    NextPrime(29, 113, 127);
    NextPrime(30, 127, 131);
    NextPrime(31, 131, 137);
  }

  lemma Primes32()
    requires NthPrime(32, 137)
    ensures NthPrime(33, 139) && NthPrime(34, 149) && NthPrime(35, 151) && NthPrime(36, 157)
    ensures NthPrime(37, 163) && NthPrime(38, 167) && NthPrime(39, 173) && NthPrime(40, 179)
  {
    hide NthPrime;
    NextPrime(32, 137, 139);
    NextPrime(33, 139, 149);
    NextPrime(34, 149, 151);
    NextPrime(35, 151, 157);
    NextPrime(36, 157, 163);
    NextPrime(37, 163, 167);
    NextPrime(38, 167, 173);
    NextPrime(39, 173, 179);
  }

  lemma Primes40()
    requires NthPrime(40, 179)
    ensures NthPrime(41, 181) && NthPrime(42, 191) && NthPrime(43, 193) && NthPrime(44, 197)
    ensures NthPrime(45, 199) && NthPrime(46, 211) && NthPrime(47, 223) && NthPrime(48, 227)
  {
    hide NthPrime;
    NextPrime(40, 179, 181);
    NextPrime(41, 181, 191);
    NextPrime(42, 191, 193);
    NextPrime(43, 193, 197);
    NextPrime(44, 197, 199);
    NextPrime(45, 199, 211);
    NextPrime(46, 211, 223);
    NextPrime(47, 223, 227);
  }

  lemma Primes48()
    requires NthPrime(48, 227)
    ensures NthPrime(49, 229) && NthPrime(50, 233) && NthPrime(51, 239) && NthPrime(52, 241)
    ensures NthPrime(53, 251) && NthPrime(54, 257) && NthPrime(55, 263) && NthPrime(56, 269)
  {
    hide NthPrime;
    NextPrime(48, 227, 229);
    NextPrime(49, 229, 233);
    NextPrime(50, 233, 239);
    NextPrime(51, 239, 241);
    NextPrime(52, 241, 251);
    NextPrime(53, 251, 257);
    NextPrime(54, 257, 263);
    NextPrime(55, 263, 269);
  }

  lemma Primes56()
    requires NthPrime(56, 269)
    ensures NthPrime(57, 271) && NthPrime(58, 277) && NthPrime(59, 281) && NthPrime(60, 283)
    ensures NthPrime(61, 293) && NthPrime(62, 307) && NthPrime(63, 311)
  {
    hide NthPrime;
    NextPrime(56, 269, 271);
    NextPrime(57, 271, 277);
    NextPrime(58, 277, 281);
    NextPrime(59, 281, 283);
    NextPrime(60, 283, 293);
    NextPrime(61, 293, 307);
    NextPrime(62, 307, 311);
  }

  // The constant with this value, for the prime p whose cube root has this whole part.
  lemma Constant(t: nat, p: nat, whole: nat, value: nat)
    requires t < 64 && NthPrime(t, p)
    requires RoundConstant(t) as int == value && CubeRoot(whole * 0x1_0000_0000 + value, p)
    ensures IsRoundConstant(t)
  {
    hide NthPrime, CubeRoot, RoundConstant;
    assert CubeRoot(WithFraction(whole, RoundConstant(t)), p);
  }

  lemma Constants0()
    requires NthPrime(0, 2) && NthPrime(1, 3) && NthPrime(2, 5) && NthPrime(3, 7)
    ensures forall t :: 0 <= t < 4 ==> IsRoundConstant(t)
  {
    hide IsRoundConstant, NthPrime;
    assert RoundConstant(0) as int == 0x428a2f98;
    Constant(0, 2, 1, 0x428a2f98);
    assert RoundConstant(1) as int == 0x71374491;
    Constant(1, 3, 1, 0x71374491);
    assert RoundConstant(2) as int == 0xb5c0fbcf;
    Constant(2, 5, 1, 0xb5c0fbcf);
    assert RoundConstant(3) as int == 0xe9b5dba5;
    Constant(3, 7, 1, 0xe9b5dba5);
  }

  lemma Constants4()
    requires NthPrime(4, 11) && NthPrime(5, 13) && NthPrime(6, 17) && NthPrime(7, 19)
    ensures forall t :: 4 <= t < 8 ==> IsRoundConstant(t)
  {
    hide IsRoundConstant, NthPrime;
    assert RoundConstant(4) as int == 0x3956c25b;
    Constant(4, 11, 2, 0x3956c25b);
    assert RoundConstant(5) as int == 0x59f111f1;
    Constant(5, 13, 2, 0x59f111f1);
    assert RoundConstant(6) as int == 0x923f82a4;
    Constant(6, 17, 2, 0x923f82a4);
    assert RoundConstant(7) as int == 0xab1c5ed5;
    Constant(7, 19, 2, 0xab1c5ed5);
  }

  lemma Constants8()
    requires NthPrime(8, 23) && NthPrime(9, 29) && NthPrime(10, 31) && NthPrime(11, 37)
    ensures forall t :: 8 <= t < 12 ==> IsRoundConstant(t)
  {
    hide IsRoundConstant, NthPrime;
    assert RoundConstant(8) as int == 0xd807aa98;
    Constant(8, 23, 2, 0xd807aa98);
    assert RoundConstant(9) as int == 0x12835b01;
    Constant(9, 29, 3, 0x12835b01);
    assert RoundConstant(10) as int == 0x243185be;
    Constant(10, 31, 3, 0x243185be);
    assert RoundConstant(11) as int == 0x550c7dc3;
    Constant(11, 37, 3, 0x550c7dc3);
  }

  lemma Constants12()
    requires NthPrime(12, 41) && NthPrime(13, 43) && NthPrime(14, 47) && NthPrime(15, 53)
    ensures forall t :: 12 <= t < 16 ==> IsRoundConstant(t)
  {
    hide IsRoundConstant, NthPrime;
    assert RoundConstant(12) as int == 0x72be5d74;
    Constant(12, 41, 3, 0x72be5d74);
    assert RoundConstant(13) as int == 0x80deb1fe;
    Constant(13, 43, 3, 0x80deb1fe);
    assert RoundConstant(14) as int == 0x9bdc06a7;
    Constant(14, 47, 3, 0x9bdc06a7);
    assert RoundConstant(15) as int == 0xc19bf174;
    Constant(15, 53, 3, 0xc19bf174);
  }

  lemma Constants16()
    requires NthPrime(16, 59) && NthPrime(17, 61) && NthPrime(18, 67) && NthPrime(19, 71)
    ensures forall t :: 16 <= t < 20 ==> IsRoundConstant(t)
  {
    hide IsRoundConstant, NthPrime;
    assert RoundConstant(16) as int == 0xe49b69c1;
    Constant(16, 59, 3, 0xe49b69c1);
    assert RoundConstant(17) as int == 0xefbe4786;
    Constant(17, 61, 3, 0xefbe4786);
    assert RoundConstant(18) as int == 0x0fc19dc6;
    Constant(18, 67, 4, 0x0fc19dc6);
    assert RoundConstant(19) as int == 0x240ca1cc;
    Constant(19, 71, 4, 0x240ca1cc);
  }

  lemma Constants20()
    requires NthPrime(20, 73) && NthPrime(21, 79) && NthPrime(22, 83) && NthPrime(23, 89)
    ensures forall t :: 20 <= t < 24 ==> IsRoundConstant(t)
  {
    hide IsRoundConstant, NthPrime;
    assert RoundConstant(20) as int == 0x2de92c6f;
    Constant(20, 73, 4, 0x2de92c6f);
    assert RoundConstant(21) as int == 0x4a7484aa;
    Constant(21, 79, 4, 0x4a7484aa);
    assert RoundConstant(22) as int == 0x5cb0a9dc;
    Constant(22, 83, 4, 0x5cb0a9dc);
    assert RoundConstant(23) as int == 0x76f988da;
    Constant(23, 89, 4, 0x76f988da);
  }

  lemma Constants24()
    requires NthPrime(24, 97) && NthPrime(25, 101) && NthPrime(26, 103) && NthPrime(27, 107)
    ensures forall t :: 24 <= t < 28 ==> IsRoundConstant(t)
  {
    hide IsRoundConstant, NthPrime;
    assert RoundConstant(24) as int == 0x983e5152;
    Constant(24, 97, 4, 0x983e5152);
    assert RoundConstant(25) as int == 0xa831c66d;
    Constant(25, 101, 4, 0xa831c66d);
    assert RoundConstant(26) as int == 0xb00327c8;
    Constant(26, 103, 4, 0xb00327c8);
    assert RoundConstant(27) as int == 0xbf597fc7;
    Constant(27, 107, 4, 0xbf597fc7);
  }

  lemma Constants28()
    requires NthPrime(28, 109) && NthPrime(29, 113) && NthPrime(30, 127) && NthPrime(31, 131)
    ensures forall t :: 28 <= t < 32 ==> IsRoundConstant(t)
  {
    hide IsRoundConstant, NthPrime;
    assert RoundConstant(28) as int == 0xc6e00bf3;
    Constant(28, 109, 4, 0xc6e00bf3);
    assert RoundConstant(29) as int == 0xd5a79147;
    Constant(29, 113, 4, 0xd5a79147);
    assert RoundConstant(30) as int == 0x06ca6351;
    Constant(30, 127, 5, 0x06ca6351);
    assert RoundConstant(31) as int == 0x14292967;
    Constant(31, 131, 5, 0x14292967);
  }

  lemma Constants32()
    requires NthPrime(32, 137) && NthPrime(33, 139) && NthPrime(34, 149) && NthPrime(35, 151)
    ensures forall t :: 32 <= t < 36 ==> IsRoundConstant(t)
  {
    hide IsRoundConstant, NthPrime;
    assert RoundConstant(32) as int == 0x27b70a85;
    Constant(32, 137, 5, 0x27b70a85);
    assert RoundConstant(33) as int == 0x2e1b2138;
    Constant(33, 139, 5, 0x2e1b2138);
    assert RoundConstant(34) as int == 0x4d2c6dfc;
    Constant(34, 149, 5, 0x4d2c6dfc);
    assert RoundConstant(35) as int == 0x53380d13;
    Constant(35, 151, 5, 0x53380d13);
  }

  lemma Constants36()
    requires NthPrime(36, 157) && NthPrime(37, 163) && NthPrime(38, 167) && NthPrime(39, 173)
    ensures forall t :: 36 <= t < 40 ==> IsRoundConstant(t)
  {
    hide IsRoundConstant, NthPrime;
    assert RoundConstant(36) as int == 0x650a7354;
    Constant(36, 157, 5, 0x650a7354);
    assert RoundConstant(37) as int == 0x766a0abb;
    Constant(37, 163, 5, 0x766a0abb);
    assert RoundConstant(38) as int == 0x81c2c92e;
    Constant(38, 167, 5, 0x81c2c92e);
    assert RoundConstant(39) as int == 0x92722c85;
    Constant(39, 173, 5, 0x92722c85);
  }

  lemma Constants40()
    requires NthPrime(40, 179) && NthPrime(41, 181) && NthPrime(42, 191) && NthPrime(43, 193)
    ensures forall t :: 40 <= t < 44 ==> IsRoundConstant(t)
  {
    hide IsRoundConstant, NthPrime;
    assert RoundConstant(40) as int == 0xa2bfe8a1;
    Constant(40, 179, 5, 0xa2bfe8a1);
    assert RoundConstant(41) as int == 0xa81a664b;
    Constant(41, 181, 5, 0xa81a664b);
    assert RoundConstant(42) as int == 0xc24b8b70;
    Constant(42, 191, 5, 0xc24b8b70);
    assert RoundConstant(43) as int == 0xc76c51a3;
    Constant(43, 193, 5, 0xc76c51a3);
  }

  lemma Constants44()
    requires NthPrime(44, 197) && NthPrime(45, 199) && NthPrime(46, 211) && NthPrime(47, 223)
    ensures forall t :: 44 <= t < 48 ==> IsRoundConstant(t)
  {
    hide IsRoundConstant, NthPrime;
    assert RoundConstant(44) as int == 0xd192e819;
    Constant(44, 197, 5, 0xd192e819);
    assert RoundConstant(45) as int == 0xd6990624;
    Constant(45, 199, 5, 0xd6990624);
    assert RoundConstant(46) as int == 0xf40e3585;
    Constant(46, 211, 5, 0xf40e3585);
    assert RoundConstant(47) as int == 0x106aa070;
    Constant(47, 223, 6, 0x106aa070);
  }

  lemma Constants48()
    requires NthPrime(48, 227) && NthPrime(49, 229) && NthPrime(50, 233) && NthPrime(51, 239)
    ensures forall t :: 48 <= t < 52 ==> IsRoundConstant(t)
  {
    hide IsRoundConstant, NthPrime;
    assert RoundConstant(48) as int == 0x19a4c116;
    Constant(48, 227, 6, 0x19a4c116);
    assert RoundConstant(49) as int == 0x1e376c08;
    Constant(49, 229, 6, 0x1e376c08);
    assert RoundConstant(50) as int == 0x2748774c;
    Constant(50, 233, 6, 0x2748774c);
    assert RoundConstant(51) as int == 0x34b0bcb5;
    Constant(51, 239, 6, 0x34b0bcb5);
  }

  lemma Constants52()
    requires NthPrime(52, 241) && NthPrime(53, 251) && NthPrime(54, 257) && NthPrime(55, 263)
    ensures forall t :: 52 <= t < 56 ==> IsRoundConstant(t)
  {
    hide IsRoundConstant, NthPrime;
    assert RoundConstant(52) as int == 0x391c0cb3;
    Constant(52, 241, 6, 0x391c0cb3);
    assert RoundConstant(53) as int == 0x4ed8aa4a;
    Constant(53, 251, 6, 0x4ed8aa4a);
    assert RoundConstant(54) as int == 0x5b9cca4f;
    Constant(54, 257, 6, 0x5b9cca4f);
    assert RoundConstant(55) as int == 0x682e6ff3;
    Constant(55, 263, 6, 0x682e6ff3);
  }

  lemma Constants56()
    requires NthPrime(56, 269) && NthPrime(57, 271) && NthPrime(58, 277) && NthPrime(59, 281)
    ensures forall t :: 56 <= t < 60 ==> IsRoundConstant(t)
  {
    hide IsRoundConstant, NthPrime;
    assert RoundConstant(56) as int == 0x748f82ee;
    Constant(56, 269, 6, 0x748f82ee);
    assert RoundConstant(57) as int == 0x78a5636f;
    Constant(57, 271, 6, 0x78a5636f);
    assert RoundConstant(58) as int == 0x84c87814;
    Constant(58, 277, 6, 0x84c87814);
    assert RoundConstant(59) as int == 0x8cc70208;
    Constant(59, 281, 6, 0x8cc70208);
  }

  lemma Constants60()
    requires NthPrime(60, 283) && NthPrime(61, 293) && NthPrime(62, 307) && NthPrime(63, 311)
    ensures forall t :: 60 <= t < 64 ==> IsRoundConstant(t)
  {
    hide IsRoundConstant, NthPrime;
    assert RoundConstant(60) as int == 0x90befffa;
    Constant(60, 283, 6, 0x90befffa);
    assert RoundConstant(61) as int == 0xa4506ceb;
    Constant(61, 293, 6, 0xa4506ceb);
    assert RoundConstant(62) as int == 0xbef9a3f7;
    Constant(62, 307, 6, 0xbef9a3f7);
    assert RoundConstant(63) as int == 0xc67178f2;
    Constant(63, 311, 6, 0xc67178f2);
  }

  /** Every round constant is the fraction of a cube root: that of the prime with as many primes below
      it as the constant has constants before it. */
  lemma RoundConstantsAreCubeRoots(t: nat)
    requires t < 64
    ensures exists p, whole :: NthPrime(t, p) && CubeRoot(WithFraction(whole, RoundConstant(t)), p)
  {
    hide NthPrime, CubeRoot, RoundConstant;
    Primes0();
    Primes8();
    Primes16();
    Primes24();
    Primes32();
    Primes40();
    Primes48();
    Primes56();
    Constants0();
    Constants4();
    Constants8();
    Constants12();
    Constants16();
    Constants20();
    Constants24();
    Constants28();
    Constants32();
    Constants36();
    Constants40();
    Constants44();
    Constants48();
    Constants52();
    Constants56();
    Constants60();
    assert IsRoundConstant(t);
  }

  // ---------------------------------------------------------------------------
  // The initial hash value
  // ---------------------------------------------------------------------------

  lemma InitialWord(t: nat, p: nat, whole: nat, value: nat)
    requires t < 8 && NthPrime(t, p)
    requires InitialState()[t] as int == value && SquareRoot(whole * 0x1_0000_0000 + value, p)
    ensures IsInitialWord(t)
  {
    hide NthPrime, SquareRoot, InitialState;
    assert SquareRoot(WithFraction(whole, InitialState()[t]), p);
  }

  /** Every word of the initial hash value is the fraction of a square root, prime by prime. */
  lemma InitialStateIsSquareRoots(t: nat)
    requires t < 8
    ensures exists p, whole :: NthPrime(t, p) && SquareRoot(WithFraction(whole, InitialState()[t]), p)
  {
    hide NthPrime, IsInitialWord;
    Primes0();
    InitialWord(0, 2, 1, 0x6a09e667);
    InitialWord(1, 3, 1, 0xbb67ae85);
    InitialWord(2, 5, 2, 0x3c6ef372);
    InitialWord(3, 7, 2, 0xa54ff53a);
    InitialWord(4, 11, 3, 0x510e527f);
    InitialWord(5, 13, 3, 0x9b05688c);
    InitialWord(6, 17, 4, 0x1f83d9ab);
    InitialWord(7, 19, 4, 0x5be0cd19);
    HasInitialWord(t);
  }

  lemma HasInitialWord(t: nat)
    requires t < 8 && IsInitialWord(t)
    ensures exists p, whole :: NthPrime(t, p) && SquareRoot(WithFraction(whole, InitialState()[t]), p)
  {
  }
}
