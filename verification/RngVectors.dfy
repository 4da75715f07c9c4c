/** The numbers that splitMix64 and the seeded generator are known by. */
module RngVectors {
  import opened Arith
  import opened Bits
  import opened Rng

  // ----- exclusive or, byte by byte -----

  lemma {:induction false} XorLow(a: nat, b: nat, x: nat, y: nat, m: nat)
    requires x < Pow2(m) && y < Pow2(m)
    ensures Xor(Shl(a, m) + x, Shl(b, m) + y) == Shl(Xor(a, b), m) + Xor(x, y)
  {
    if m == 0 {
      assert Xor(0, 0) == 0;
    } else {
      XorLow(a, b, x / 2, y / 2, m - 1);
      ShlStep(a, m);
      ShlStep(b, m);
      ShlStep(Xor(a, b), m);
      LowStep(Shl(a, m - 1), Shl(b, m - 1), x, y);
      hide Xor;
      hide Shl;
    }
  }

  lemma {:induction false} ShlStep(a: nat, m: nat)
    requires m > 0
    ensures Shl(a, m) == 2 * Shl(a, m - 1)
  {
    ShlDoubles(a, m - 1);
  }

  lemma {:induction false} LowStep(a: nat, b: nat, x: nat, y: nat)
    ensures Xor(2 * a + x, 2 * b + y) == 2 * Xor(a + x / 2, b + y / 2) + Xor(x, y) - 2 * Xor(x / 2, y / 2)
  {
    hide Xor;
    XorBit(2 * a + x, 2 * b + y);
    XorBit(x, y);
    assert (2 * a + x) / 2 == a + x / 2 && (2 * b + y) / 2 == b + y / 2;
  }

  lemma {:induction false} XorBit(a: nat, b: nat)
    ensures Xor(a, b) == 2 * Xor(a / 2, b / 2) + if a % 2 == b % 2 then 0 else 1
  {
  }

  lemma {:induction false} ShiftedOut(x: bv8)
    ensures (x as nat) / 2 == (x >> 1) as nat && (x as nat) % 2 == (x & 1) as nat
  {
  }

  lemma {:induction false} LowBits(x: bv8, y: bv8)
    ensures ((x ^ y) & 1) == if (x & 1) == (y & 1) then 0 else 1
    ensures ((x & 1) as nat == (y & 1) as nat) <==> (x & 1) == (y & 1)
  {
  }

  lemma {:induction false} HighBits(x: bv8, y: bv8)
    ensures ((x ^ y) >> 1) == (x >> 1) ^ (y >> 1)
  {
  }

  lemma {:induction false} HalvesOfXor(x: bv8, y: bv8)
    ensures (x ^ y) as nat / 2 == ((x >> 1) ^ (y >> 1)) as nat
    ensures (x ^ y) as nat % 2 == if x as nat % 2 == y as nat % 2 then 0 else 1
  {
    ShiftedOut(x);
    ShiftedOut(y);
    ShiftedOut(x ^ y);
    LowBits(x, y);
    HighBits(x, y);
  }

  lemma {:induction false} NoBits(x: bv8, y: bv8)
    requires x as nat < Pow2(0) && y as nat < Pow2(0)
    ensures Xor(x as nat, y as nat) == 0 && (x ^ y) as nat == 0
  {
  }

  lemma {:induction false} FromHalves(a: nat, b: nat, c: nat)
    requires Xor(a / 2, b / 2) == c / 2 && c % 2 == if a % 2 == b % 2 then 0 else 1
    ensures Xor(a, b) == c
  {
    XorBit(a, b);
    hide Xor;
  }

  /** On a byte it is the machine's. */
  lemma {:induction false} XorOfByte(x: bv8, y: bv8, n: nat)
    requires x as nat < Pow2(n) && y as nat < Pow2(n)
    ensures Xor(x as nat, y as nat) == (x ^ y) as nat
    decreases n
  {
    hide Xor;
    hide Pow2;
    if n == 0 {
      NoBits(x, y);
    } else {
      OneBit(x, y, n);
      XorOfByte(x >> 1, y >> 1, n - 1);
      FromHalves(x as nat, y as nat, (x ^ y) as nat);
    }
  }

  lemma {:induction false} OneBit(x: bv8, y: bv8, n: nat)
    requires n > 0 && x as nat < Pow2(n) && y as nat < Pow2(n)
    ensures (x >> 1) as nat == x as nat / 2 < Pow2(n - 1) && (y >> 1) as nat == y as nat / 2 < Pow2(n - 1)
    ensures (x ^ y) as nat / 2 == ((x >> 1) ^ (y >> 1)) as nat
    ensures (x ^ y) as nat % 2 == if x as nat % 2 == y as nat % 2 then 0 else 1
  {
    ShiftedOut(x);
    ShiftedOut(y);
    HalvesOfXor(x, y);
  }

  /** Four bytes behind a number. */
  function Join(a: nat, b3: bv8, b2: bv8, b1: bv8, b0: bv8): nat {
    0x100 * (0x100 * (0x100 * (0x100 * a + b3 as nat) + b2 as nat) + b1 as nat) + b0 as nat
  }

  lemma {:induction false} XorJoined(a: nat, a3: bv8, a2: bv8, a1: bv8, a0: bv8, b: nat, b3: bv8, b2: bv8, b1: bv8, b0: bv8)
    ensures Xor(Join(a, a3, a2, a1, a0), Join(b, b3, b2, b1, b0)) ==
            Join(Xor(a, b), a3 ^ b3, a2 ^ b2, a1 ^ b1, a0 ^ b0)
  {
    hide Xor;
    var (p3, q3) := (0x100 * a + a3 as nat, 0x100 * b + b3 as nat);
    var (p2, q2) := (0x100 * p3 + a2 as nat, 0x100 * q3 + b2 as nat);
    var (p1, q1) := (0x100 * p2 + a1 as nat, 0x100 * q2 + b1 as nat);
    XorNext(a, b, a3, b3);
    XorNext(p3, q3, a2, b2);
    XorNext(p2, q2, a1, b1);
    XorNext(p1, q1, a0, b0);
  }

  lemma {:induction false} XorLowByte(a: nat, b: nat, x: nat, y: nat)
    requires x < 0x100 && y < 0x100
    ensures Xor(0x100 * a + x, 0x100 * b + y) == 0x100 * Xor(a, b) + Xor(x, y)
  {
    hide Xor;
    hide Shl;
    hide Pow2;
    Eight(a);
    Eight(b);
    Eight(Xor(a, b));
    XorLow(a, b, x, y, 8);
  }

  lemma {:induction false} XorNext(a: nat, b: nat, x: bv8, y: bv8)
    ensures Xor(0x100 * a + x as nat, 0x100 * b + y as nat) == 0x100 * Xor(a, b) + (x ^ y) as nat
  {
    hide *;
    XorLowByte(a, b, x as nat, y as nat);
    Eight(0);
    XorOfByte(x, y, 8);
  }

  lemma {:induction false} Eight(a: nat)
    ensures Shl(a, 8) == 0x100 * a && Pow2(8) == 0x100
  {
    assert Shl(a, 8) == Shl(16 * a, 4);
  }

  lemma {:induction false} ShrDivides(a: nat, k: nat)
    ensures Shr(a, k) == a / Pow2(k)
  {
    if k > 0 {
      ShrDivides(a / 2, k - 1);
      HalfFirst(a, Pow2(k - 1));
    }
  }

  lemma {:induction false} HalfFirst(a: nat, m: nat)
    requires m > 0
    ensures a / 2 / m == a / (2 * m)
  {
    var q, r := a / 2 / m, a / 2 % m;
    DivModDef(a / 2, m);
    assert q * (2 * m) == 2 * (q * m);
    DivModUnique(q, 2 * r + a % 2, 2 * m);
  }

  lemma {:induction false} Shifts()
    ensures Pow2(27) == 0x800_0000 && Pow2(30) == 0x4000_0000 && Pow2(31) == 0x8000_0000
  {
    assert Pow2(8) == 0x100;
    assert Pow2(16) == 0x1_0000;
    assert Pow2(24) == 0x100_0000;
  }

  lemma {:induction false} XorShiftIs(z: u64, k: nat, s: u64)
    requires z / Pow2(k) == s
    ensures XorShift64(z, k) == Xor(z, s)
  {
    ShrDivides(z, k);
  }

  lemma {:induction false} NoneLeft()
    ensures Xor(0, 0) == 0
  {
  }

  lemma {:induction false} FirstBy30()
    ensures XorShift64(0x9e3779b97f4a7c15, 30) == 0x9e3779bb07979af0
  {
    hide Xor;
    hide XorShift64;
    Shifts();
    XorShiftIs(0x9e3779b97f4a7c15, 30, 0x278dde6e5);
    XorJoined(0, 0x9e, 0x37, 0x79, 0xb9, 0, 0x00, 0x00, 0x00, 0x02);
    XorJoined(0x9e3779b9, 0x7f, 0x4a, 0x7c, 0x15, 0x00000002, 0x78, 0xdd, 0xe6, 0xe5);
    NoneLeft();
  }

  lemma {:induction false} FirstBy27()
    ensures XorShift64(0x6f68261b57e7a770, 27) == 0x6f682616bae3641a
  {
    hide Xor;
    hide XorShift64;
    Shifts();
    XorShiftIs(0x6f68261b57e7a770, 27, 0xded04c36a);
    XorJoined(0, 0x6f, 0x68, 0x26, 0x1b, 0, 0x00, 0x00, 0x00, 0x0d);
    XorJoined(0x6f68261b, 0x57, 0xe7, 0xa7, 0x70, 0x0000000d, 0xed, 0x04, 0xc3, 0x6a);
    NoneLeft();
  }

  lemma {:induction false} FirstBy31()
    ensures XorShift64(0xe220a838bf5c9dde, 31) == 0xe220a8397b1dcdaf
  {
    hide Xor;
    hide XorShift64;
    Shifts();
    XorShiftIs(0xe220a838bf5c9dde, 31, 0x1c4415071);
    XorJoined(0, 0xe2, 0x20, 0xa8, 0x38, 0, 0x00, 0x00, 0x00, 0x01);
    XorJoined(0xe220a838, 0xbf, 0x5c, 0x9d, 0xde, 0x00000001, 0xc4, 0x41, 0x50, 0x71);
    NoneLeft();
  }

  lemma {:induction false} SecondBy30()
    ensures XorShift64(0x3c6ef372fe94f82a, 30) == 0x3c6ef3720f2f35e1
  {
    hide Xor;
    hide XorShift64;
    Shifts();
    XorShiftIs(0x3c6ef372fe94f82a, 30, 0xf1bbcdcb);
    XorJoined(0, 0x3c, 0x6e, 0xf3, 0x72, 0, 0x00, 0x00, 0x00, 0x00);
    XorJoined(0x3c6ef372, 0xfe, 0x94, 0xf8, 0x2a, 0x00000000, 0xf1, 0xbb, 0xcd, 0xcb);
    NoneLeft();
  }

  lemma {:induction false} SecondBy27()
    ensures XorShift64(0x2a94fcbfccb43499, 27) == 0x2a94fcba9e2ba360
  {
    hide Xor;
    hide XorShift64;
    Shifts();
    XorShiftIs(0x2a94fcbfccb43499, 27, 0x5529f97f9);
    XorJoined(0, 0x2a, 0x94, 0xfc, 0xbf, 0, 0x00, 0x00, 0x00, 0x05);
    XorJoined(0x2a94fcbf, 0xcc, 0xb4, 0x34, 0x99, 0x00000005, 0x52, 0x9f, 0x97, 0xf9);
    NoneLeft();
  }

  lemma {:induction false} SecondBy31()
    ensures XorShift64(0x6e789e6a7d485920, 31) == 0x6e789e6aa1b965f4
  {
    hide Xor;
    hide XorShift64;
    Shifts();
    XorShiftIs(0x6e789e6a7d485920, 31, 0xdcf13cd4);
    XorJoined(0, 0x6e, 0x78, 0x9e, 0x6a, 0, 0x00, 0x00, 0x00, 0x00);
    XorJoined(0x6e789e6a, 0x7d, 0x48, 0x59, 0x20, 0x00000000, 0xdc, 0xf1, 0x3c, 0xd4);
    NoneLeft();
  }

  lemma {:induction false} MulIs(c: u64, v: u64, w: u64)
    requires c * v % 0x1_0000_0000_0000_0000 == w
    ensures Mul(c, v) == w
  {
  }

  lemma {:induction false} FirstProducts()
    ensures 0xbf58476d1ce4e5b9 * 0x9e3779bb07979af0 % 0x1_0000_0000_0000_0000 == 0x6f68261b57e7a770
    ensures 0x94d049bb133111eb * 0x6f682616bae3641a % 0x1_0000_0000_0000_0000 == 0xe220a838bf5c9dde
  {
  }

  lemma {:induction false} FirstOutput()
    ensures Mix(0x9e3779b97f4a7c15) == 0xe220a8397b1dcdaf
  {
    hide XorShift64;
    hide Mul;
    FirstProducts();
    MulIs(0xbf58476d1ce4e5b9, 0x9e3779bb07979af0, 0x6f68261b57e7a770);
    MulIs(0x94d049bb133111eb, 0x6f682616bae3641a, 0xe220a838bf5c9dde);
    FirstBy30();
    FirstBy27();
    FirstBy31();
  }

  lemma {:induction false} SecondProducts()
    ensures 0xbf58476d1ce4e5b9 * 0x3c6ef3720f2f35e1 % 0x1_0000_0000_0000_0000 == 0x2a94fcbfccb43499
    ensures 0x94d049bb133111eb * 0x2a94fcba9e2ba360 % 0x1_0000_0000_0000_0000 == 0x6e789e6a7d485920
  {
  }

  lemma {:induction false} SecondOutput()
    ensures Mix(0x3c6ef372fe94f82a) == 0x6e789e6aa1b965f4
  {
    hide XorShift64;
    hide Mul;
    SecondProducts();
    MulIs(0xbf58476d1ce4e5b9, 0x3c6ef3720f2f35e1, 0x2a94fcbfccb43499);
    MulIs(0x94d049bb133111eb, 0x2a94fcba9e2ba360, 0x6e789e6a7d485920);
    SecondBy30();
    SecondBy27();
    SecondBy31();
  }

  lemma {:induction false} Increments()
    ensures (0 + 1 * GAMMA) % 0x1_0000_0000_0000_0000 == 0x9e3779b97f4a7c15
    ensures (0 + 2 * GAMMA) % 0x1_0000_0000_0000_0000 == 0x3c6ef372fe94f82a
  {
  }

  /** The first two outputs from seed 0. */
  lemma {:induction false} SplitMixVectors()
    ensures SplitMix(0, 1) == 0xe220a8397b1dcdaf && SplitMix(0, 2) == 0x6e789e6aa1b965f4
  {
    hide Mix;
    Increments();
    FirstOutput();
    SecondOutput();
  }

  lemma {:induction false} StepParts()
    ensures 15241094284759029579 * 0x6e789e6aa1b965f4 % 0x1_0000_0000_0000_0000 == 0x55fcf1b3f366ca7c
    ensures 0x8c57f631269b9845 % 0x20_0000_0000 * 0x800_0000 + 0x8c57f631269b9845 / 0x20_0000_0000 == 0x8934dcc22c62bfb1
  {
  }

  lemma {:induction false} RotationIs()
    ensures Rotl27(Sub(0x6e789e6aa1b965f4, 0xe220a8397b1dcdaf)) == 0x8934dcc22c62bfb1
  {
    assert Sub(0x6e789e6aa1b965f4, 0xe220a8397b1dcdaf) == 0x8c57f631269b9845;
    StepParts();
  }

  /** The first step from there. */
  lemma {:induction false} StepVector()
    ensures Next(State(0xe220a8397b1dcdaf, 0x6e789e6aa1b965f4)) == State(0x55fcf1b3f366ca7c, 0x8934dcc22c62bfb1)
  {
    hide Mul;
    hide Rotl27;
    hide Sub;
    StepParts();
    MulIs(15241094284759029579, 0x6e789e6aa1b965f4, 0x55fcf1b3f366ca7c);
    RotationIs();
  }
}
