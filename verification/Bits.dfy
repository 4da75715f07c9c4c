/** Natural numbers as bit strings. */
module Bits {

  /** Bitwise exclusive or. */
  function Xor(a: nat, b: nat): nat {
    if a == 0 && b == 0 then 0
    else 2 * Xor(a / 2, b / 2) + if a % 2 == b % 2 then 0 else 1
  }

  function Shr(a: nat, k: nat): nat {
    if k == 0 then a else Shr(a / 2, k - 1)
  }

  lemma {:induction false} XorSelfInverse(a: nat, b: nat)
    ensures Xor(Xor(a, b), b) == a
  {
    if a != 0 || b != 0 {
      XorSelfInverse(a / 2, b / 2);
      var x := Xor(a, b);
      assert x / 2 == Xor(a / 2, b / 2);
      assert x != 0 || b != 0;
    }
  }

  lemma {:induction false} XorBelow(a: nat, b: nat, m: nat)
    requires a < Pow2(m) && b < Pow2(m)
    ensures Xor(a, b) < Pow2(m)
  {
    if a != 0 || b != 0 {
      assert m > 0;
      XorBelow(a / 2, b / 2, m - 1);
    }
  }

  function Pow2(m: nat): (p: nat)
    ensures p > 0
  {
    if m == 0 then 1 else 2 * Pow2(m - 1)
  }

  lemma {:induction false} ShrXor(a: nat, b: nat, k: nat)
    ensures Shr(Xor(a, b), k) == Xor(Shr(a, k), Shr(b, k))
  {
    if k > 0 {
      assert Xor(a, b) / 2 == Xor(a / 2, b / 2);
      ShrXor(a / 2, b / 2, k - 1);
    }
  }

  lemma {:induction false} ShrSmaller(a: nat, k: nat)
    ensures Shr(a, k) <= a && (a > 0 && k > 0 ==> Shr(a, k) < a)
  {
    if k > 0 { ShrSmaller(a / 2, k - 1); }
  }

  // ----- bit sequences, highest bit first -----

  /** The lowest n bits of v. */
  function BitsOf(v: nat, n: nat): (bs: seq<bool>)
    ensures |bs| == n
  {
    if n == 0 then [] else BitsOf(v / 2, n - 1) + [v % 2 == 1]
  }

  function FromBits(bs: seq<bool>): nat {
    if bs == [] then 0 else 2 * FromBits(bs[..|bs| - 1]) + if bs[|bs| - 1] then 1 else 0
  }

  lemma {:induction false} FromBitsOf(v: nat, n: nat)
    requires v < Pow2(n)
    ensures FromBits(BitsOf(v, n)) == v
  {
    if n > 0 {
      FromBitsOf(v / 2, n - 1);
      assert BitsOf(v, n)[..n - 1] == BitsOf(v / 2, n - 1);
    }
  }

  lemma {:induction false} FromBitsBelow(bs: seq<bool>)
    ensures FromBits(bs) < Pow2(|bs|)
  {
    if bs != [] { FromBitsBelow(bs[..|bs| - 1]); }
  }

  /** One bit less shifted out is that bit behind the others. */
  lemma {:induction false} ShrOnce(v: nat, k: nat)
    ensures Shr(v, k) / 2 == Shr(v, k + 1)
  {
    if k > 0 { ShrOnce(v / 2, k - 1); }
  }

  /** Shifting drops the last bits. */
  lemma {:induction false} ShrFromBits(bs: seq<bool>, k: nat)
    requires k <= |bs|
    ensures Shr(FromBits(bs), k) == FromBits(bs[..|bs| - k])
    decreases k
  {
    if k == 0 {
      assert bs[..|bs|] == bs;
    } else {
      ShrFromBits(bs[..|bs| - 1], k - 1);
      assert bs[..|bs| - 1][..|bs| - k] == bs[..|bs| - k];
      assert FromBits(bs) / 2 == FromBits(bs[..|bs| - 1]);
    }
  }

  /** x << k */
  function Shl(x: nat, k: nat): nat
    decreases k
  {
    if k == 0 then x else Shl(2 * x, k - 1)
  }

  lemma {:induction false} ShlBelow(x: nat, k: nat, m: nat)
    requires x < Pow2(m)
    ensures Shl(x, k) < Pow2(m + k)
    decreases k
  {
    if k > 0 { ShlBelow(2 * x, k - 1, m + 1); }
  }

  lemma {:induction false} ShrOfShl(x: nat, m: nat, n: nat)
    requires m <= n
    ensures Shr(Shl(x, m), n) == Shr(x, n - m)
    decreases m
  {
    if m > 0 {
      ShrOfShl(2 * x, m - 1, n);
      assert 2 * x / 2 == x;
      assert Shr(2 * x, n - (m - 1)) == Shr(x, n - m);
    }
  }

  lemma {:induction false} ShrOfLongerShl(x: nat, m: nat, n: nat)
    requires n < m
    ensures Shr(Shl(x, m), n) == Shl(x, m - n) && Shl(x, m - n) % 2 == 0
    decreases n
  {
    ShlDoubles(x, m - 1);
    if n == 0 {
      assert Shl(x, m) == Shl(2 * x, m - 1) == 2 * Shl(x, m - 1);
    } else {
      assert Shl(x, m) == Shl(2 * x, m - 1) == 2 * Shl(x, m - 1);
      assert Shl(x, m) / 2 == Shl(x, m - 1);
      ShrOfLongerShl(x, m - 1, n - 1);
    }
  }

  lemma {:induction false} ShlAdd(x: nat, y: nat, k: nat)
    ensures Shl(x + y, k) == Shl(x, k) + Shl(y, k)
    decreases k
  {
    if k > 0 { ShlAdd(2 * x, 2 * y, k - 1); }
  }

  // ----- leading and trailing zeros -----

  /** How many bits x takes. */
  function Length(x: nat): nat {
    if x == 0 then 0 else 1 + Length(x / 2)
  }

  function TrailingZeros(x: nat): nat
    requires x > 0
  {
    if x % 2 == 1 then 0 else 1 + TrailingZeros(x / 2)
  }

  lemma {:induction false} LengthFits(x: nat, m: nat)
    ensures x < Pow2(Length(x)) && (x < Pow2(m) ==> Length(x) <= m) && (x > 0 ==> Length(x) > 0)
  {
    if x > 0 {
      if m > 0 { LengthFits(x / 2, m - 1); } else { LengthFits(x / 2, 0); }
    }
  }

  lemma {:induction false} TrailingBelowLength(x: nat)
    requires x > 0
    ensures TrailingZeros(x) < Length(x)
  {
    if x % 2 == 0 { TrailingBelowLength(x / 2); }
  }

  /** Zeros at the end can be shifted out and in again. */
  lemma {:induction false} ShlOfShr(x: nat, k: nat)
    requires x == 0 || k <= TrailingZeros(x)
    ensures Shl(Shr(x, k), k) == x
  {
    if k > 0 {
      if x > 0 { ShlOfShr(x / 2, k - 1); } else { ShlOfShr(0, k - 1); }
      ShlDoubles(Shr(x / 2, k - 1), k - 1);
    }
  }

  lemma {:induction false} ShlDoubles(x: nat, k: nat)
    ensures Shl(2 * x, k) == 2 * Shl(x, k)
    decreases k
  {
    if k > 0 { ShlDoubles(2 * x, k - 1); }
  }

  lemma {:induction false} ShrBelow(x: nat, k: nat, m: nat)
    requires x < Pow2(m + k)
    ensures Shr(x, k) < Pow2(m)
  {
    if k > 0 { ShrBelow(x / 2, k - 1, m); }
  }
}
