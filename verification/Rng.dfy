/** nanobench's RomuDuoJr generator, its splitMix64 seeding and the in-place shuffle.
    A uint64_t is a natural number below 2^64; products and sums wrap explicitly. */
module Rng {
  import opened Common
  import opened Arith
  import opened Bits

  const U32: nat := 0x1_0000_0000

  type u64 = n: nat | n < 0x1_0000_0000_0000_0000 witness 0

  const ROMU: u64 := 15241094284759029579
  const GAMMA: u64 := 0x9e3779b97f4a7c15
  const MIX1: u64 := 0xbf58476d1ce4e5b9
  const MIX2: u64 := 0x94d049bb133111eb

  datatype State = State(x: u64, y: u64)

  const ZERO := State(0, 0)

  // ----- the step -----

  /** (v << 27) | (v >> 37): the two halves do not overlap. */
  function Rotl27(v: u64): u64 {
    v % 0x20_0000_0000 * 0x800_0000 + v / 0x20_0000_0000
  }

  function Rotr27(v: u64): u64 {
    v % 0x800_0000 * 0x20_0000_0000 + v / 0x800_0000
  }

  function Sub(a: u64, b: u64): u64 {
    if a >= b then a - b else a + U64 - b
  }

  function Mul(c: u64, v: u64): u64 {
    c * v % U64
  }

  /** The state after one call of operator(), whose output is the old x. */
  function Next(s: State): State {
    State(Mul(ROMU, s.y), Rotl27(Sub(s.y, s.x)))
  }

  function Previous(s: State): State {
    var y := Mul(4888251478366616163, s.x);
    State(Sub(y, Rotr27(s.y)), y)
  }

  /** c and d are inverse modulo 2^64. */
  predicate Inverse(c: u64, d: u64) {
    c * d % U64 == 1
  }

  lemma {:induction false} MulCancels(c: u64, d: u64, v: u64)
    requires Inverse(c, d)
    ensures Mul(d, Mul(c, v)) == v
  {
    var p, q, t := c * v, c * v / U64, c * d / U64;
    assert p == q * U64 + Mul(c, v);
    assert c * d == t * U64 + 1;
    assert d * p == (t * U64 + 1) * v by { assert d * (c * v) == (c * d) * v; }
    assert d * Mul(c, v) == v + U64 * (t * v - d * q);
    ModOfShifted(v, t * v - d * q);
  }

  lemma {:induction false} ModOfShifted(v: u64, m: int)
    ensures (v + U64 * m) % U64 == v
  {
  }

  lemma {:induction false} RomuInverse()
    ensures Inverse(ROMU, 4888251478366616163) && Inverse(4888251478366616163, ROMU)
  {
  }

  lemma {:induction false} RotlCancels(v: u64)
    ensures Rotr27(Rotl27(v)) == v
  {
    var l, h := v % 0x20_0000_0000, v / 0x20_0000_0000;
    assert v == h * 0x20_0000_0000 + l && h < 0x800_0000;
    assert Rotl27(v) == l * 0x800_0000 + h;
    assert Rotl27(v) / 0x800_0000 == l && Rotl27(v) % 0x800_0000 == h;
  }

  lemma {:induction false} RotrCancels(v: u64)
    ensures Rotl27(Rotr27(v)) == v
  {
    var l, h := v % 0x800_0000, v / 0x800_0000;
    assert v == h * 0x800_0000 + l && h < 0x20_0000_0000;
    assert Rotr27(v) == l * 0x20_0000_0000 + h;
    assert Rotr27(v) / 0x20_0000_0000 == l && Rotr27(v) % 0x20_0000_0000 == h;
  }

  lemma {:induction false} SubCancels(a: u64, b: u64)
    ensures Sub(a, Sub(a, b)) == b
  {
  }

  /** The generator step is a bijection on pairs of 64-bit words. */
  lemma {:induction false} StepIsBijective(s: State)
    ensures Previous(Next(s)) == s && Next(Previous(s)) == s
  {
    RomuInverse();
    MulCancels(ROMU, 4888251478366616163, s.y);
    MulCancels(4888251478366616163, ROMU, s.x);
    RotlCancels(Sub(s.y, s.x));
    RotrCancels(s.y);
    SubCancels(s.y, s.x);
    SubCancels(Mul(4888251478366616163, s.x), Rotr27(s.y));
  }

  lemma {:induction false} NextInjective(a: State, b: State)
    ensures Next(a) == Next(b) <==> a == b
  {
    StepIsBijective(a);
    StepIsBijective(b);
    if Next(a) == Next(b) {
      assert a == Previous(Next(a)) == Previous(Next(b)) == b;
    }
  }

  function Steps(s: State, n: nat): State {
    if n == 0 then s else Next(Steps(s, n - 1))
  }

  /** Two generators in different states stay in different states for ever. */
  lemma {:induction false} StatesNeverMerge(a: State, b: State, n: nat)
    ensures Steps(a, n) == Steps(b, n) <==> a == b
  {
    if n > 0 {
      StatesNeverMerge(a, b, n - 1);
      NextInjective(Steps(a, n - 1), Steps(b, n - 1));
    }
  }

  lemma {:induction false} NextZero()
    ensures Next(ZERO) == ZERO
  {
    assert Mul(ROMU, 0) == 0 && Sub(0, 0) == 0 && Rotl27(0) == 0;
  }

  lemma {:induction false} ZeroIsFixed(n: nat)
    ensures Steps(ZERO, n) == ZERO
  {
    NextZero();
    if n > 0 {
      ZeroIsFixed(n - 1);
    }
  }

  // ----- seeding -----

  lemma {:induction false} Pow64()
    ensures Pow2(64) == U64
  {
    assert Pow2(8) == 0x100;
    assert Pow2(16) == 0x1_0000;
    assert Pow2(24) == 0x100_0000;
    assert Pow2(32) == 0x1_0000_0000;
    assert Pow2(40) == 0x100_0000_0000;
    assert Pow2(48) == 0x1_0000_0000_0000;
    assert Pow2(56) == 0x100_0000_0000_0000;
  }

  function XorShift(z: nat, k: nat): nat {
    Xor(z, Shr(z, k))
  }

  /** z ^ (z >> k) determines z. */
  lemma {:induction false} XorShiftInjective(a: nat, b: nat, k: nat)
    requires k > 0 && XorShift(a, k) == XorShift(b, k)
    ensures a == b
    decreases a + b
  {
    if a > 0 || b > 0 {
      ShrSmaller(a, k);
      ShrSmaller(b, k);
      ShrXor(a, Shr(a, k), k);
      ShrXor(b, Shr(b, k), k);
      XorShiftInjective(Shr(a, k), Shr(b, k), k);
      XorSelfInverse(a, Shr(a, k));
      XorSelfInverse(b, Shr(b, k));
    }
  }

  function XorShift64(z: u64, k: nat): u64 {
    Pow64();
    ShrSmaller(z, k);
    XorBelow(z, Shr(z, k), 64);
    XorShift(z, k)
  }

  /** splitMix64's output for an already incremented state. */
  function Mix(z: u64): u64 {
    var a := Mul(MIX1, XorShift64(z, 30));
    var b := Mul(MIX2, XorShift64(a, 27));
    XorShift64(b, 31)
  }

  lemma {:induction false} StageInjective(p: u64, q: u64, k: nat, c: u64, d: u64)
    requires k > 0 && Inverse(c, d) && Mul(c, XorShift64(p, k)) == Mul(c, XorShift64(q, k))
    ensures p == q
  {
    MulCancels(c, d, XorShift64(p, k));
    MulCancels(c, d, XorShift64(q, k));
    XorShiftInjective(p, q, k);
  }

  lemma {:induction false} MixInverses()
    ensures Inverse(MIX1, 0x96de1b173f119089) && Inverse(MIX2, 0x319642b2d24d8ec3)
  {
  }

  /** splitMix64 loses nothing: distinct states give distinct outputs. */
  lemma {:induction false} MixInjective(p: u64, q: u64)
    ensures Mix(p) == Mix(q) <==> p == q
  {
    if Mix(p) == Mix(q) {
      var a, b := Mul(MIX1, XorShift64(p, 30)), Mul(MIX1, XorShift64(q, 30));
      MixInverses();
      XorShiftInjective(Mul(MIX2, XorShift64(a, 27)), Mul(MIX2, XorShift64(b, 27)), 31);
      StageInjective(a, b, 27, MIX2, 0x319642b2d24d8ec3);
      StageInjective(p, q, 30, MIX1, 0x96de1b173f119089);
    }
  }

  lemma {:induction false} XorShiftZero(z: u64, k: nat)
    requires z == 0
    ensures XorShift64(z, k) == 0
  {
    ShrSmaller(z, k);
  }

  lemma {:induction false} MixOfZero(z: u64)
    requires z == 0
    ensures Mix(z) == 0
  {
    XorShiftZero(z, 30);
    XorShiftZero(Mul(MIX1, z), 27);
    XorShiftZero(Mul(MIX2, z), 31);
  }

  /** splitMix64's output is 0 only for a zero incremented state. */
  lemma {:induction false} MixZeroIff(z: u64)
    ensures Mix(z) == 0 <==> z == 0
  {
    MixOfZero(0);
    MixInjective(z, 0);
  }

  function Add(a: u64, b: u64): u64 {
    (a + b) % U64
  }

  lemma {:induction false} AddGamma(p: u64, q: u64)
    ensures Add(p, GAMMA) == Add(q, GAMMA) <==> p == q
    ensures Add(Add(p, GAMMA), GAMMA) != Add(p, GAMMA)
  {
  }

  /** The state before the ten discarded steps: two splitMix64 outputs. */
  function Start(seed: u64): State {
    State(Mix(Add(seed, GAMMA)), Mix(Add(Add(seed, GAMMA), GAMMA)))
  }

  /** Rng(seed) */
  function Seeded(seed: u64): State {
    Steps(Start(seed), 10)
  }

  /** The k-th output of splitMix64 from `seed`. */
  function SplitMix(seed: u64, k: nat): u64 {
    Mix((seed + k * GAMMA) % U64)
  }

  /** Undoing n steps. */
  function Back(s: State, n: nat): State
    decreases n
  {
    if n == 0 then s else Back(Previous(s), n - 1)
  }

  lemma {:induction false} BackUndoes(s: State, n: nat)
    ensures Back(Steps(s, n), n) == s
  {
    if n > 0 {
      StepIsBijective(Steps(s, n - 1));
      BackUndoes(s, n - 1);
    }
  }

  /** Ten steps before a seeded generator there are the first two outputs of splitMix64, in order. */
  lemma {:induction false} SeededFromSplitMix(seed: u64)
    ensures Back(Seeded(seed), 10) == State(SplitMix(seed, 1), SplitMix(seed, 2))
  {
    BackUndoes(Start(seed), 10);
    TwiceAdded(seed);
    hide Mix;
    hide Steps;
    hide Back;
  }

  lemma {:induction false} TwiceAdded(seed: u64)
    ensures Add(seed, GAMMA) == (seed + 1 * GAMMA) % U64
    ensures Add(Add(seed, GAMMA), GAMMA) == (seed + 2 * GAMMA) % U64
  {
  }

  lemma {:induction false} StartDistinct(p: u64, q: u64)
    ensures Start(p) != ZERO
    ensures p != q ==> Start(p) != Start(q)
  {
    var first, second := Add(p, GAMMA), Add(Add(p, GAMMA), GAMMA);
    AddGamma(p, q);
    MixZeroIff(first);
    MixZeroIff(second);
    MixInjective(first, Add(q, GAMMA));
  }

  /** Whatever the 64-bit seed, the generator never reaches the all-zero state it could not leave. */
  lemma {:induction false} SeededNeverZero(seed: u64, n: nat)
    ensures Steps(Seeded(seed), n) != ZERO
  {
    StartDistinct(seed, seed);
    ZeroIsFixed(10);
    StatesNeverMerge(Start(seed), ZERO, 10);
    ZeroIsFixed(n);
    StatesNeverMerge(Seeded(seed), ZERO, n);
  }

  /** Generators with different seeds never coincide, however many numbers both have drawn. */
  lemma {:induction false} SeedsNeverCoincide(p: u64, q: u64, n: nat)
    requires p != q
    ensures Steps(Seeded(p), n) != Steps(Seeded(q), n)
  {
    StartDistinct(p, q);
    StatesNeverMerge(Start(p), Start(q), 10);
    StatesNeverMerge(Seeded(p), Seeded(q), n);
  }

  // ----- shuffle -----

  /** (r * size) >> 32 for a 32-bit r, in uint64_t arithmetic: the product wraps for huge sizes. */
  function Pick(r: nat, size: u64): (b: nat)
    requires r < U32 && size > 0
    ensures b < size
  {
    PickInBounds(r, size);
    r * size % U64 / U32
  }

  lemma {:induction false} PickInBounds(r: nat, size: u64)
    requires r < U32 && size > 0
    ensures r * size % U64 / U32 < size
  {
    var p := r * size;
    if size < U32 {
      SmallerFactor(r, 0xffff_ffff, size);
      DivBelow(p, size);
    } else {
      HighHalf(p);
    }
  }

  /** Below 2^32 a pick is the interval of 1 / size that r / 2^32 lies in. */
  lemma {:induction false} PickIff(r: nat, size: u64, b: nat)
    requires r < U32 && 0 < size < U32
    ensures Pick(r, size) == b <==> b * U32 <= r * size < (b + 1) * U32
  {
    var p := r * size;
    SmallerFactor(r, 0xffff_ffff, size);
    assert p < U64;
    FloorIff(p, b);
  }

  lemma {:induction false} FloorIff(p: nat, b: nat)
    requires p < U64
    ensures p % U64 / U32 == b <==> b * U32 <= p < (b + 1) * U32
  {
    assert p % U64 == p;
  }

  /** Every place is picked by some number. */
  lemma {:induction false} PickReaches(b: nat, size: u64) returns (r: nat)
    requires b < size < U32
    ensures r < U32 && Pick(r, size) == b
  {
    r := (b * U32 + size - 1) / size;
    var rest := (b * U32 + size - 1) % size;
    assert r * size + rest == b * U32 + size - 1;
    if r >= U32 { SmallerFactor(U32, r, size); }
    PickIff(r, size, b);
  }

  lemma {:induction false} SmallerFactor(a: nat, b: nat, m: nat)
    requires a <= b
    ensures a * m <= b * m
  {
    assert (b - a) * m >= 0;
  }

  lemma {:induction false} HighHalf(p: nat)
    ensures p % U64 / U32 < U32
  {
  }

  lemma {:induction false} DivBelow(p: nat, size: nat)
    requires p <= 0xffff_ffff * size && 0 < size < U32
    ensures p % U64 / U32 < size
  {
  }

  function Swap<T>(xs: seq<T>, i: nat, j: nat): (ys: seq<T>)
    requires i < |xs| && j < |xs|
    ensures |ys| == |xs|
  {
    xs[i := xs[j]][j := xs[i]]
  }

  /** One round on the first i elements with the random number n: two swaps, the second one on a
      range that is down to one element in the last round of an even-sized container. */
  function Round<T>(xs: seq<T>, n: u64, i: nat): (ys: seq<T>)
    requires 2 <= i <= |xs| < U64
    ensures |ys| == |xs|
  {
    Swap(Swap(xs, i - 1, Pick(n % U32, i)), i - 2, Pick(n / U32, i - 1))
  }

  function ShuffleFrom<T>(xs: seq<T>, s: State, i: nat): (ys: seq<T>)
    requires i <= |xs| < U64
    ensures |ys| == |xs|
    decreases i
  {
    if i <= 1 then xs else ShuffleFrom(Round(xs, s.x, i), Next(s), i - 2)
  }

  function Shuffled<T>(xs: seq<T>, s: State): seq<T>
    requires |xs| < U64
  {
    ShuffleFrom(xs, s, |xs|)
  }

  // ----- what shuffling can do -----

  /** The shuffle with the drawn numbers given. */
  function ShuffleWith<T>(xs: seq<T>, ws: seq<u64>, i: nat): (ys: seq<T>)
    requires i <= |xs| < U64 && |ws| == i / 2
    ensures |ys| == |xs|
    decreases i
  {
    if i <= 1 then xs else ShuffleWith(Round(xs, ws[0], i), ws[1..], i - 2)
  }

  /** The next k numbers of the generator. */
  function Drawn(s: State, k: nat): (ws: seq<u64>)
    ensures |ws| == k
    decreases k
  {
    if k == 0 then [] else [s.x] + Drawn(Next(s), k - 1)
  }

  lemma {:induction false} ShuffleDrawn<T>(xs: seq<T>, s: State, i: nat)
    requires i <= |xs| < U64
    ensures ShuffleFrom(xs, s, i) == ShuffleWith(xs, Drawn(s, i / 2), i)
    decreases i
  {
    hide Round;
    hide Next;
    if i > 1 {
      ShuffleDrawn(Round(xs, s.x, i), Next(s), i - 2);
      FirstDrawn(s, i / 2);
    }
  }

  lemma {:induction false} FirstDrawn(s: State, k: nat)
    requires k > 0
    ensures Drawn(s, k)[0] == s.x && Drawn(s, k)[1..] == Drawn(Next(s), k - 1)
  {
    hide Next;
  }

  /** Up to place i the two hold the same elements, from there on they are the same. */
  ghost predicate Alike<T>(xs: seq<T>, ys: seq<T>, i: nat) {
    i <= |xs| == |ys| && multiset(xs[..i]) == multiset(ys[..i]) && xs[i..] == ys[i..]
  }

  lemma {:induction false} LastIsSomewhere<T>(xs: seq<T>, ys: seq<T>, i: nat) returns (b: nat)
    requires 0 < i && Alike(xs, ys, i)
    ensures b < i && xs[b] == ys[i - 1]
  {
    assert ys[..i][i - 1] in multiset(ys[..i]);
    assert ys[i - 1] in xs[..i];
    b :| b < i && xs[..i][b] == ys[i - 1];
  }

  lemma {:induction false} WithoutLast<T>(zs: seq<T>, i: nat)
    requires 0 < i <= |zs|
    ensures multiset(zs[..i - 1]) == multiset(zs[..i]) - multiset{zs[i - 1]}
  {
    assert zs[..i] == zs[..i - 1] + [zs[i - 1]];
  }

  lemma {:induction false} TailGrows<T>(xs: seq<T>, ys: seq<T>, i: nat)
    requires 0 < i <= |xs| == |ys| && xs[i..] == ys[i..] && xs[i - 1] == ys[i - 1]
    ensures xs[i - 1..] == ys[i - 1..]
  {
    assert xs[i - 1..] == [xs[i - 1]] + xs[i..] && ys[i - 1..] == [ys[i - 1]] + ys[i..];
  }

  lemma {:induction false} SwapPlaces<T>(xs: seq<T>, ys: seq<T>, i: nat, b: nat)
    requires 0 < i && Alike(xs, ys, i) && b < i && xs[b] == ys[i - 1]
    ensures Alike(Swap(xs, i - 1, b), ys, i - 1)
  {
    var zs := Swap(xs, i - 1, b);
    assert zs[i..] == xs[i..] && zs[i - 1] == ys[i - 1];
    assert zs[..i] == Swap(xs[..i], i - 1, b);
    hide Swap;
    SwapPermutes(xs[..i], i - 1, b);
    WithoutLast(zs, i);
    WithoutLast(ys, i);
    TailGrows(zs, ys, i);
  }

  lemma {:induction false} HalvesOf(lo: nat, hi: nat)
    requires lo < U32 && hi < U32
    ensures hi * U32 + lo < U64 && (hi * U32 + lo) % U32 == lo && (hi * U32 + lo) / U32 == hi
  {
  }

  /** One round can put any two of the elements in their places. */
  lemma {:induction false} RoundReaches<T>(xs: seq<T>, ys: seq<T>, i: nat) returns (n: u64)
    requires 2 <= i <= |xs| < U32 && Alike(xs, ys, i)
    ensures Alike(Round(xs, n, i), ys, i - 2)
  {
    var b1 := LastIsSomewhere(xs, ys, i);
    SwapPlaces(xs, ys, i, b1);
    var once := Swap(xs, i - 1, b1);
    var b2 := LastIsSomewhere(once, ys, i - 1);
    SwapPlaces(once, ys, i - 1, b2);
    var lo := PickReaches(b1, i);
    var hi := PickReaches(b2, i - 1);
    HalvesOf(lo, hi);
    n := hi * U32 + lo;
    hide Pick;
    hide Swap;
    hide Alike;
  }

  /** Every arrangement of the elements is what some drawn numbers make of them. */
  lemma {:induction false} EveryOrderReached<T>(xs: seq<T>, ys: seq<T>, i: nat) returns (ws: seq<u64>)
    requires i <= |xs| < U32 && Alike(xs, ys, i)
    ensures |ws| == i / 2 && ShuffleWith(xs, ws, i) == ys
    decreases i
  {
    if i <= 1 {
      ws := [];
      NothingLeft(xs, ys, i);
    } else {
      var n := RoundReaches(xs, ys, i);
      var rest := EveryOrderReached(Round(xs, n, i), ys, i - 2);
      ws := [n] + rest;
      assert ws[1..] == rest;
      hide Round;
      hide Alike;
    }
  }

  lemma {:induction false} NothingLeft<T>(xs: seq<T>, ys: seq<T>, i: nat)
    requires i <= 1 && Alike(xs, ys, i)
    ensures xs == ys
  {
    if i == 1 {
      var b := LastIsSomewhere(xs, ys, 1);
      assert xs == [xs[0]] + xs[1..] && ys == [ys[0]] + ys[1..];
    } else {
      assert xs[0..] == xs && ys[0..] == ys;
    }
  }

  /** For every size below 2^32 shuffling reaches every permutation. */
  lemma {:induction false} EveryPermutationReached<T>(xs: seq<T>, ys: seq<T>) returns (ws: seq<u64>)
    requires |xs| < U32 && multiset(xs) == multiset(ys)
    ensures |ws| == |xs| / 2 && ShuffleWith(xs, ws, |xs|) == ys
  {
    assert |multiset(xs)| == |xs| && |multiset(ys)| == |ys|;
    assert xs[..|xs|] == xs && ys[..|ys|] == ys;
    ws := EveryOrderReached(xs, ys, |xs|);
  }

  lemma {:induction false} SwapPermutes<T>(xs: seq<T>, i: nat, j: nat)
    requires i < |xs| && j < |xs|
    ensures multiset(Swap(xs, i, j)) == multiset(xs)
  {
  }

  /** The last place gets the element picked with the lower half of n, the one before it the element
      that is then picked with the upper half; behind them nothing changes. */
  lemma {:induction false} RoundPlaces<T>(xs: seq<T>, n: u64, i: nat)
    requires 2 <= i <= |xs| < U64
    ensures var (b1, b2) := (Pick(n % U32, i), Pick(n / U32, i - 1)); var ys := Round(xs, n, i);
            && ys[i - 1] == xs[b1] && ys[i - 2] == (if b2 == b1 then xs[i - 1] else xs[b2])
            && forall k :: i <= k < |xs| ==> ys[k] == xs[k]
  {
    hide Pick;
  }

  lemma {:induction false} RoundPermutes<T>(xs: seq<T>, n: u64, i: nat)
    requires 2 <= i <= |xs| < U64
    ensures multiset(Round(xs, n, i)) == multiset(xs)
  {
    var b1 := Pick(n % U32, i);
    SwapPermutes(xs, i - 1, b1);
    SwapPermutes(Swap(xs, i - 1, b1), i - 2, Pick(n / U32, i - 1));
  }

  lemma {:induction false} ShuffleFromPermutes<T>(xs: seq<T>, s: State, i: nat)
    requires i <= |xs| < U64
    ensures multiset(ShuffleFrom(xs, s, i)) == multiset(xs)
    decreases i
  {
    hide Round;
    hide Next;
    if i > 1 {
      RoundPermutes(xs, s.x, i);
      ShuffleFromPermutes(Round(xs, s.x, i), Next(s), i - 2);
    }
  }

  /** Shuffling rearranges: from any generator state, for any size up to 2^64 - 1. */
  lemma {:induction false} ShufflePermutes<T>(xs: seq<T>, s: State)
    requires |xs| < U64
    ensures multiset(Shuffled(xs, s)) == multiset(xs)
  {
    ShuffleFromPermutes(xs, s, |xs|);
  }

  function Rearranged<T>(xs: seq<T>, p: seq<nat>): (ys: seq<T>)
    requires forall k :: 0 <= k < |p| ==> p[k] < |xs|
  {
    seq(|p|, k requires 0 <= k < |p| => xs[p[k]])
  }

  ghost predicate AllBelow(p: seq<nat>, n: nat) {
    forall k :: 0 <= k < |p| ==> p[k] < n
  }

  lemma {:induction false} RoundGathers<T>(xs: seq<T>, p: seq<nat>, n: u64, i: nat)
    requires 2 <= i <= |p| == |xs| < U64 && AllBelow(p, |xs|)
    ensures AllBelow(Round(p, n, i), |xs|) && Round(Rearranged(xs, p), n, i) == Rearranged(xs, Round(p, n, i))
  {
    var b1, b2 := Pick(n % U32, i), Pick(n / U32, i - 1);
    var once := Swap(p, i - 1, b1);
    assert Rearranged(xs, once) == Swap(Rearranged(xs, p), i - 1, b1);
    assert Rearranged(xs, Swap(once, i - 2, b2)) == Swap(Rearranged(xs, once), i - 2, b2);
  }

  lemma {:induction false} ShuffleFromGathers<T>(xs: seq<T>, p: seq<nat>, s: State, i: nat)
    requires i <= |p| == |xs| < U64 && AllBelow(p, |xs|)
    ensures AllBelow(ShuffleFrom(p, s, i), |xs|)
    ensures ShuffleFrom(Rearranged(xs, p), s, i) == Rearranged(xs, ShuffleFrom(p, s, i))
    decreases i
  {
    if i > 1 {
      RoundGathers(xs, p, s.x, i);
      ShuffleFromGathers(xs, Round(p, s.x, i), Next(s), i - 2);
    }
  }

  function Identity(n: nat): seq<nat> {
    seq(n, k => k)
  }

  /** The permutation applied depends on the size and the generator alone, never on the elements. */
  lemma {:induction false} ShuffleIsOblivious<T>(xs: seq<T>, s: State)
    requires |xs| < U64
    ensures AllBelow(Shuffled(Identity(|xs|), s), |xs|)
    ensures Shuffled(xs, s) == Rearranged(xs, Shuffled(Identity(|xs|), s))
  {
    assert Rearranged(xs, Identity(|xs|)) == xs;
    ShuffleFromGathers(xs, Identity(|xs|), s, |xs|);
  }

  class Generator {
    var mX: u64
    var mY: u64

    ghost function Abs(): State
      reads this
    {
      State(mX, mY)
    }

    constructor (seed: u64)
      ensures Abs() == Seeded(seed)
    {
      mX, mY := Mix(Add(seed, GAMMA)), Mix(Add(Add(seed, GAMMA), GAMMA));
      new;
      for i := 0 to 10
        invariant Abs() == Steps(Start(seed), i)
      {
        var _ := Call();
      }
    }

    /** operator() */
    method Call() returns (x: u64)
      modifies this
      ensures x == old(mX) && Abs() == Next(old(Abs()))
    {
      x := mX;
      mX := Mul(ROMU, mY);
      mY := Rotl27(Sub(mY, x));
    }

    /** swap(container[--i], container[b]) twice, with the two halves of one random number. */
    method SwapTwice<T>(container: array<T>, n: u64, i: nat)
      requires 2 <= i <= container.Length < U64
      modifies container
      ensures container[..] == Round(old(container[..]), n, i)
      ensures container[i - 1] == old(container[Pick(n % U32, i)])
      ensures container[i - 2] == var b := Pick(n / U32, i - 1);
                                  if b == Pick(n % U32, i) then old(container[i - 1]) else old(container[b])
      ensures forall k :: i <= k < container.Length ==> container[k] == old(container[k])
      ensures multiset(container[..]) == multiset(old(container[..]))
    {
      RoundPermutes(container[..], n, i);
      RoundPlaces(container[..], n, i);
      hide Pick;
      var b1 := Pick(n % U32, i);
      container[i - 1], container[b1] := container[b1], container[i - 1];
      ghost var once := container[..];
      assert once == Swap(old(container[..]), i - 1, b1);
      var b2 := Pick(n / U32, i - 1);
      container[i - 2], container[b2] := container[b2], container[i - 2];
      assert container[..] == Swap(once, i - 2, b2);
    }

    method Shuffle<T>(container: array<T>)
      requires container.Length < U64
      modifies this, container
      ensures container[..] == Shuffled(old(container[..]), old(Abs()))
      ensures Abs() == Steps(old(Abs()), container.Length / 2)
    {
      hide Round;
      hide Next;
      var i := container.Length;
      ghost var drawn := 0;
      while i > 1
        invariant 0 <= i <= container.Length
        invariant i + 2 * drawn == container.Length && Abs() == Steps(old(Abs()), drawn)
        invariant ShuffleFrom(container[..], Abs(), i) == Shuffled(old(container[..]), old(Abs()))
      {
        var n := Call();
        SwapTwice(container, n, i);
        i := i - 2;
        drawn := drawn + 1;
      }
    }
  }
}
