/** zstd's ZSTD_COMPRESSBOUND macro, for both widths of size_t. */
module CompressBound {

  datatype Width = Bits32 | Bits64

  function Modulus(w: Width): nat {
    if w.Bits32? then 0x1_0000_0000 else 0x1_0000_0000_0000_0000
  }

  /** ZSTD_MAX_INPUT_SIZE */
  function MaxInput(w: Width): nat {
    if w.Bits64? then 0xFF00FF00FF00FF00 else 0xFF00FF00
  }

  const KB128: nat := 0x20000   // 128 << 10

  /** The margin for small inputs, from 64 down to 0; the subtraction happens only below 128 KB. */
  function Margin(n: nat): nat {
    if n < KB128 then (KB128 - n) / 2048 else 0
  }

  /** ZSTD_COMPRESSBOUND with every sum taken in size_t. */
  function Bound(w: Width, n: nat): nat
    requires n < Modulus(w)
  {
    if n >= MaxInput(w) then 0
    else ((n + n / 256) % Modulus(w) + Margin(n)) % Modulus(w)
  }

  /** The same sum over the integers. */
  function Exact(n: nat): nat {
    n + n / 256 + Margin(n)
  }

  /** The margin is at least k, up to 64, exactly if the input is at least k times 2 KB short of 128 KB. */
  lemma {:induction false} MarginIff(n: nat, k: nat)
    requires 0 < k
    ensures Margin(n) >= k <==> n + 2048 * k <= KB128
    ensures Margin(n) <= 64
  {
    if n < KB128 {
      assert KB128 - n == 2048 * Margin(n) + (KB128 - n) % 2048;
    }
  }

  /** The sum fits size_t up to the maximum, and for nothing beyond it. */
  lemma {:induction false} FitsIff(w: Width, n: nat)
    ensures Exact(n) < Modulus(w) <==> n <= MaxInput(w)
  {
    var q, r := n / 256, n % 256;
    assert n == 256 * q + r && 0 <= r < 256;
    if n >= KB128 {
      assert Exact(n) == 257 * q + r;
    }
  }

  /** Below the maximum nothing wraps, and the bound leaves room for the input itself. */
  lemma {:induction false} NoOverflow(w: Width, n: nat)
    requires n < MaxInput(w)
    ensures Bound(w, n) == Exact(n) && n <= Bound(w, n)
  {
    FitsIff(w, n);
    Unwrapped(n + n / 256, Modulus(w));
    Unwrapped(Exact(n), Modulus(w));
  }

  lemma {:induction false} Unwrapped(x: nat, m: nat)
    requires x < m
    ensures x % m == x
  {
  }

  /** 0 means exactly that the input is too large. */
  lemma {:induction false} ZeroIff(w: Width, n: nat)
    requires n < Modulus(w)
    ensures Bound(w, n) == 0 <==> n >= MaxInput(w)
  {
    if n < MaxInput(w) {
      NoOverflow(w, n);
      if n == 0 { assert Margin(0) == 64; }
    }
  }

  /** A larger input never gets a smaller bound. */
  lemma {:induction false} Monotone(w: Width, a: nat, b: nat)
    requires a <= b < MaxInput(w)
    ensures Bound(w, a) <= Bound(w, b)
  {
    NoOverflow(w, a);
    NoOverflow(w, b);
    if a < KB128 { MarginFalls(a, b); }
  }

  /** The margin falls more slowly than the other terms rise. */
  lemma {:induction false} MarginFalls(a: nat, b: nat)
    requires a <= b && a < KB128
    ensures Exact(a) <= Exact(b)
  {
    var c := if b < KB128 then b else KB128;
    assert (KB128 - a) / 2048 <= (KB128 - c) / 2048 + (c - a);
  }

  /** Two parts fit into the bound of their sum exactly when their margins are covered by the
      margin of the sum and the carry of the two quotients. */
  lemma {:induction false} PairIff(a: nat, b: nat)
    ensures Exact(a) + Exact(b) <= Exact(a + b)
        <==> Margin(a) + Margin(b) <= Margin(a + b) + (if a % 256 + b % 256 >= 256 then 1 else 0)
  {
    var carry := if a % 256 + b % 256 >= 256 then 1 else 0;
    assert (a + b) / 256 == a / 256 + b / 256 + carry;
  }

  function Sum(parts: seq<nat>): nat {
    if parts == [] then 0 else Sum(parts[..|parts| - 1]) + parts[|parts| - 1]
  }

  function SumOfBounds(w: Width, parts: seq<nat>): nat
    requires forall i :: 0 <= i < |parts| ==> parts[i] < Modulus(w)
  {
    if parts == [] then 0
    else SumOfBounds(w, parts[..|parts| - 1]) + Bound(w, parts[|parts| - 1])
  }

  /** Compressing in any number of parts of at least 128 KB needs no more room than the bound of the whole. */
  lemma {:induction false} PartsWithinBound(w: Width, parts: seq<nat>)
    requires forall i :: 0 <= i < |parts| ==> KB128 <= parts[i] < Modulus(w)
    requires Sum(parts) < MaxInput(w)
    ensures SumOfBounds(w, parts) <= Bound(w, Sum(parts))
    ensures parts != [] ==> Sum(parts) >= KB128
  {
    if parts != [] {
      var front, last := parts[..|parts| - 1], parts[|parts| - 1];
      PartsWithinBound(w, front);
      NoOverflow(w, Sum(parts));
      NoOverflow(w, last);
      NoOverflow(w, Sum(front));
      if front != [] { PairIff(Sum(front), last); }
    }
  }

  /** One part of 126 KB beside one of 128 KB already needs more. */
  lemma {:induction false} SmallPartsNeedMore(w: Width)
    ensures var parts := [KB128, KB128 - 2048];
            parts[0] < Modulus(w) && parts[1] < Modulus(w) && Sum(parts) < Modulus(w)
            && SumOfBounds(w, parts) > Bound(w, Sum(parts))
  {
    var parts := [KB128, KB128 - 2048];
    assert parts[..1] == [KB128] && parts[..1][..0] == [];
    assert Sum(parts[..1][..0]) == 0 && Sum(parts[..1]) == KB128;
    assert Sum(parts) == KB128 + (KB128 - 2048);
    assert SumOfBounds(w, parts[..1]) == Bound(w, KB128);
    assert SumOfBounds(w, parts) == Bound(w, KB128) + Bound(w, KB128 - 2048);
    NoOverflow(w, KB128);
    NoOverflow(w, KB128 - 2048);
    NoOverflow(w, Sum(parts));
  }
}
