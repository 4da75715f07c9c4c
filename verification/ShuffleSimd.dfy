/** The SSSE3 variant of the shuffle filter, for elements of 2, 4 and 8 bytes: whole blocks of 16 bytes go
    through one byte permutation, the elements behind them through the scalar loops. */
module ShuffleSimd {
  import opened Arith
  import opened Filters
  import opened Shuffle

  predicate SimdSize(size: nat) {
    size == 2 || size == 4 || size == 8
  }

  /** The operands of _mm_shuffle_epi8, lowest byte first. */
  function Mask(size: nat): (m: seq<nat>)
    requires SimdSize(size)
    ensures |m| == 16 && forall i :: 0 <= i < 16 ==> m[i] < 16
  {
    if size == 2 then [0, 2, 4, 6, 8, 10, 12, 14, 1, 3, 5, 7, 9, 11, 13, 15]
    else if size == 4 then [0, 4, 8, 12, 1, 5, 9, 13, 2, 6, 10, 14, 3, 7, 11, 15]
    else [0, 8, 1, 9, 2, 10, 3, 11, 4, 12, 5, 13, 6, 14, 7, 15]
  }

  /** The mask takes one block of 16 bytes to its byte planes: place plane * lanes + elem gets byte
      `plane` of element `elem`. */
  lemma {:induction false} MaskIsPlanes(size: nat, p: nat)
    requires SimdSize(size) && p < 16
    ensures Mask(size)[p] == p % (16 / size) * size + p / (16 / size)
  {
  }

  /** Elements in a block. */
  function Lanes(size: nat): nat
    requires SimdSize(size)
  {
    16 / size
  }

  /** Elements in whole blocks. */
  function Head(size: nat, count: nat): (h: nat)
    requires SimdSize(size)
    ensures h <= count
  {
    count / Lanes(size) * Lanes(size)
  }

  lemma {:induction false} HeadBytes(size: nat, count: nat)
    requires SimdSize(size)
    ensures Times(size, Head(size, count)) == count / Lanes(size) * 16 <= Times(size, count)
    ensures Head(size, count) == count <==> Times(size, Head(size, count)) == Times(size, count)
    ensures Head(size, count) == 0 <==> count < Lanes(size)
  {
    TimesIsMul(size, Head(size, count));
    TimesIsMul(size, count);
    if size == 2 {
      assert Head(size, count) == count / 8 * 8;
    } else if size == 4 {
      assert Head(size, count) == count / 4 * 4;
    } else {
      assert Head(size, count) == count / 2 * 2;
    }
    hide Times;
  }

  /** Where the block permutation takes byte p from. */
  function BlockFrom(size: nat, p: nat): nat
    requires SimdSize(size)
  {
    p / 16 * 16 + Mask(size)[p % 16]
  }

  lemma {:induction false} BlockFromInside(size: nat, count: nat, p: nat)
    requires SimdSize(size) && p < Times(size, Head(size, count))
    ensures BlockFrom(size, p) < Times(size, Head(size, count)) <= Times(size, count)
  {
    HeadBytes(size, count);
    SameBlock(p, count / Lanes(size));
    hide Mask;
    hide Lanes;
    hide Head;
    hide Times;
  }

  lemma {:induction false} SameBlock(p: nat, k: nat)
    requires p < k * 16
    ensures p / 16 * 16 + 16 <= k * 16
  {
  }

  /** The permutations for 2 and 8 bytes undo each other, the one for 4 undoes itself. */
  function Inverse(size: nat): (inverse: nat)
    requires SimdSize(size)
    ensures SimdSize(inverse)
  {
    if size == 2 then 8 else if size == 8 then 2 else 4
  }

  lemma {:induction false} TwoUndone(i: nat)
    requires i < 16
    ensures Mask(8)[Mask(2)[i]] == i && Mask(2)[Mask(8)[i]] == i
  {
  }

  lemma {:induction false} FourUndone(i: nat)
    requires i < 16
    ensures Mask(4)[Mask(4)[i]] == i
  {
  }

  lemma {:induction false} MaskUndone(size: nat, i: nat)
    requires SimdSize(size) && i < 16
    ensures Mask(Inverse(size))[Mask(size)[i]] == i
  {
    TwoUndone(i);
    FourUndone(i);
    hide Mask;
  }

  lemma {:induction false} BlockFromUndone(size: nat, p: nat)
    requires SimdSize(size)
    ensures BlockFrom(Inverse(size), BlockFrom(size, p)) == p
  {
    MaskUndone(size, p % 16);
    assert BlockFrom(size, p) / 16 == p / 16 && BlockFrom(size, p) % 16 == Mask(size)[p % 16];
    hide Mask;
  }

  lemma {:induction false} BlockFromInjective(size: nat, p: nat, q: nat)
    requires SimdSize(size) && BlockFrom(size, p) == BlockFrom(size, q)
    ensures p == q
  {
    BlockFromUndone(size, p);
    BlockFromUndone(size, q);
  }

  /** Is p a place that the scalar loops write to in the forward direction? */
  predicate InTail(size: nat, count: nat, p: nat)
    requires SimdSize(size)
  {
    count > 0 && p % count >= Head(size, count)
  }

  /** The forward direction from s into another buffer d. */
  function SimdForward(d: bytes, s: bytes, size: nat, count: nat): (r: bytes)
    requires SimdSize(size) && |s| == |d| == Times(size, count)
    ensures |r| == |d|
  {
    seq(|d|, p requires 0 <= p < |d| =>
      FromInside(p, size, count);
      if InTail(size, count, p) then s[From(p, size, count)]
      else if p < Times(size, Head(size, count)) then BlockFromInside(size, count, p); s[BlockFrom(size, p)]
      else d[p])
  }

  /** The reverse direction, with the same permutation of blocks. */
  function SimdReverse(s: bytes, size: nat, count: nat): (r: bytes)
    requires SimdSize(size) && |s| == Times(size, count)
    ensures |r| == |s|
  {
    TimesIsMul(size, count);
    TimesIsMul(count, size);
    seq(|s|, p requires 0 <= p < |s| =>
      FromInside(p, count, size);
      if p < Times(size, Head(size, count)) then BlockFromInside(size, count, p); s[BlockFrom(size, p)]
      else s[From(p, count, size)])
  }

  // ----- when the reverse undoes the forward direction -----

  ghost predicate SimdRestores(size: nat, count: nat)
    requires SimdSize(size)
  {
    forall d: bytes, s: bytes :: |d| == |s| == Times(size, count) ==>
      SimdReverse(SimdForward(d, s, size, count), size, count) == s
  }

  /** With less than a block of elements there are only the scalar loops. */
  lemma {:induction false} NoBlocks(d: bytes, s: bytes, size: nat, count: nat)
    requires SimdSize(size) && 0 < count < Lanes(size) && |s| == |d| == Times(size, count)
    ensures SimdForward(d, s, size, count) == Across(s, s, size, count)
    ensures Times(count, size) == |s| && SimdReverse(s, size, count) == Across(s, s, count, size)
  {
    TimesIsMul(size, count);
    TimesIsMul(count, size);
    HeadBytes(size, count);
    assert Head(size, count) == 0;
    forall p | 0 <= p < |s| ensures SimdForward(d, s, size, count)[p] == Across(s, s, size, count)[p] {
      assert InTail(size, count, p);
    }
  }

  /** With whole blocks only, both directions are the block permutation. */
  lemma {:induction false} OnlyBlocks(d: bytes, s: bytes, size: nat, count: nat, p: nat)
    requires SimdSize(size) && Head(size, count) == count && |s| == |d| == Times(size, count) && p < |s|
    ensures BlockFrom(size, p) < |s| && SimdForward(d, s, size, count)[p] == s[BlockFrom(size, p)]
    ensures SimdReverse(s, size, count)[p] == s[BlockFrom(size, p)]
  {
    BlockFromInside(size, count, p);
    FromInside(p, size, count);
    assert !InTail(size, count, p);
  }

  lemma {:induction false} BlocksOfFour(d: bytes, s: bytes, count: nat)
    requires Head(4, count) == count && |s| == |d| == Times(4, count)
    ensures SimdReverse(SimdForward(d, s, 4, count), 4, count) == s
  {
    var y := SimdForward(d, s, 4, count);
    forall p | 0 <= p < |s| ensures SimdReverse(y, 4, count)[p] == s[p] {
      OnlyBlocks(d, y, 4, count, p);
      OnlyBlocks(d, s, 4, count, BlockFrom(4, p));
      BlockFromUndone(4, p);
    }
  }

  /** A chunk of zeros but for one byte. */
  function OneAt(n: nat, q: nat): bytes {
    seq(n, i => if i == q then 1 else 0)
  }

  /** Twice the permutation for 2 or 8 bytes puts byte 1 into place 4. */
  lemma {:induction false} BlocksOfOthers(d: bytes, size: nat, count: nat)
    requires (size == 2 || size == 8) && count > 0 && Head(size, count) == count && |d| == Times(size, count)
    ensures SimdReverse(SimdForward(d, OneAt(|d|, 1), size, count), size, count) != OneAt(|d|, 1)
  {
    var s := OneAt(|d|, 1);
    HeadBytes(size, count);
    assert |d| >= 16;
    var y := SimdForward(d, s, size, count);
    PlaceFour(size);
    hide SimdForward;
    hide SimdReverse;
    hide BlockFrom;
    OnlyBlocks(d, y, size, count, 4);
    OnlyBlocks(d, s, size, count, BlockFrom(size, 4));
    assert SimdReverse(y, size, count)[4] == s[1] != s[4];
  }

  lemma {:induction false} PlaceFour(size: nat)
    requires size == 2 || size == 8
    ensures BlockFrom(size, BlockFrom(size, 4)) == 1 && BlockFrom(size, 4) < 16
  {
    MaskPlaces();
    hide Mask;
  }

  lemma {:induction false} MaskPlaces()
    ensures Mask(2)[4] == 8 && Mask(2)[8] == 1 && Mask(8)[4] == 2 && Mask(8)[2] == 1
  {
  }

  /** The byte that the scalar loops overwrite first in the blocks' output, in the input. */
  function Lost(size: nat, count: nat): nat
    requires SimdSize(size)
  {
    BlockFrom(size, Head(size, count))
  }

  lemma {:induction false} LostInside(size: nat, count: nat)
    requires SimdSize(size) && 0 < Head(size, count) < count
    ensures Head(size, count) < Times(size, Head(size, count)) && Lost(size, count) < Times(size, Head(size, count)) <= Times(size, count)
    ensures InTail(size, count, Head(size, count))
  {
    HeadBytes(size, count);
    TimesIsMul(size, Head(size, count));
    assert Head(size, count) < Times(size, Head(size, count));
    BlockFromInside(size, count, Head(size, count));
    DivModUnique(0, Head(size, count), count);
  }

  /** Elements in and behind blocks: that byte does not reach the output. */
  lemma {:induction false} LostByte(d: bytes, s: bytes, t: bytes, size: nat, count: nat)
    requires SimdSize(size) && 0 < Head(size, count) < count && |d| == |s| == |t| == Times(size, count)
    requires forall i :: 0 <= i < |s| && i != Lost(size, count) ==> s[i] == t[i]
    ensures SimdForward(d, s, size, count) == SimdForward(d, t, size, count)
  {
    LostInside(size, count);
    forall p | 0 <= p < |d| ensures SimdForward(d, s, size, count)[p] == SimdForward(d, t, size, count)[p] {
      FromInside(p, size, count);
      if InTail(size, count, p) {
        TailReadsBehind(size, count, p);
      } else if p < Times(size, Head(size, count)) {
        BlockFromInside(size, count, p);
        if BlockFrom(size, p) == Lost(size, count) { BlockFromInjective(size, p, Head(size, count)); }
      }
    }
  }

  lemma {:induction false} TailReadsBehind(size: nat, count: nat, p: nat)
    requires SimdSize(size) && p < Times(size, count) && InTail(size, count, p)
    ensures From(p, size, count) >= Times(size, Head(size, count))
  {
    hide Times;
    hide Head;
    TimesCommutes(size, Head(size, count));
    TimesMonotone(Head(size, count), p % count, size);
  }

  lemma {:induction false} TailLoses(d: bytes, size: nat, count: nat)
    requires SimdSize(size) && 0 < Head(size, count) < count && |d| == Times(size, count)
    ensures exists s: bytes :: |s| == |d| && SimdReverse(SimdForward(d, s, size, count), size, count) != s
  {
    LostInside(size, count);
    var s, t := OneAt(|d|, |d|), OneAt(|d|, Lost(size, count));
    LostByte(d, s, t, size, count);
    assert s[Lost(size, count)] != t[Lost(size, count)];
  }

  lemma {:induction false} ScalarRestores(d: bytes, s: bytes, size: nat, count: nat)
    requires SimdSize(size) && 0 < count < Lanes(size) && |s| == |d| == Times(size, count)
    ensures SimdReverse(SimdForward(d, s, size, count), size, count) == s
  {
    var y := Across(s, s, size, count);
    NoBlocks(d, s, size, count);
    NoBlocks(d, y, size, count);
    AcrossBack(s, y, size, count);
  }

  lemma {:induction false} BlockFromIs(size: nat, p: nat)
    requires SimdSize(size) && p < 16
    ensures BlockFrom(size, p) == From(p, size, Lanes(size))
  {
    MaskIsPlanes(size, p);
    TimesIsMul(p % Lanes(size), size);
    assert p / 16 * 16 == 0 && p % 16 == p;
    hide Mask;
    hide Times;
  }

  lemma {:induction false} BlockSizes(size: nat)
    requires SimdSize(size)
    ensures 1 < Lanes(size) && Times(size, Lanes(size)) == 16 && Head(size, Lanes(size)) == Lanes(size)
  {
    TimesIsMul(size, Lanes(size));
    hide Times;
  }

  /** A single block goes to its byte planes, as the scalar loops take it. */
  lemma {:induction false} OneBlockIsShuffled(d: bytes, s: bytes, size: nat)
    requires SimdSize(size) && |d| == |s| == Times(size, Lanes(size))
    ensures SimdForward(d, s, size, Lanes(size)) == Across(s, s, size, Lanes(size))
  {
    var count := Lanes(size);
    BlockSizes(size);
    hide Lanes;
    hide Head;
    hide BlockFrom;
    forall p | 0 <= p < |s| ensures SimdForward(d, s, size, count)[p] == Across(s, s, size, count)[p] {
      OnlyBlocks(d, s, size, count, p);
      BlockFromIs(size, p);
    }
  }

  lemma {:induction false} HeadAtLeastHalf(size: nat, count: nat)
    requires SimdSize(size) && count > Lanes(size)
    ensures 0 < Head(size, count) && count < 2 * Head(size, count)
  {
  }

  lemma {:induction false} SecondPlaneFrom(size: nat, count: nat)
    requires SimdSize(size) && count > Lanes(size)
    ensures BlockFrom(size, count) != 1
  {
    MaskIsPlanes(size, count % 16);
    hide Mask;
  }

  /** In several blocks, or behind one, byte 1 does not come to the start of the second plane. */
  lemma {:induction false} SecondPlaneElsewhere(size: nat, count: nat)
    requires SimdSize(size) && count > Lanes(size)
    ensures count < Times(size, count) && !InTail(size, count, count) && count < Times(size, Head(size, count))
    ensures From(count, size, count) == 1 && BlockFrom(size, count) != 1
  {
    TimesIsMul(size, count);
    TimesIsMul(size, Head(size, count));
    HeadAtLeastHalf(size, count);
    SecondPlaneFrom(size, count);
    hide Times;
    hide BlockFrom;
    hide Head;
    hide Lanes;
    assert count % count == 0 && count / count == 1;
    NoTimes(size);
    TwiceAtMost(size, Head(size, count));
    TwiceAtMost(size, count);
  }

  lemma {:induction false} NoTimes(m: nat)
    ensures Times(0, m) == 0
  {
  }

  lemma {:induction false} TwiceAtMost(size: nat, k: nat)
    requires size >= 2
    ensures 2 * k <= Times(size, k)
  {
    TimesIsMul(size, k);
    assert (size - 2) * k >= 0;
  }

  lemma {:induction false} OneByteElsewhere(size: nat, count: nat)
    requires SimdSize(size) && count > Lanes(size)
    ensures var s := OneAt(Times(size, count), 1); SimdForward(s, s, size, count) != Across(s, s, size, count)
  {
    SecondPlaneElsewhere(size, count);
    var s := OneAt(Times(size, count), 1);
    hide Lanes;
    hide Head;
    hide BlockFrom;
    hide From;
    hide InTail;
    hide Times;
    assert Across(s, s, size, count)[count] == s[1] == 1;
    BlockFromInside(size, count, count);
    assert SimdForward(s, s, size, count)[count] == s[BlockFrom(size, count)] == 0;
  }

  /** The variant orders the bytes as the shuffle filter is to order them exactly for at most one block. */
  lemma {:induction false} SimdIsShuffleIff(size: nat, count: nat)
    requires SimdSize(size) && count > 0
    ensures (forall d: bytes, s: bytes :: |d| == |s| == Times(size, count) ==>
               SimdForward(d, s, size, count) == Across(s, s, size, count)) <==> count <= Lanes(size)
  {
    hide *;
    if count < Lanes(size) {
      forall d: bytes, s: bytes | |d| == |s| == Times(size, count)
        ensures SimdForward(d, s, size, count) == Across(s, s, size, count)
      {
        NoBlocks(d, s, size, count);
      }
    } else if count == Lanes(size) {
      forall d: bytes, s: bytes | |d| == |s| == Times(size, count)
        ensures SimdForward(d, s, size, count) == Across(s, s, size, count)
      {
        OneBlockIsShuffled(d, s, size);
      }
    } else {
      OneByteElsewhere(size, count);
      ZerosButOne(Times(size, count));
    }
  }

  lemma {:induction false} ZerosButOne(n: nat)
    ensures |OneAt(n, 1)| == n
  {
  }

  /** Across two buffers the reverse undoes the forward direction for less than a block of elements,
      and for whole blocks of elements of 4 bytes; for nothing else. */
  lemma {:induction false} SimdRestoresIff(size: nat, count: nat)
    requires SimdSize(size) && count > 0
    ensures SimdRestores(size, count) <==> count < Lanes(size) || (size == 4 && count % 4 == 0)
  {
    HeadCases(size, count);
    var n := Times(size, count);
    var zeros := OneAt(n, n);
    hide SimdForward;
    hide SimdReverse;
    if count < Lanes(size) {
      forall d: bytes, s: bytes | |d| == |s| == n ensures SimdReverse(SimdForward(d, s, size, count), size, count) == s {
        ScalarRestores(d, s, size, count);
      }
    } else if Head(size, count) < count {
      TailLoses(zeros, size, count);
    } else if size == 4 {
      forall d: bytes, s: bytes | |d| == |s| == n ensures SimdReverse(SimdForward(d, s, size, count), size, count) == s {
        BlocksOfFour(d, s, count);
      }
    } else {
      BlocksOfOthers(zeros, size, count);
    }
  }

  lemma {:induction false} HeadCases(size: nat, count: nat)
    requires SimdSize(size)
    ensures Head(size, count) == 0 <==> count < Lanes(size)
    ensures Head(size, count) == count <==> count % Lanes(size) == 0
    ensures Lanes(4) == 4 && Lanes(size) >= 2
  {
  }

  // ----- over its own input -----

  /** The block loop from s into a buffer d: whole registers are loaded before they are stored. */
  function Blocks(d: bytes, s: bytes, size: nat, count: nat): (r: bytes)
    requires SimdSize(size) && |s| == |d| == Times(size, count)
    ensures |r| == |d|
  {
    seq(|d|, p requires 0 <= p < |d| =>
      if p < Times(size, Head(size, count)) then BlockFromInside(size, count, p); s[BlockFrom(size, p)] else d[p])
  }

  /** Assignment t of the scalar loops behind the blocks: `width` elements of each byte plane. */
  function TailTo(size: nat, count: nat, t: nat): nat
    requires SimdSize(size) && Head(size, count) < count
  {
    var width := count - Head(size, count);
    Times(t / width, count) + Head(size, count) + t % width
  }

  function TailFrom(size: nat, count: nat, t: nat): nat
    requires SimdSize(size) && Head(size, count) < count
  {
    var width := count - Head(size, count);
    Times(Head(size, count) + t % width, size) + t / width
  }

  lemma {:induction false} TailInside(size: nat, count: nat, t: nat)
    requires SimdSize(size) && Head(size, count) < count && t < Times(size, count - Head(size, count))
    ensures TailTo(size, count, t) < Times(size, count)
    ensures Times(size, Head(size, count)) <= TailFrom(size, count, t) < Times(size, count)
  {
    var h, width := Head(size, count), count - Head(size, count);
    FromInside(t, size, width);
    TimesLess(t / width, size, count);
    TimesLess(h + t % width, count, size);
    TimesCommutes(size, count);
    TimesCommutes(size, h);
    TimesMonotone(h, h + t % width, size);
    hide Times;
    hide Head;
  }

  /** Its first t assignments, one after the other in the single buffer. */
  function TailInPlace(s: bytes, size: nat, count: nat, t: nat): (r: bytes)
    requires SimdSize(size) && Head(size, count) < count && |s| == Times(size, count)
    requires t <= Times(size, count - Head(size, count))
    ensures |r| == |s|
  {
    if t == 0 then s
    else
      TailInside(size, count, t - 1);
      var r := TailInPlace(s, size, count, t - 1);
      r[TailTo(size, count, t - 1) := r[TailFrom(size, count, t - 1)]]
  }

  /** The forward direction over its own input. */
  function SimdInPlace(s: bytes, size: nat, count: nat): (r: bytes)
    requires SimdSize(size) && |s| == Times(size, count)
    ensures |r| == |s|
  {
    var r := Blocks(s, s, size, count);
    if Head(size, count) < count then TailInPlace(r, size, count, Times(size, count - Head(size, count))) else r
  }

  ghost predicate InPlaceRestores(size: nat, count: nat)
    requires SimdSize(size)
  {
    forall s: bytes :: |s| == Times(size, count) ==> ComesBack(s, size, count)
  }

  ghost predicate ComesBack(s: bytes, size: nat, count: nat)
    requires SimdSize(size) && |s| == Times(size, count)
  {
    SimdReverse(SimdInPlace(s, size, count), size, count) == s
  }

  /** Without blocks the tail is the scalar loop nest in one buffer. */
  lemma {:induction false} TailWithoutBlocks(s: bytes, size: nat, count: nat, t: nat)
    requires SimdSize(size) && Head(size, count) == 0 < count && t <= Times(size, count) == |s|
    ensures TailInPlace(s, size, count, t) == Overwriting(s, size, count, t)
  {
    hide From;
    hide Times;
    hide TailTo;
    hide TailFrom;
    hide Head;
    if t > 0 {
      TailWithoutBlocks(s, size, count, t - 1);
      FromInside(t - 1, size, count);
      TailIndexWithoutBlocks(size, count, t - 1);
    }
  }

  lemma {:induction false} TailIndexWithoutBlocks(size: nat, count: nat, t: nat)
    requires SimdSize(size) && Head(size, count) == 0 < count && t < Times(size, count)
    ensures TailTo(size, count, t) == t && TailFrom(size, count, t) == From(t, size, count)
  {
    FromInside(t, size, count);
    hide Head;
  }

  lemma {:induction false} InPlaceIsOverwriting(s: bytes, size: nat, count: nat)
    requires SimdSize(size) && 0 < count < Lanes(size) && |s| == Times(size, count)
    ensures SimdInPlace(s, size, count) == Overwriting(s, size, count, |s|)
  {
    HeadCases(size, count);
    hide Lanes;
    hide Head;
    assert Times(size, 0) == 0 by { TimesCommutes(size, 0); }
    assert Blocks(s, s, size, count) == s;
    hide Blocks;
    TailWithoutBlocks(s, size, count, |s|);
  }

  lemma {:induction false} InPlaceWithoutBlocks(s: bytes, size: nat, count: nat)
    requires SimdSize(size) && 0 < count < Lanes(size) && |s| == Times(size, count)
    ensures ComesBack(s, size, count) <==> SameInOneBuffer(s, size, count)
  {
    InPlaceIsOverwriting(s, size, count);
    hide Lanes;
    hide SimdInPlace;
    var x, y := Overwriting(s, size, count, |s|), Across(s, s, size, count);
    NoBlocks(x, x, size, count);
    hide SimdReverse;
    hide Overwriting;
    AcrossBack(s, y, size, count);
    AcrossBack(x, Across(x, x, count, size), count, size);
    hide Across;
  }

  /** With whole blocks only, one buffer is as good as two. */
  lemma {:induction false} InPlaceOnlyBlocks(d: bytes, s: bytes, size: nat, count: nat)
    requires SimdSize(size) && Head(size, count) == count && |s| == |d| == Times(size, count)
    ensures SimdInPlace(s, size, count) == SimdForward(d, s, size, count)
  {
    forall p | 0 <= p < |s| ensures Blocks(s, s, size, count)[p] == SimdForward(d, s, size, count)[p] {
      OnlyBlocks(d, s, size, count, p);
    }
  }

  lemma {:induction false} FirstTo(size: nat, count: nat)
    requires SimdSize(size) && Head(size, count) < count
    ensures TailTo(size, count, 0) == Head(size, count)
  {
  }

  /** One assignment more. */
  lemma {:induction false} TailInPlaceStep(s: bytes, size: nat, count: nat, k: nat)
    requires SimdSize(size) && Head(size, count) < count && |s| == Times(size, count)
    requires k < Times(size, count - Head(size, count))
    ensures TailTo(size, count, k) < |s| && TailFrom(size, count, k) < |s|
    ensures var r := TailInPlace(s, size, count, k);
            TailInPlace(s, size, count, k + 1) == r[TailTo(size, count, k) := r[TailFrom(size, count, k)]]
  {
    TailInside(size, count, k);
    hide Times;
    hide Head;
    hide TailTo;
    hide TailFrom;
  }

  lemma {:induction false} FirstAssignment(s: bytes, size: nat, count: nat)
    requires SimdSize(size) && 0 < Head(size, count) < count && |s| == Times(size, count)
    ensures 0 < Times(size, count - Head(size, count)) && Head(size, count) < TailFrom(size, count, 0) < |s|
    ensures TailInPlace(s, size, count, 1) == s[Head(size, count) := s[TailFrom(size, count, 0)]]
  {
    WidthPositive(size, count - Head(size, count));
    LostInside(size, count);
    FirstTo(size, count);
    TailInside(size, count, 0);
    TailInPlaceStep(s, size, count, 0);
    assert TailInPlace(s, size, count, 0) == s;
    hide Times;
    hide Head;
    hide TailTo;
    hide TailFrom;
    hide TailInPlace;
  }

  /** Buffers that differ only where the first assignment goes are the same after it. */
  lemma {:induction false} FirstAssignmentHides(s: bytes, t: bytes, size: nat, count: nat, k: nat)
    requires SimdSize(size) && 0 < Head(size, count) < count && |s| == |t| == Times(size, count)
    requires 0 < k <= Times(size, count - Head(size, count))
    requires forall i :: 0 <= i < |s| && i != Head(size, count) ==> s[i] == t[i]
    ensures TailInPlace(s, size, count, k) == TailInPlace(t, size, count, k)
  {
    hide *;
    if k == 1 {
      FirstAssignment(s, size, count);
      FirstAssignment(t, size, count);
    } else {
      FirstAssignmentHides(s, t, size, count, k - 1);
      TailInPlaceStep(s, size, count, k - 1);
      TailInPlaceStep(t, size, count, k - 1);
    }
  }

  lemma {:induction false} BlocksHide(s: bytes, t: bytes, size: nat, count: nat)
    requires SimdSize(size) && 0 < Head(size, count) < count && |s| == |t| == Times(size, count)
    requires forall i :: 0 <= i < |s| && i != Lost(size, count) ==> s[i] == t[i]
    ensures forall i :: 0 <= i < |s| && i != Head(size, count) ==>
              Blocks(s, s, size, count)[i] == Blocks(t, t, size, count)[i]
  {
    LostInside(size, count);
    forall i | 0 <= i < |s| && i != Head(size, count)
      ensures Blocks(s, s, size, count)[i] == Blocks(t, t, size, count)[i]
    {
      if i < Times(size, Head(size, count)) {
        BlockFromInside(size, count, i);
        if BlockFrom(size, i) == Lost(size, count) { BlockFromInjective(size, i, Head(size, count)); }
      }
    }
  }

  lemma {:induction false} InPlaceHides(s: bytes, t: bytes, size: nat, count: nat)
    requires SimdSize(size) && 0 < Head(size, count) < count && |s| == |t| == Times(size, count)
    requires forall i :: 0 <= i < |s| && i != Lost(size, count) ==> s[i] == t[i]
    ensures SimdInPlace(s, size, count) == SimdInPlace(t, size, count)
  {
    hide Times;
    hide Lost;
    BlocksHide(s, t, size, count);
    hide Blocks;
    WidthPositive(size, count - Head(size, count));
    FirstAssignmentHides(Blocks(s, s, size, count), Blocks(t, t, size, count), size, count,
                         Times(size, count - Head(size, count)));
  }

  lemma {:induction false} WidthPositive(size: nat, width: nat)
    requires size > 0 && width > 0
    ensures Times(size, width) > 0
  {
    TimesLess(0, size, width);
  }

  lemma {:induction false} InPlaceLoses(size: nat, count: nat)
    requires SimdSize(size) && 0 < Head(size, count) < count
    ensures !InPlaceRestores(size, count)
  {
    LostInside(size, count);
    var n := Times(size, count);
    var s, t := OneAt(n, n), OneAt(n, Lost(size, count));
    assert s[Lost(size, count)] != t[Lost(size, count)];
    hide SimdInPlace;
    hide SimdReverse;
    hide Head;
    hide Lost;
    hide Times;
    InPlaceHides(s, t, size, count);
    assert !ComesBack(s, size, count) || !ComesBack(t, size, count);
  }

  lemma {:induction false} InPlaceScalarIff(size: nat, count: nat)
    requires SimdSize(size) && 0 < count < Lanes(size)
    ensures InPlaceRestores(size, count) <==> count == 1
  {
    hide SameInOneBuffer;
    hide ComesBack;
    forall s: bytes | |s| == Times(size, count) ensures ComesBack(s, size, count) <==> SameInOneBuffer(s, size, count) {
      InPlaceWithoutBlocks(s, size, count);
    }
    hide Times;
    hide Lanes;
    OneBufferIff(size, count);
  }

  lemma {:induction false} InPlaceBlocksIff(size: nat, count: nat)
    requires SimdSize(size) && count > 0 && Head(size, count) == count
    ensures InPlaceRestores(size, count) <==> size == 4
  {
    var n := Times(size, count);
    var zeros := OneAt(n, n);
    forall s: bytes | |s| == n ensures SimdInPlace(s, size, count) == SimdForward(zeros, s, size, count) {
      InPlaceOnlyBlocks(zeros, s, size, count);
    }
    hide SimdReverse;
    hide SimdForward;
    hide SimdInPlace;
    if size == 4 {
      forall s: bytes | |s| == n ensures ComesBack(s, size, count) {
        BlocksOfFour(zeros, s, count);
      }
    } else {
      BlocksOfOthers(zeros, size, count);
      assert !ComesBack(OneAt(n, 1), size, count);
    }
  }

  /** Over its own input the reverse undoes it for a single element, and for whole blocks of elements
      of 4 bytes; for nothing else. */
  lemma {:induction false} InPlaceRestoresIff(size: nat, count: nat)
    requires SimdSize(size) && count > 0
    ensures InPlaceRestores(size, count) <==> count == 1 || (size == 4 && count % 4 == 0)
  {
    hide InPlaceRestores;
    hide Lanes;
    hide Head;
    HeadCases(size, count);
    if count < Lanes(size) {
      InPlaceScalarIff(size, count);
    } else if Head(size, count) < count {
      InPlaceLoses(size, count);
    } else {
      InPlaceBlocksIff(size, count);
    }
  }

  // ----- the loops -----

  /** A destination after t assignments of the forward tail from s. */
  function TailSteps(same: bool, d: bytes, s: bytes, size: nat, count: nat, t: nat): (r: bytes)
    requires SimdSize(size) && Head(size, count) < count && |s| == |d| == Times(size, count)
    requires t <= Times(size, count - Head(size, count))
    ensures |r| == |d|
  {
    if t == 0 then d
    else
      TailInside(size, count, t - 1);
      var r := TailSteps(same, d, s, size, count, t - 1);
      r[TailTo(size, count, t - 1) := (if same then r else s)[TailFrom(size, count, t - 1)]]
  }

  lemma {:induction false} StepsInPlace(s: bytes, size: nat, count: nat, t: nat)
    requires SimdSize(size) && Head(size, count) < count && |s| == Times(size, count)
    requires t <= Times(size, count - Head(size, count))
    ensures TailSteps(true, s, s, size, count, t) == TailInPlace(s, size, count, t)
  {
    if t > 0 {
      StepsInPlace(s, size, count, t - 1);
      TailInside(size, count, t - 1);
    }
  }

  lemma {:induction false} TailToParts(size: nat, count: nat, t: nat)
    requires SimdSize(size) && Head(size, count) < count
    ensures var p := TailTo(size, count, t);
            && p / count == t / (count - Head(size, count))
            && p % count == Head(size, count) + t % (count - Head(size, count))
  {
    var width := count - Head(size, count);
    TimesDivMod(t / width, Head(size, count) + t % width, count);
  }

  /** The assignment that goes to a place of the tail. */
  lemma {:induction false} TailIndex(size: nat, count: nat, p: nat) returns (t: nat)
    requires SimdSize(size) && Head(size, count) < count && p < Times(size, count) && InTail(size, count, p)
    ensures t < Times(size, count - Head(size, count)) && TailTo(size, count, t) == p
    ensures TailFrom(size, count, t) == From(p, size, count)
  {
    var h, width := Head(size, count), count - Head(size, count);
    FromInside(p, size, count);
    t := Times(p / count, width) + (p % count - h);
    TimesDivMod(p / count, p % count - h, width);
    TimesLess(p / count, size, width);
    hide Head;
  }

  lemma {:induction false} TailToInjective(size: nat, count: nat, t: nat, u: nat)
    requires SimdSize(size) && Head(size, count) < count && TailTo(size, count, t) == TailTo(size, count, u)
    ensures t == u
  {
    var width := count - Head(size, count);
    TailToParts(size, count, t);
    TailToParts(size, count, u);
    TimesDivModDef(t, width);
    TimesDivModDef(u, width);
    hide Head;
    hide TailTo;
  }

  lemma {:induction false} TailToInTail(size: nat, count: nat, t: nat)
    requires SimdSize(size) && Head(size, count) < count
    ensures InTail(size, count, TailTo(size, count, t))
  {
    TailToParts(size, count, t);
    hide Head;
    hide TailTo;
  }

  /** Across buffers the tail assigns the places of the tail, and nothing else. */
  lemma {:induction false} TailStepsAt(d: bytes, s: bytes, size: nat, count: nat, t: nat, p: nat)
    requires SimdSize(size) && Head(size, count) < count && |s| == |d| == Times(size, count) && p < |d|
    requires t <= Times(size, count - Head(size, count))
    ensures !InTail(size, count, p) ==> TailSteps(false, d, s, size, count, t)[p] == d[p]
    ensures forall u :: 0 <= u < t && TailTo(size, count, u) == p ==>
              TailFrom(size, count, u) < |s| && TailSteps(false, d, s, size, count, t)[p] == s[TailFrom(size, count, u)]
  {
    if t > 0 {
      hide Head;
      hide TailTo;
      hide TailFrom;
      hide InTail;
      hide Times;
      TailStepsAt(d, s, size, count, t - 1, p);
      TailInside(size, count, t - 1);
      TailToInTail(size, count, t - 1);
      forall u: nat | u < t && TailTo(size, count, u) == p && TailTo(size, count, t - 1) == p ensures u == t - 1 {
        TailToInjective(size, count, u, t - 1);
      }
    }
  }

  lemma {:induction false} ForwardSteps(d: bytes, s: bytes, size: nat, count: nat)
    requires SimdSize(size) && Head(size, count) < count && |s| == |d| == Times(size, count)
    ensures TailSteps(false, Blocks(d, s, size, count), s, size, count, Times(size, count - Head(size, count)))
         == SimdForward(d, s, size, count)
  {
    var b, n := Blocks(d, s, size, count), Times(size, count - Head(size, count));
    forall p | 0 <= p < |d| ensures TailSteps(false, b, s, size, count, n)[p] == SimdForward(d, s, size, count)[p] {
      TailStepsAt(b, s, size, count, n, p);
      FromInside(p, size, count);
      if InTail(size, count, p) { var t := TailIndex(size, count, p); }
    }
  }

  /** The block loop, across buffers or in one. */
  method BlockLoop(dst: array<byte>, src: array<byte>, size: nat, count: nat)
    requires SimdSize(size) && src.Length == dst.Length == Times(size, count)
    modifies dst
    ensures dst[..] == Blocks(old(dst[..]), old(src[..]), size, count)
  {
    ghost var d, s := dst[..], src[..];
    var nblocks := count / Lanes(size);
    HeadBytes(size, count);
    hide Lanes;
    hide Head;
    hide BlockFrom;
    for b := 0 to nblocks
      invariant dst != src ==> src[..] == s
      invariant dst == src ==> d == s
      invariant FirstBlocks(dst[..], d, s, size, b)
    {
      BlockStep(dst, src, size, b, d, s);
    }
    assert dst[..] == Blocks(d, s, size, count);
  }

  /** The first b blocks of 16 bytes are done. */
  ghost predicate FirstBlocks(r: bytes, d: bytes, s: bytes, size: nat, b: nat)
    requires SimdSize(size)
  {
    && |r| == |d| == |s|
    && (forall p :: 0 <= p < 16 * b <= |r| ==> BlockFrom(size, p) < |s| && r[p] == s[BlockFrom(size, p)])
    && (forall p :: 16 * b <= p < |r| ==> r[p] == d[p])
  }

  /** One block through the mask. */
  method BlockStep(dst: array<byte>, src: array<byte>, size: nat, b: nat, ghost d: bytes, ghost s: bytes)
    requires SimdSize(size) && 16 * b + 16 <= dst.Length == src.Length && FirstBlocks(dst[..], d, s, size, b)
    requires if dst == src then d == s else src[..] == s
    modifies dst
    ensures FirstBlocks(dst[..], d, s, size, b + 1)
  {
    hide BlockFrom;
    hide Mask;
    OneBlock(size, b);
    var v := src[16 * b..16 * b + 16];
    forall i | 0 <= i < 16 ensures v[i] == s[16 * b + i] {
      assert src[..][16 * b + i] == v[i];
    }
    forall i | 0 <= i < 16 {
      dst[16 * b + i] := v[Mask(size)[i]];
    }
  }

  lemma {:induction false} OneBlock(size: nat, b: nat)
    requires SimdSize(size)
    ensures forall p :: 16 * b <= p < 16 * b + 16 ==> BlockFrom(size, p) == 16 * b + Mask(size)[p - 16 * b]
  {
    forall p | 16 * b <= p < 16 * b + 16 ensures p / 16 == b && p % 16 == p - 16 * b { }
    hide Mask;
  }

  /** One assignment of the forward tail. */
  method TailAssign(dst: array<byte>, src: array<byte>, size: nat, count: nat, plane: nat, elem: nat, ghost d: bytes, ghost s: bytes)
    requires SimdSize(size) && plane < size && Head(size, count) <= elem < count
    requires src.Length == dst.Length == |d| == |s| == Times(size, count)
    requires (dst != src ==> src[..] == s)
    requires var t := Times(plane, count - Head(size, count)) + (elem - Head(size, count));
             t <= Times(size, count - Head(size, count)) && dst[..] == TailSteps(dst == src, d, s, size, count, t)
    modifies dst
    ensures var t := Times(plane, count - Head(size, count)) + (elem - Head(size, count)) + 1;
            t <= Times(size, count - Head(size, count)) && dst[..] == TailSteps(dst == src, d, s, size, count, t)
  {
    hide *;
    TailPlaces(size, count, plane, elem);
    TailStep(dst == src, d, s, size, count, Times(plane, count - Head(size, count)) + (elem - Head(size, count)));
    TimesIsMul(plane, count);
    TimesIsMul(elem, size);
    dst[plane * count + elem] := src[elem * size + plane];
  }

  lemma {:induction false} TailPlaces(size: nat, count: nat, plane: nat, elem: nat)
    requires SimdSize(size) && plane < size && Head(size, count) <= elem < count
    ensures var t := Times(plane, count - Head(size, count)) + (elem - Head(size, count));
            && t < Times(size, count - Head(size, count))
            && TailTo(size, count, t) == Times(plane, count) + elem && TailFrom(size, count, t) == Times(elem, size) + plane
  {
    var h, width := Head(size, count), count - Head(size, count);
    TimesLess(plane, size, width);
    TimesDivMod(plane, elem - h, width);
    hide Head;
    hide Times;
  }

  lemma {:induction false} TailStep(same: bool, d: bytes, s: bytes, size: nat, count: nat, t: nat)
    requires SimdSize(size) && Head(size, count) < count && |s| == |d| == Times(size, count)
    requires t < Times(size, count - Head(size, count))
    ensures TailTo(size, count, t) < |d| && TailFrom(size, count, t) < |d|
    ensures var r := TailSteps(same, d, s, size, count, t);
            TailSteps(same, d, s, size, count, t + 1) ==
            r[TailTo(size, count, t) := (if same then r else s)[TailFrom(size, count, t)]]
  {
    TailInside(size, count, t);
    hide TailTo;
    hide TailFrom;
    hide Times;
    hide Head;
  }

  /** The inner loop of the forward tail. */
  method TailPlane(dst: array<byte>, src: array<byte>, size: nat, count: nat, plane: nat, ghost d: bytes, ghost s: bytes)
    requires SimdSize(size) && plane < size && Head(size, count) < count
    requires src.Length == dst.Length == |d| == |s| == Times(size, count)
    requires dst != src ==> src[..] == s
    requires var t := Times(plane, count - Head(size, count));
             t <= Times(size, count - Head(size, count)) && dst[..] == TailSteps(dst == src, d, s, size, count, t)
    modifies dst
    ensures var t := Times(plane + 1, count - Head(size, count));
            t <= Times(size, count - Head(size, count)) && dst[..] == TailSteps(dst == src, d, s, size, count, t)
  {
    hide *;
    NextPlane(plane, count - Head(size, count));
    for elem := Head(size, count) to count
      invariant var t := Times(plane, count - Head(size, count)) + (elem - Head(size, count));
                t <= Times(size, count - Head(size, count)) && dst[..] == TailSteps(dst == src, d, s, size, count, t)
    {
      TailAssign(dst, src, size, count, plane, elem, d, s);
    }
  }

  /** The forward tail. */
  method TailLoop(dst: array<byte>, src: array<byte>, size: nat, count: nat)
    requires SimdSize(size) && Head(size, count) < count && src.Length == dst.Length == Times(size, count)
    modifies dst
    ensures dst[..] == TailSteps(dst == src, old(dst[..]), old(src[..]), size, count, Times(size, count - Head(size, count)))
  {
    ghost var d, s := dst[..], src[..];
    assert TailSteps(dst == src, d, s, size, count, 0) == d;
    hide *;
    NextPlane(0, count - Head(size, count));
    for plane := 0 to size
      invariant var t := Times(plane, count - Head(size, count));
                t <= Times(size, count - Head(size, count)) && dst[..] == TailSteps(dst == src, d, s, size, count, t)
    {
      TailPlane(dst, src, size, count, plane, d, s);
    }
  }

  /** shuffle_ssse3 in the forward direction. */
  method SimdShuffle(dst: array<byte>, src: array<byte>, size: nat, count: nat)
    requires SimdSize(size) && src.Length == dst.Length == Times(size, count)
    modifies dst
    ensures dst[..] == if dst == src then SimdInPlace(old(src[..]), size, count)
                       else SimdForward(old(dst[..]), old(src[..]), size, count)
  {
    ghost var d, s := dst[..], src[..];
    hide Head;
    hide Times;
    hide Blocks;
    hide TailSteps;
    hide SimdForward;
    BlockLoop(dst, src, size, count);
    if Head(size, count) < count {
      TailLoop(dst, src, size, count);
      StepsInPlace(Blocks(s, s, size, count), size, count, Times(size, count - Head(size, count)));
      ForwardSteps(d, s, size, count);
    } else if dst != src {
      BlocksOnly(d, s, size, count);
    }
  }

  lemma {:induction false} BlocksOnly(d: bytes, s: bytes, size: nat, count: nat)
    requires SimdSize(size) && Head(size, count) == count && |s| == |d| == Times(size, count)
    ensures Blocks(d, s, size, count) == SimdForward(d, s, size, count)
  {
    forall p | 0 <= p < |d| ensures Blocks(d, s, size, count)[p] == SimdForward(d, s, size, count)[p] {
      OnlyBlocks(d, s, size, count, p);
    }
  }

  /** What the reverse tail has done to b before it takes element `elem` of byte plane `plane`. */
  ghost predicate TailBackTo(r: bytes, b: bytes, s: bytes, size: nat, count: nat, plane: nat, elem: nat)
    requires SimdSize(size) && |s| == |b| == Times(size, count)
  {
    |r| == |b| && forall p :: 0 <= p < |b| ==>
      From(p, count, size) < |s| &&
      r[p] == if p >= Times(size, Head(size, count)) && (p % size < plane || (p % size == plane && p / size < elem))
              then s[From(p, count, size)] else b[p]
  }

  method TailBackAssign(dst: array<byte>, src: array<byte>, size: nat, count: nat, plane: nat, elem: nat, ghost b: bytes)
    requires SimdSize(size) && dst != src && plane < size && Head(size, count) <= elem < count
    requires src.Length == dst.Length == |b| == Times(size, count)
    requires TailBackTo(dst[..], b, src[..], size, count, plane, elem)
    modifies dst
    ensures TailBackTo(dst[..], b, src[..], size, count, plane, elem + 1)
  {
    hide *;
    BackPlaces(size, count, plane, elem);
    BackStep(dst[..], b, src[..], size, count, plane, elem);
    TimesIsMul(plane, count);
    TimesIsMul(elem, size);
    dst[elem * size + plane] := src[plane * count + elem];
  }

  lemma {:induction false} BackStep(r: bytes, b: bytes, s: bytes, size: nat, count: nat, plane: nat, elem: nat)
    requires SimdSize(size) && plane < size && Head(size, count) <= elem < count && |s| == |b| == Times(size, count)
    requires TailBackTo(r, b, s, size, count, plane, elem)
    ensures var p, q := Times(elem, size) + plane, Times(plane, count) + elem;
            p < |r| == |s| && q < |s| && TailBackTo(r[p := s[q]], b, s, size, count, plane, elem + 1)
  {
    hide From;
    hide Head;
    hide Times;
    BackPlaces(size, count, plane, elem);
    var p, q := Times(elem, size) + plane, Times(plane, count) + elem;
    forall x | 0 <= x < |b|
      ensures From(x, count, size) < |s|
      ensures r[p := s[q]][x] == if x >= Times(size, Head(size, count)) && (x % size < plane || (x % size == plane && x / size < elem + 1))
                                 then s[From(x, count, size)] else b[x]
    {
      OtherPlace(x, plane, elem, size);
    }
  }

  lemma {:induction false} OtherPlace(x: nat, plane: nat, elem: nat, size: nat)
    requires plane < size
    ensures x == Times(elem, size) + plane <==> x % size == plane && x / size == elem
  {
    TimesDivModDef(x, size);
    TimesDivMod(elem, plane, size);
  }

  lemma {:induction false} BackPlaces(size: nat, count: nat, plane: nat, elem: nat)
    requires SimdSize(size) && plane < size && Head(size, count) <= elem < count
    ensures var p := Times(elem, size) + plane;
            && Times(size, Head(size, count)) <= p < Times(size, count) && p % size == plane && p / size == elem
            && From(p, count, size) == Times(plane, count) + elem < Times(size, count)
  {
    TimesDivMod(elem, plane, size);
    TimesLess(elem, count, size);
    TimesLess(plane, size, count);
    TimesCommutes(size, count);
    TimesCommutes(size, Head(size, count));
    TimesMonotone(Head(size, count), elem, size);
    hide Head;
    hide Times;
  }

  /** The reverse tail across buffers. */
  method TailBackLoop(dst: array<byte>, src: array<byte>, size: nat, count: nat)
    requires SimdSize(size) && dst != src && src.Length == dst.Length == Times(size, count)
    modifies dst
    ensures TailBackTo(dst[..], old(dst[..]), src[..], size, count, size, Head(size, count))
  {
    ghost var b := dst[..];
    BackStarts(b, src[..], size, count);
    for plane := 0 to size
      invariant TailBackTo(dst[..], b, src[..], size, count, plane, Head(size, count))
    {
      hide TailBackTo;
      for elem := Head(size, count) to count
        invariant TailBackTo(dst[..], b, src[..], size, count, plane, elem)
      {
        TailBackAssign(dst, src, size, count, plane, elem, b);
      }
      NextBackPlane(dst[..], b, src[..], size, count, plane);
    }
  }

  lemma {:induction false} BackStarts(b: bytes, s: bytes, size: nat, count: nat)
    requires SimdSize(size) && |s| == |b| == Times(size, count)
    ensures TailBackTo(b, b, s, size, count, 0, Head(size, count))
  {
    hide From;
    hide Head;
    hide Times;
    forall p: nat | p < |b| ensures From(p, count, size) < |s| && p / size < count && BehindHeadAt(size, count, p) {
      BackPlace(size, count, p);
    }
  }

  ghost predicate BehindHeadAt(size: nat, count: nat, p: nat)
    requires SimdSize(size)
  {
    p >= Times(size, Head(size, count)) ==> p / size >= Head(size, count)
  }

  lemma {:induction false} BackPlace(size: nat, count: nat, p: nat)
    requires SimdSize(size) && p < Times(size, count)
    ensures From(p, count, size) < Times(size, count) && p / size < count && BehindHeadAt(size, count, p)
  {
    TimesCommutes(size, count);
    FromInside(p, count, size);
    hide Head;
    hide Times;
    if p >= Times(size, Head(size, count)) { BehindHead(size, count, p); }
  }

  lemma {:induction false} BehindHead(size: nat, count: nat, p: nat)
    requires SimdSize(size) && p >= Times(size, Head(size, count))
    ensures p / size >= Head(size, count)
  {
    TimesDivModDef(p, size);
    TimesCommutes(size, Head(size, count));
    if p / size < Head(size, count) { TimesLess(p / size, Head(size, count), size); }
    hide Head;
  }

  lemma {:induction false} NextBackPlane(r: bytes, b: bytes, s: bytes, size: nat, count: nat, plane: nat)
    requires SimdSize(size) && |s| == |b| == Times(size, count) && TailBackTo(r, b, s, size, count, plane, count)
    ensures TailBackTo(r, b, s, size, count, plane + 1, Head(size, count))
  {
    hide From;
    hide Head;
    hide Times;
    forall p: nat | p < |b| ensures p / size < count && BehindHeadAt(size, count, p) {
      BackPlace(size, count, p);
    }
  }

  /** shuffle_ssse3 in the reverse direction, across buffers. */
  method SimdUnshuffle(dst: array<byte>, src: array<byte>, size: nat, count: nat)
    requires SimdSize(size) && dst != src && src.Length == dst.Length == Times(size, count)
    modifies dst
    ensures dst[..] == SimdReverse(src[..], size, count)
  {
    ghost var d := dst[..];
    BlockLoop(dst, src, size, count);
    TailBackLoop(dst, src, size, count);
    ReverseDone(dst[..], d, src[..], size, count);
  }

  lemma {:induction false} ReverseDone(r: bytes, d: bytes, s: bytes, size: nat, count: nat)
    requires SimdSize(size) && |s| == |d| == Times(size, count)
    requires TailBackTo(r, Blocks(d, s, size, count), s, size, count, size, Head(size, count))
    ensures r == SimdReverse(s, size, count)
  {
    forall p | 0 <= p < |s| ensures r[p] == SimdReverse(s, size, count)[p] {
      assert p % size < size;
    }
  }
}
