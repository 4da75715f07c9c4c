/** h5cpp's byte shuffle filter: the scalar loops, across two buffers and in one. */
module Shuffle {
  import opened Arith
  import opened Filters
  import opened Pipeline

  /** The element size: the first parameter if it is there and above 1. */
  function TypeSize(params: seq<nat>): (size: nat)
    ensures size > 0
  {
    if params != [] && params[0] > 1 then params[0] else 1
  }

  /** Assignment t of the loop nest reads here and writes to t: elements of `size` bytes, byte planes
      of `count` bytes. */
  function From(t: nat, size: nat, count: nat): nat
  {
    if count == 0 then 0 else Times(t % count, size) + t / count
  }

  lemma {:induction false} FromInside(t: nat, size: nat, count: nat)
    requires t < Times(size, count)
    ensures count > 0 && t / count < size && t % count < count && t == Times(t / count, count) + t % count
    ensures From(t, size, count) < Times(size, count)
  {
    TimesIsMul(size, count);
    TimesIsMul(count, size);
    TimesDivModDef(t, count);
    if size <= t / count {
      if size < t / count { TimesLess(size, t / count, count); }
    }
    TimesLess(t % count, count, size);
  }

  /** The same with the roles of elements and planes exchanged leads back. */
  lemma {:induction false} FromBack(t: nat, size: nat, count: nat)
    requires t < Times(size, count)
    ensures count > 0 && size > 0 && From(From(t, size, count), count, size) == t
  {
    FromInside(t, size, count);
    TimesDivMod(t % count, t / count, size);
  }

  /** The loop nest from buffer s into another buffer d. */
  function Across(d: bytes, s: bytes, size: nat, count: nat): (r: bytes)
    requires Times(size, count) <= |s| && Times(size, count) <= |d|
    ensures |r| == |d|
  {
    seq(|d|, t requires 0 <= t < |d| =>
      if t < Times(size, count) then FromInside(t, size, count); s[From(t, size, count)] else d[t])
  }

  /** Its first t assignments in a single buffer. */
  function Overwriting(s: bytes, size: nat, count: nat, t: nat): (r: bytes)
    requires t <= Times(size, count) <= |s|
    ensures |r| == |s|
  {
    if t == 0 then s
    else
      FromInside(t - 1, size, count);
      var r := Overwriting(s, size, count, t - 1);
      r[t - 1 := r[From(t - 1, size, count)]]
  }

  /** The destination after t assignments, in another buffer d or in the source's own. */
  function After(same: bool, d: bytes, s: bytes, size: nat, count: nat, t: nat): (r: bytes)
    requires t <= Times(size, count) <= |s| && Times(size, count) <= |d|
  {
    if same then Overwriting(s, size, count, t) else Across(d, s, size, count)[..t] + d[t..]
  }

  lemma {:induction false} AfterStep(same: bool, d: bytes, s: bytes, size: nat, count: nat, t: nat)
    requires t < Times(size, count) <= |s| && Times(size, count) <= |d|
    ensures From(t, size, count) < Times(size, count)
    ensures var r := After(same, d, s, size, count, t);
            && t < |r| && From(t, size, count) < |r| == (if same then |s| else |d|)
            && After(same, d, s, size, count, t + 1) ==
               r[t := (if same then r else s)[From(t, size, count)]]
  {
    FromInside(t, size, count);
    hide From;
    hide Times;
  }

  /** One assignment of the loop nest. */
  method Assign(dst: array<byte>, src: array<byte>, size: nat, count: nat, plane: nat, elem: nat, ghost d: bytes, ghost s: bytes)
    requires plane < size && elem < count
    requires Times(size, count) <= |s| == src.Length && Times(size, count) <= |d| == dst.Length
    requires dst != src ==> src[..] == s
    requires Times(plane, count) + elem <= Times(size, count)
    requires dst[..] == After(dst == src, d, s, size, count, Times(plane, count) + elem)
    modifies dst
    ensures Times(plane, count) + elem + 1 <= Times(size, count)
    ensures dst[..] == After(dst == src, d, s, size, count, Times(plane, count) + elem + 1)
  {
    ghost var t := Times(plane, count) + elem;
    TimesLess(plane, size, count);
    FromInside(t, size, count);
    TimesDivMod(plane, elem, count);
    TimesIsMul(plane, count);
    TimesIsMul(elem, size);
    AfterStep(dst == src, d, s, size, count, t);
    assert From(t, size, count) == elem * size + plane && t == plane * count + elem;
    hide *;
    dst[plane * count + elem] := src[elem * size + plane];
  }

  lemma {:induction false} BeforeAndAfter(same: bool, d: bytes, s: bytes, size: nat, count: nat)
    requires Times(size, count) <= |s| && Times(size, count) <= |d| && (same ==> d == s)
    ensures After(same, d, s, size, count, 0) == d
    ensures After(same, d, s, size, count, Times(size, count)) ==
            if same then Overwriting(s, size, count, Times(size, count)) else Across(d, s, size, count)
  {
  }

  lemma {:induction false} NextPlane(plane: nat, count: nat)
    ensures Times(plane + 1, count) == Times(plane, count) + count && Times(0, count) == 0
  {
  }

  /** The inner loop: one plane. */
  method Plane(dst: array<byte>, src: array<byte>, size: nat, count: nat, plane: nat, ghost d: bytes, ghost s: bytes)
    requires plane < size && Times(size, count) <= |s| == src.Length && Times(size, count) <= |d| == dst.Length
    requires Times(plane, count) <= Times(size, count) && (dst != src ==> src[..] == s)
    requires dst[..] == After(dst == src, d, s, size, count, Times(plane, count))
    modifies dst
    ensures Times(plane + 1, count) <= Times(size, count)
    ensures dst[..] == After(dst == src, d, s, size, count, Times(plane + 1, count))
  {
    hide *;
    NextPlane(plane, count);
    for elem := 0 to count
      invariant Times(plane, count) + elem <= Times(size, count)
      invariant dst[..] == After(dst == src, d, s, size, count, Times(plane, count) + elem)
    {
      Assign(dst, src, size, count, plane, elem, d, s);
    }
  }

  /** The forward loops, for elements of more than one byte. */
  method ShuffleLoops(dst: array<byte>, src: array<byte>, size: nat, count: nat)
    requires Times(size, count) <= src.Length && Times(size, count) <= dst.Length
    modifies dst
    ensures dst[..] == if dst == src then Overwriting(old(src[..]), size, count, Times(size, count))
                       else Across(old(dst[..]), old(src[..]), size, count)
  {
    ghost var d, s := dst[..], src[..];
    hide *;
    BeforeAndAfter(dst == src, d, s, size, count);
    NextPlane(0, count);
    for plane := 0 to size
      invariant Times(plane, count) <= Times(size, count)
      invariant dst[..] == After(dst == src, d, s, size, count, Times(plane, count))
    {
      Plane(dst, src, size, count, plane, d, s);
    }
  }

  /** The destination after t assignments of the reverse loops. */
  ghost predicate PartlyBack(r: bytes, d: bytes, s: bytes, size: nat, count: nat, t: nat)
    requires t <= Times(size, count) <= |s| && Times(size, count) <= |d|
  {
    |r| == |d| && forall i :: 0 <= i < |d| ==>
      r[i] == if i < Times(count, size) && From(i, count, size) < t then s[From(i, count, size)] else d[i]
  }

  method AssignBack(dst: array<byte>, src: array<byte>, size: nat, count: nat, plane: nat, elem: nat, ghost d: bytes)
    requires dst != src && plane < size && elem < count
    requires Times(size, count) <= src.Length && Times(size, count) <= |d|
    requires Times(plane, count) + elem <= Times(size, count)
    requires PartlyBack(dst[..], d, src[..], size, count, Times(plane, count) + elem)
    modifies dst
    ensures Times(plane, count) + elem + 1 <= Times(size, count)
    ensures PartlyBack(dst[..], d, src[..], size, count, Times(plane, count) + elem + 1)
  {
    ghost var t := Times(plane, count) + elem;
    TimesLess(plane, size, count);
    FromInside(t, size, count);
    FromBack(t, size, count);
    TimesDivMod(plane, elem, count);
    TimesIsMul(plane, count);
    TimesIsMul(elem, size);
    TimesIsMul(size, count);
    TimesIsMul(count, size);
    forall i | 0 <= i < Times(count, size) && From(i, count, size) == t ensures i == From(t, size, count) {
      FromBack(i, count, size);
    }
    dst[elem * size + plane] := src[plane * count + elem];
  }

  /** The reverse loops. */
  method UnshuffleLoops(dst: array<byte>, src: array<byte>, size: nat, count: nat)
    requires dst != src && Times(size, count) <= src.Length && Times(size, count) <= dst.Length
    modifies dst
    ensures Times(size, count) == Times(count, size)
    ensures dst[..] == Across(old(dst[..]), src[..], count, size)
  {
    ghost var d := dst[..];
    TimesIsMul(size, count);
    TimesIsMul(count, size);
    forall i | 0 <= i < Times(count, size) ensures From(i, count, size) < Times(size, count) { FromInside(i, count, size); }
    hide From;
    for plane := 0 to size
      invariant Times(plane, count) <= Times(size, count)
      invariant PartlyBack(dst[..], d, src[..], size, count, Times(plane, count))
    {
      TimesLess(plane, size, count);
      for elem := 0 to count
        invariant Times(plane, count) + elem <= Times(size, count)
        invariant PartlyBack(dst[..], d, src[..], size, count, Times(plane, count) + elem)
      {
        hide PartlyBack;
        AssignBack(dst, src, size, count, plane, elem, d);
      }
      assert Times(plane + 1, count) == Times(plane, count) + count;
    }
    assert dst[..] == Across(d, src[..], count, size);
  }

  // ----- the filter -----

  function Whole(x: bytes, size: nat): (count: nat)
    requires size > 0
    ensures Times(size, count) == Times(count, size) <= |x|
  {
    TimesDivModDef(|x|, size);
    TimesIsMul(|x| / size, size);
    TimesIsMul(size, |x| / size);
    |x| / size
  }

  function Shuffled(x: bytes, size: nat): (r: bytes)
    requires size > 0
    ensures |r| == |x|
  {
    if size == 1 then x else Across(x, x, size, Whole(x, size))
  }

  /** What the filter makes of its input when it writes over it. */
  function ShuffledInPlace(x: bytes, size: nat): (r: bytes)
    requires size > 0
    ensures |r| == |x|
  {
    if size == 1 then x else Overwriting(x, size, Whole(x, size), Times(size, Whole(x, size)))
  }

  function Unshuffled(x: bytes, size: nat): (r: bytes)
    requires size > 0
    ensures |r| == |x|
  {
    if size == 1 then x else Across(x, x, Whole(x, size), size)
  }

  /** H5Z_FILTER_SHUFFLE, one of the ids the synchronous writer runs in one buffer. */
  function ShuffleFilter(params: seq<nat>): Filter {
    var size := TypeSize(params);
    Filter(true, x => Shuffled(x, size), x => ShuffledInPlace(x, size), x => Unshuffled(x, size))
  }

  /** filter::shuffle on the first `length` bytes of src; whole elements fill them. */
  method Shuffle(dst: array<byte>, src: array<byte>, length: nat, params: seq<nat>, reverse: bool) returns (n: nat)
    requires length <= src.Length && length <= dst.Length && length % TypeSize(params) == 0
    requires reverse ==> dst != src
    modifies dst
    ensures n == length
    ensures dst[..n] == if reverse then ShuffleFilter(params).decode(old(src[..length]))
                        else if dst == src then ShuffleFilter(params).oneBuffer(old(src[..length]))
                        else ShuffleFilter(params).encode(old(src[..length]))
  {
    var size := TypeSize(params);
    n := length;
    ghost var x := src[..length];
    if size == 1 || length == 0 {
      forall i | 0 <= i < length {
        dst[i] := src[i];
      }
      assert dst[..n] == x;
      return;
    }
    var count := length / size;
    assert count == Whole(x, size);
    TimesDivModDef(length, size);
    TimesIsMul(count, size);
    TimesIsMul(size, count);
    ghost var d, s := dst[..], src[..];
    if reverse {
      UnshuffleLoops(dst, src, size, count);
      AcrossPrefix(d, s, x, count, size);
    } else {
      ShuffleLoops(dst, src, size, count);
      if dst == src { WithinPrefix(s, x, size, count, Times(size, count)); } else { AcrossPrefix(d, s, x, size, count); }
    }
    assert dst[..n] == dst[..][..n];
    hide Across;
    hide Overwriting;
    hide Times;
  }

  lemma {:induction false} AcrossPrefix(d: bytes, s: bytes, x: bytes, size: nat, count: nat)
    requires Times(size, count) == |x| <= |d| && x <= s
    ensures Across(d, s, size, count)[..|x|] == Across(x, x, size, count)
  {
    forall t | 0 <= t < |x| ensures Across(d, s, size, count)[t] == Across(x, x, size, count)[t] {
      FromInside(t, size, count);
    }
  }

  lemma {:induction false} WithinPrefix(s: bytes, x: bytes, size: nat, count: nat, t: nat)
    requires t <= Times(size, count) <= |x| && x <= s
    ensures Overwriting(s, size, count, t)[..|x|] == Overwriting(x, size, count, t)
  {
    if t > 0 {
      WithinPrefix(s, x, size, count, t - 1);
      FromInside(t - 1, size, count);
      var r, q := Overwriting(s, size, count, t - 1), Overwriting(x, size, count, t - 1);
      assert r[From(t - 1, size, count)] == r[..|x|][From(t - 1, size, count)];
    }
  }

  // ----- when one buffer is enough -----

  lemma {:induction false} FromIdle(t: nat, size: nat, count: nat)
    requires t < Times(size, count) && (size <= 1 || count <= 1)
    ensures From(t, size, count) == t
  {
    FromInside(t, size, count);
    TimesIsMul(t % count, size);
    TimesIsMul(t / count, count);
  }

  /** Nothing moves if there is one plane or one element. */
  lemma {:induction false} WithinIdle(s: bytes, size: nat, count: nat, t: nat)
    requires t <= Times(size, count) <= |s| && (size <= 1 || count <= 1)
    ensures Overwriting(s, size, count, t) == s
  {
    if t > 0 {
      WithinIdle(s, size, count, t - 1);
      FromIdle(t - 1, size, count);
      hide From;
    }
  }

  lemma {:induction false} FirstFrom(t: nat, size: nat, count: nat)
    requires 0 < size && t < count
    ensures t <= Times(t, size) == From(t, size, count) < Times(size, count) && count <= Times(size, count)
  {
    DivModUnique(0, t, count);
    TimesLess(0, size, count);
    FromInside(t, size, count);
    TimesAtLeast(t, size);
  }

  lemma {:induction false} TimesAtLeast(k: nat, m: nat)
    requires m > 0
    ensures k <= Times(k, m)
  {
    if k > 0 { TimesAtLeast(k - 1, m); }
  }

  /** The first plane still reads what nobody has overwritten ... */
  lemma {:induction false} FirstPlane(s: bytes, size: nat, count: nat, t: nat)
    requires 0 < size && t <= count && Times(size, count) <= |s|
    ensures t <= Times(size, count)
    ensures forall i :: 0 <= i < t ==> Times(i, size) < |s| && Overwriting(s, size, count, t)[i] == s[Times(i, size)]
    ensures forall i :: t <= i < |s| ==> Overwriting(s, size, count, t)[i] == s[i]
  {
    if t > 0 {
      FirstPlane(s, size, count, t - 1);
      FirstFrom(t - 1, size, count);
      assert Overwriting(s, size, count, t) ==
             Overwriting(s, size, count, t - 1)[t - 1 := Overwriting(s, size, count, t - 1)[From(t - 1, size, count)]];
      hide Overwriting;
      hide From;
      hide Times;
    }
  }

  lemma {:induction false} Settled(s: bytes, size: nat, count: nat, t: nat, u: nat)
    requires t <= u <= Times(size, count) <= |s|
    ensures forall i :: 0 <= i < t ==> Overwriting(s, size, count, u)[i] == Overwriting(s, size, count, t)[i]
  {
    if t < u { Settled(s, size, count, t, u - 1); }
  }

  lemma {:induction false} SecondPlaceIndex(size: nat, count: nat)
    requires size >= 2 && count >= 2
    ensures count < Times(size, count) && size < Times(size, count)
    ensures From(count, size, count) == 1 && Times(1, size) == size
  {
    TimesIsMul(size, count);
    TimesIsMul(count, size);
    TimesLess(1, size, count);
    TimesLess(1, count, size);
    TimesIsMul(1, size);
    TimesIsMul(1, count);
    assert count / count == 1 && count % count == 0;
  }

  /** ... and the second begins with a byte the first has replaced. */
  lemma {:induction false} SecondPlane(s: bytes, size: nat, count: nat)
    requires size >= 2 && count >= 2 && Times(size, count) <= |s|
    ensures count < Times(size, count) && size < Times(size, count)
    ensures Overwriting(s, size, count, Times(size, count))[count] == s[size]
    ensures Across(s, s, size, count)[count] == s[1]
  {
    SecondPlaceIndex(size, count);
    FirstPlane(s, size, count, count);
    Settled(s, size, count, count + 1, Times(size, count));
    var r := Overwriting(s, size, count, count);
    assert Overwriting(s, size, count, count + 1) == r[count := r[1]];
    hide From;
    hide Times;
  }

  /** Does one buffer shuffle s as two do? */
  ghost predicate SameInOneBuffer(s: bytes, size: nat, count: nat)
    requires |s| == Times(size, count)
  {
    Overwriting(s, size, count, |s|) == Across(s, s, size, count)
  }

  lemma {:induction false} OneBufferIdle(s: bytes, size: nat, count: nat)
    requires |s| == Times(size, count) && (size <= 1 || count <= 1)
    ensures SameInOneBuffer(s, size, count)
  {
    WithinIdle(s, size, count, |s|);
    forall t | 0 <= t < |s| ensures Across(s, s, size, count)[t] == s[t] { FromIdle(t, size, count); }
  }

  lemma {:induction false} OneBufferFails(size: nat, count: nat) returns (s: bytes)
    requires size >= 2 && count >= 2
    ensures |s| == Times(size, count) && !SameInOneBuffer(s, size, count)
  {
    s := seq(Times(size, count), i => if i == 1 then 1 else 0);
    SecondPlane(s, size, count);
    hide Across;
    hide Overwriting;
    hide Times;
  }

  /** One buffer shuffles every chunk exactly if elements are single bytes or there is one element. */
  lemma {:induction false} OneBufferIff(size: nat, count: nat)
    requires size > 0
    ensures (forall s: bytes :: |s| == Times(size, count) ==> SameInOneBuffer(s, size, count))
        <==> size == 1 || count <= 1
  {
    if size == 1 || count <= 1 {
      forall s: bytes | |s| == Times(size, count) ensures SameInOneBuffer(s, size, count) {
        OneBufferIdle(s, size, count);
      }
    } else {
      var s := OneBufferFails(size, count);
    }
  }

  // ----- what it does to stored chunks -----

  lemma {:induction false} WholeOf(x: bytes, size: nat, count: nat)
    requires size > 0 && |x| == Times(size, count)
    ensures Whole(x, size) == count
  {
    TimesIsMul(size, count);
    TimesIsMul(count, size);
    TimesDivMod(count, 0, size);
  }

  lemma {:induction false} AcrossBack(x: bytes, y: bytes, size: nat, count: nat)
    requires |x| == |y| == Times(size, count) == Times(count, size)
    requires y == Across(x, x, size, count)
    ensures Across(y, y, count, size) == x
  {
    forall t | 0 <= t < |x| ensures Across(y, y, count, size)[t] == x[t] {
      FromInside(t, count, size);
      FromBack(t, count, size);
      assert y[From(t, count, size)] == x[From(From(t, count, size), size, count)];
    }
  }

  /** Shuffling whole elements and its reverse undo each other. */
  lemma {:induction false} ShuffleBijective(x: bytes, size: nat, count: nat)
    requires size > 0 && |x| == Times(size, count)
    ensures Unshuffled(Shuffled(x, size), size) == x && Shuffled(Unshuffled(x, size), size) == x
  {
    TimesIsMul(size, count);
    TimesIsMul(count, size);
    WholeOf(x, size, count);
    WholeOf(Shuffled(x, size), size, count);
    WholeOf(Unshuffled(x, size), size, count);
    if size > 1 {
      AcrossBack(x, Shuffled(x, size), size, count);
      AcrossBack(x, Unshuffled(x, size), count, size);
    }
  }

  /** What comes back of a chunk that went through the shuffle filter. */
  function ComesBack(params: seq<nat>, pooled: bool, d: bytes): bytes {
    Decode([ShuffleFilter(params)], Encode(Used([ShuffleFilter(params)], pooled), d))
  }

  lemma {:induction false} ReadBackOfShuffle(params: seq<nat>, pooled: bool, d: bytes)
    requires d != []
    ensures ComesBack(params, pooled, d) ==
            Unshuffled(if pooled then Shuffled(d, TypeSize(params)) else ShuffledInPlace(d, TypeSize(params)), TypeSize(params))
  {
    var f, size := ShuffleFilter(params), TypeSize(params);
    var u := Used([f], pooled);
    var out := if pooled then Shuffled(d, size) else ShuffledInPlace(d, size);
    assert |u| == 1 && u[0].encode(d) == out;
    assert EncodeFrom(u, 1, out, {}) == Stored({}, out);
    assert Encode(u, d) == Stored({}, out);
    assert DecodeFrom([f], 0, f.decode(out), {}) == f.decode(out);
  }

  lemma {:induction false} ChunkSurvivesIff(params: seq<nat>, pooled: bool, count: nat, d: bytes)
    requires count > 0 && |d| == Times(TypeSize(params), count)
    ensures ComesBack(params, pooled, d) == d <==> pooled || TypeSize(params) == 1 || SameInOneBuffer(d, TypeSize(params), count)
  {
    var size := TypeSize(params);
    TimesIsMul(size, count);
    ReadBackOfShuffle(params, pooled, d);
    ShuffleBijective(d, size, count);
    ShuffleBijective(ShuffledInPlace(d, size), size, count);
    WholeOf(d, size, count);
    hide ComesBack;
    hide Unshuffled;
  }

  /** Through a worker every chunk comes back; through the synchronous writer every chunk of `count`
      elements does exactly if elements are single bytes or there is one of them. */
  lemma {:induction false} ShuffledChunksSurviveIff(params: seq<nat>, pooled: bool, count: nat)
    requires count > 0
    ensures (forall d: bytes :: |d| == Times(TypeSize(params), count) ==> ComesBack(params, pooled, d) == d)
        <==> pooled || TypeSize(params) == 1 || count == 1
  {
    hide ComesBack;
    hide SameInOneBuffer;
    forall d: bytes | |d| == Times(TypeSize(params), count)
      ensures ComesBack(params, pooled, d) == d <==> pooled || TypeSize(params) == 1 || SameInOneBuffer(d, TypeSize(params), count)
    {
      ChunkSurvivesIff(params, pooled, count, d);
    }
    OneBufferIff(TypeSize(params), count);
  }

  /** The shuffle filter may write over its input exactly for single bytes. */
  lemma {:induction false} ShuffleAliasSafeIff(params: seq<nat>)
    ensures AliasSafe([ShuffleFilter(params)]) <==> TypeSize(params) == 1
  {
    var f, size := ShuffleFilter(params), TypeSize(params);
    assert AllInPlace([f]);
    if size > 1 {
      var s := OneBufferFails(size, 2);
      WholeOf(s, size, 2);
      assert [f][0].oneBuffer(s) != [f][0].encode(s);
    }
  }

  /** The smallest case: two elements of two bytes. */
  lemma {:induction false} TwoElementsInOneBuffer()
    ensures Shuffled([10, 11, 20, 21], 2) == [10, 20, 11, 21]
    ensures ShuffledInPlace([10, 11, 20, 21], 2) == [10, 20, 20, 21]
  {
    var s: bytes := [10, 11, 20, 21];
    assert Times(2, 2) == Times(1, 2) + 2 == 4;
    assert From(0, 2, 2) == 0 && From(1, 2, 2) == 2 && From(2, 2, 2) == 1 && From(3, 2, 2) == 3;
    WholeOf(s, 2, 2);
    assert Overwriting(s, 2, 2, 1) == s;
    assert Overwriting(s, 2, 2, 2) == [10, 20, 20, 21];
    assert Overwriting(s, 2, 2, 3) == [10, 20, 20, 21];
  }
}
