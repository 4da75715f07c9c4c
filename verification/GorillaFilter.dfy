/** The Gorilla filter on bytes: a header with the element size and the count, the first element, and the
    bits of the others. */
module GorillaFilter {
  import opened Common
  import opened Arith
  import opened Bits
  import opened Filters
  import opened BitBuffer
  import opened Gorilla

  // ----- elements -----

  /** A word of memory, its lowest byte first. */
  function WordOf(b: bytes): nat {
    if b == [] then 0 else b[0] as nat + 256 * WordOf(b[1..])
  }

  function BytesOf(v: nat, n: nat): (b: bytes)
    ensures |b| == n
  {
    if n == 0 then [] else [(v % 256) as byte] + BytesOf(v / 256, n - 1)
  }

  lemma {:induction false} BytesBack(b: bytes)
    ensures BytesOf(WordOf(b), |b|) == b
  {
    if b != [] {
      BytesBack(b[1..]);
      assert WordOf(b) / 256 == WordOf(b[1..]) && WordOf(b) % 256 == b[0] as nat;
    }
  }

  lemma {:induction false} WordBelow(b: bytes)
    ensures WordOf(b) < Pow2(8 * |b|)
  {
    if b != [] {
      WordBelow(b[1..]);
      EightMore(8 * (|b| - 1));
    }
  }

  lemma {:induction false} EightMore(n: nat)
    ensures Pow2(n + 8) == 256 * Pow2(n)
  {
    assert Pow2(n + 2) == 4 * Pow2(n);
    assert Pow2(n + 4) == 4 * Pow2(n + 2);
    assert Pow2(n + 6) == 4 * Pow2(n + 4);
  }

  /** The first n elements of t bytes. */
  function ValuesOf(x: bytes, t: nat, n: nat): (vs: seq<nat>)
    requires Times(n, t) <= |x|
    ensures |vs| == n && Words(vs, 8 * t)
  {
    if n == 0 then []
    else
      var b := x[Times(n - 1, t)..Times(n, t)];
      WordBelow(b);
      ValuesOf(x, t, n - 1) + [WordOf(b)]
  }

  function AllBytes(vs: seq<nat>, t: nat): (x: bytes)
    ensures |x| == Times(|vs|, t)
  {
    if vs == [] then [] else AllBytes(vs[..|vs| - 1], t) + BytesOf(vs[|vs| - 1], t)
  }

  lemma {:induction false} NextBytes(x: bytes, t: nat, n: nat)
    requires Times(n + 1, t) <= |x|
    ensures var b := x[Times(n, t)..Times(n + 1, t)];
            && |b| == t && x[..Times(n + 1, t)] == x[..Times(n, t)] + b
            && ValuesOf(x, t, n + 1) == ValuesOf(x, t, n) + [WordOf(b)]
  {
    hide WordOf;
  }

  lemma {:induction false} BytesBehind(vs: seq<nat>, v: nat, t: nat, whole: bytes, front: bytes, b: bytes)
    requires AllBytes(vs, t) == front && whole == front + b && v == WordOf(b) && |b| == t
    ensures AllBytes(vs + [v], t) == whole
  {
    hide *;
    BytesBack(b);
    OneWordMore(vs, v, t);
  }

  lemma {:induction false} NextBytesBack(x: bytes, t: nat, n: nat)
    requires Times(n + 1, t) <= |x| && AllBytes(ValuesOf(x, t, n), t) == x[..Times(n, t)]
    ensures AllBytes(ValuesOf(x, t, n + 1), t) == x[..Times(n + 1, t)]
  {
    hide AllBytes;
    hide WordOf;
    hide ValuesOf;
    hide Pow2;
    NextBytes(x, t, n);
    var b := x[Times(n, t)..Times(n + 1, t)];
    BytesBehind(ValuesOf(x, t, n), WordOf(b), t, x[..Times(n + 1, t)], x[..Times(n, t)], b);
  }

  lemma {:induction false} NoBytesBack(x: bytes, t: nat)
    ensures Times(0, t) == 0 && AllBytes(ValuesOf(x, t, 0), t) == x[..0]
  {
  }

  lemma {:induction false} AllBytesBack(x: bytes, t: nat, n: nat)
    requires Times(n, t) <= |x|
    ensures AllBytes(ValuesOf(x, t, n), t) == x[..Times(n, t)]
  {
    hide *;
    if n == 0 {
      NoBytesBack(x, t);
    } else {
      EndsInOrder(n - 1, n, t);
      AllBytesBack(x, t, n - 1);
      NextBytesBack(x, t, n - 1);
    }
  }

  lemma {:induction false} OneWordMore(vs: seq<nat>, v: nat, t: nat)
    ensures AllBytes(vs + [v], t) == AllBytes(vs, t) + BytesOf(v, t)
  {
    assert (vs + [v])[..|vs|] == vs;
  }

  lemma {:induction false} FirstValue(x: bytes, t: nat, n: nat)
    requires n > 0 && Times(n, t) <= |x|
    ensures t <= |x| && ValuesOf(x, t, n)[0] == WordOf(x[..t])
  {
    if n > 1 {
      FirstValue(x, t, n - 1);
    } else {
      assert Times(1, t) == t;
    }
  }

  // ----- the two directions -----

  predicate ElementSize(t: nat) {
    t == 4 || t == 8
  }

  /** The count is a uint32_t, its highest byte first. */
  const U32: nat := 0x1_0000_0000

  function CountBytes(n: nat): (h: bytes)
    ensures |h| == 4
  {
    var (n1, n2, n3) := (n / 0x100, n / 0x100 / 0x100, n / 0x100 / 0x100 / 0x100);
    [(n3 % 0x100) as byte, (n2 % 0x100) as byte, (n1 % 0x100) as byte, (n % 0x100) as byte]
  }

  function CountOf(h: bytes): nat
    requires |h| == 4
  {
    0x100_0000 * h[0] as nat + 0x1_0000 * h[1] as nat + 0x100 * h[2] as nat + h[3] as nat
  }

  lemma {:induction false} CountBack(n: nat)
    ensures CountOf(CountBytes(n)) == n % U32
  {
    var n1 := n / 0x100;
    var n2 := n1 / 0x100;
    var n3 := n2 / 0x100;
    assert n == U32 * (n3 / 0x100) + CountOf(CountBytes(n)) && CountOf(CountBytes(n)) < U32;
    DivModUnique(n3 / 0x100, CountOf(CountBytes(n)), U32);
  }

  /** How many whole elements there are. */
  function Count(x: bytes, t: nat): (n: nat)
    requires t > 0
    ensures Times(n, t) <= |x| < Times(n, t) + t
  {
    TimesDivModDef(|x|, t);
    |x| / t
  }

  function Header(x: bytes, t: nat): (h: bytes)
    requires ElementSize(t)
    ensures |h| == 5
  {
    [t as byte] + CountBytes(Count(x, t))
  }

  /** The bits of the elements behind the first. */
  function Body(x: bytes, t: nat): seq<bool>
    requires ElementSize(t) && Count(x, t) > 0
  {
    EncodeValues(ValuesOf(x, t, Count(x, t)), 8 * t).bits
  }

  function Compressed(t: nat, x: bytes): bytes
    requires ElementSize(t)
  {
    if Count(x, t) == 0 then [] else Header(x, t) + x[..t] + Pack(Body(x, t))
  }

  function Decompressed(t: nat, y: bytes): bytes
    requires ElementSize(t)
  {
    if |y| < 5 + t || CountOf(y[1..5]) == 0 then []
    else
      var d := DecodeValues(Stream(y[5 + t..]), WordOf(y[5..5 + t]), CountOf(y[1..5]), 8 * t);
      if d.None? then [] else AllBytes(d.value.values, t)
  }

  /** What the filter writes with params[0] == size, 0 for no parameter. */
  function Encoded(size: nat, x: bytes): bytes {
    if x == [] then [] else if ElementSize(size) then Compressed(size, x) else x
  }

  function Decoded(y: bytes): bytes {
    if y == [] || !ElementSize(y[0] as nat) then [] else Decompressed(y[0] as nat, y)
  }

  /** The filter as the pipelines see it; it never runs in one buffer. */
  function GorillaFilter(size: nat): Filter {
    Filter(false, x => Encoded(size, x), x => Encoded(size, x), y => Decoded(y))
  }

  // ----- there and back -----

  lemma {:induction false} CompressedParts(t: nat, x: bytes)
    requires ElementSize(t) && Count(x, t) > 0
    ensures var y := Compressed(t, x);
            && |y| >= 5 + t && y[0] as nat == t && CountOf(y[1..5]) == Count(x, t) % U32
            && y[5..5 + t] == x[..t] && y[5 + t..] == Pack(Body(x, t))
  {
    CountBack(Count(x, t));
    var y := Compressed(t, x);
    assert y[1..5] == CountBytes(Count(x, t));
    hide CountBytes;
    hide CountOf;
    hide Pack;
    hide Body;
  }

  /** The decoder finds all values in a body that it reads to its end. */
  lemma {:induction false} BodyBack(t: nat, x: bytes)
    requires ElementSize(t) && Count(x, t) > 0
    ensures var n := Count(x, t);
            DecodeValues(Stream(Pack(Body(x, t))), WordOf(x[..t]), n, 8 * t)
            == Some(Decoder(ValuesOf(x, t, n), |Body(x, t)|, EncodeValues(ValuesOf(x, t, n), 8 * t).block))
  {
    var vs := ValuesOf(x, t, Count(x, t));
    FirstValue(x, t, Count(x, t));
    StreamOfPack(Body(x, t), []);
    assert Pack(Body(x, t)) + [] == Pack(Body(x, t));
    hide Pack;
    hide Stream;
    hide DecodeValues;
    hide EncodeValues;
    hide ValuesOf;
    hide WordOf;
    hide Pow2;
    ValuesBack(Stream(Pack(Body(x, t))), vs, 8 * t);
  }

  lemma {:induction false} DecompressedParts(t: nat, y: bytes, n: nat, first: bytes, body: bytes, d: Decoder)
    requires ElementSize(t) && |y| >= 5 + t && y[0] as nat == t && CountOf(y[1..5]) == n > 0
    requires y[5..5 + t] == first && y[5 + t..] == body
    requires DecodeValues(Stream(body), WordOf(first), n, 8 * t) == Some(d)
    ensures Decoded(y) == AllBytes(d.values, t)
  {
    hide DecodeValues;
    hide Stream;
    hide WordOf;
    hide CountOf;
    hide AllBytes;
  }

  /** With few enough elements the reverse gives all whole elements back. */
  lemma {:induction false} ElementsBack(t: nat, x: bytes)
    requires ElementSize(t) && 0 < Count(x, t) < U32
    ensures Decoded(Compressed(t, x)) == x[..Times(Count(x, t), t)]
  {
    hide *;
    var n := Count(x, t);
    CompressedParts(t, x);
    BodyBack(t, x);
    AllBytesBack(x, t, n);
    FirstValue(x, t, n);
    assert n % U32 == n;
    var d := Decoder(ValuesOf(x, t, n), |Body(x, t)|, EncodeValues(ValuesOf(x, t, n), 8 * t).block);
    DecompressedParts(t, Compressed(t, x), n, x[..t], Pack(Body(x, t)), d);
  }

  lemma {:induction false} DecodedLength(y: bytes)
    requires y != [] && Decoded(y) != []
    ensures ElementSize(y[0] as nat) && |y| >= 5 && |Decoded(y)| == Times(CountOf(y[1..5]), y[0] as nat)
  {
    hide DecodeValues;
    hide CountOf;
  }

  lemma {:induction false} NoElements(t: nat, x: bytes)
    requires ElementSize(t) && Count(x, t) == 0
    ensures Decoded(Compressed(t, x)) == []
  {
  }

  /** What comes back has as many elements as the header can say. */
  lemma {:induction false} BackLength(t: nat, x: bytes)
    requires ElementSize(t) && Count(x, t) > 0 && Decoded(Compressed(t, x)) != []
    ensures |Decoded(Compressed(t, x))| == Times(Count(x, t) % U32, t)
  {
    var y := Compressed(t, x);
    hide *;
    CompressedParts(t, x);
    DecodedLength(y);
  }

  lemma {:induction false} CountWraps(n: nat)
    ensures n % U32 <= n && (n % U32 == n <==> n < U32)
  {
  }

  lemma {:induction false} BackLengthDecides(t: nat, x: bytes)
    requires ElementSize(t) && Count(x, t) > 0 && Decoded(Compressed(t, x)) == x
    ensures |x| == Times(Count(x, t), t) && Count(x, t) < U32
  {
    var n, m := Count(x, t), Count(x, t) % U32;
    CountWraps(n);
    assert t > 0 && |x| >= Times(n, t);
    NotEmpty(x, t);
    hide *;
    BackLength(t, x);
    assert |x| == Times(m, t);
    if m < n { TimesLess(m, n, t); }
  }

  lemma {:induction false} NotEmpty(x: bytes, t: nat)
    requires t > 0 && Count(x, t) > 0
    ensures x != []
  {
    TimesLess(0, Count(x, t), t);
  }

  /** A chunk comes back exactly if it is whole elements and few enough of them for the header. */
  lemma {:induction false} ComesBackIff(t: nat, x: bytes)
    requires ElementSize(t) && x != []
    ensures Decoded(Encoded(t, x)) == x <==> |x| == Times(Count(x, t), t) && Count(x, t) < U32
  {
    if Count(x, t) == 0 {
      NoElements(t, x);
    } else if Decoded(Compressed(t, x)) == x {
      BackLengthDecides(t, x);
    } else if 0 < Count(x, t) < U32 {
      ElementsBack(t, x);
    }
    hide Compressed;
    hide Decoded;
    hide Times;
  }

  lemma {:induction false} WholeElements(x: bytes, t: nat)
    requires t > 0
    ensures |x| == Times(Count(x, t), t) <==> |x| % t == 0
  {
    TimesDivModDef(|x|, t);
    TimesDivMod(Count(x, t), |x| - Times(Count(x, t), t), t);
  }

  /** All chunks of n bytes come back exactly if the parameter is an element size that divides n with a
      quotient below 2^32: with any other parameter the chunk is passed on without a header, and the
      reverse takes its first byte for one. */
  lemma {:induction false} AllComeBackIff(size: nat, n: nat)
    requires n > 0
    ensures (forall x: bytes :: |x| == n ==> GorillaFilter(size).decode(GorillaFilter(size).encode(x)) == x)
            <==> ElementSize(size) && n % size == 0 && n / size < U32
  {
    var zeros: bytes := seq(n, i => 0);
    if ElementSize(size) {
      forall x: bytes | |x| == n
        ensures Decoded(Encoded(size, x)) == x <==> n % size == 0 && n / size < U32
      {
        ComesBackIff(size, x);
        WholeElements(x, size);
      }
      assert |zeros| == n;
      assert GorillaFilter(size).decode(GorillaFilter(size).encode(zeros)) == Decoded(Encoded(size, zeros));
    } else {
      assert zeros[0] == 0 && |zeros| == n;
      assert Decoded(zeros) == [] != zeros;
      assert GorillaFilter(size).decode(GorillaFilter(size).encode(zeros)) == Decoded(Encoded(size, zeros));
    }
    hide Encoded;
    hide Decoded;
  }

  // ----- how long it gets -----

  lemma {:induction false} WordBack(v: nat, n: nat)
    requires v < Pow2(8 * n)
    ensures WordOf(BytesOf(v, n)) == v
  {
    if n > 0 {
      EightMore(8 * (n - 1));
      WordBack(v / 256, n - 1);
      assert BytesOf(v, n)[1..] == BytesOf(v / 256, n - 1);
    }
  }

  lemma {:induction false} ValuesOfPrefix(x: bytes, y: bytes, t: nat, n: nat)
    requires Times(n, t) <= |x|
    ensures ValuesOf(x + y, t, n) == ValuesOf(x, t, n)
  {
    if n > 0 {
      ValuesOfPrefix(x, y, t, n - 1);
      assert (x + y)[Times(n - 1, t)..Times(n, t)] == x[Times(n - 1, t)..Times(n, t)];
      hide WordOf;
    }
  }

  lemma {:induction false} OneValueMore(x: bytes, b: bytes, t: nat, n: nat)
    requires |x| == Times(n, t) && |b| == t
    ensures |x + b| == Times(n + 1, t) && ValuesOf(x + b, t, n + 1) == ValuesOf(x, t, n) + [WordOf(b)]
  {
    ValuesOfPrefix(x, b, t, n);
    assert (x + b)[|x|..|x| + t] == b;
    hide WordOf;
  }

  lemma {:induction false} OneWordBack(front: seq<nat>, v: nat, t: nat)
    requires Words(front, 8 * t) && v < Pow2(8 * t) && ValuesOf(AllBytes(front, t), t, |front|) == front
    ensures ValuesOf(AllBytes(front + [v], t), t, |front| + 1) == front + [v]
  {
    WordBack(v, t);
    OneWordMore(front, v, t);
    OneValueMore(AllBytes(front, t), BytesOf(v, t), t, |front|);
    hide AllBytes;
    hide ValuesOf;
    hide BytesOf;
    hide WordOf;
    hide Pow2;
    hide Times;
  }

  lemma {:induction false} ValuesOfAllBytes(vs: seq<nat>, t: nat)
    requires Words(vs, 8 * t)
    ensures ValuesOf(AllBytes(vs, t), t, |vs|) == vs
  {
    if vs == [] {
    } else {
      var front, v := vs[..|vs| - 1], vs[|vs| - 1];
      assert vs == front + [v] && |front| + 1 == |vs|;
      assert Words(front, 8 * t) && v < Pow2(8 * t);
      hide *;
      ValuesOfAllBytes(front, t);
      OneWordBack(front, v, t);
    }
  }

  lemma {:induction false} CompressedIs(t: nat, x: bytes)
    requires ElementSize(t) && Count(x, t) > 0
    ensures t <= |x| && Compressed(t, x) == Header(x, t) + x[..t] + Pack(Body(x, t))
    ensures |Compressed(t, x)| == 5 + t + (|Body(x, t)| + 7) / 8
  {
    FirstValue(x, t, Count(x, t));
    hide Pack;
    hide Body;
  }

  /** How many bytes `count` elements take at most. */
  function MostBytes(t: nat, count: nat): nat {
    5 + t + (MostBits(count, 8 * t) + 7) / 8
  }

  lemma {:induction false} CountOfTimes(x: bytes, t: nat, count: nat)
    requires t > 0 && |x| == Times(count, t)
    ensures Count(x, t) == count
  {
    TimesDivMod(count, 0, t);
  }

  lemma {:induction false} SizeAtMost(t: nat, x: bytes)
    requires ElementSize(t) && Count(x, t) > 0
    ensures |Compressed(t, x)| <= MostBytes(t, Count(x, t))
  {
    CompressedIs(t, x);
    ValuesSize(ValuesOf(x, t, Count(x, t)), 8 * t);
    hide Compressed;
    hide MostBits;
    hide EncodeValues;
    hide ValuesOf;
  }

  lemma {:induction false} LongestChunk(t: nat, count: nat) returns (x: bytes)
    requires ElementSize(t) && count > 0
    ensures |x| == Times(count, t) && |Compressed(t, x)| == MostBytes(t, count)
  {
    hide MostBits;
    hide EncodeValues;
    hide ValuesOf;
    hide AllBytes;
    hide Compressed;
    hide Words;
    var vs := MostBitsAttained(count, 8 * t);
    x := AllBytes(vs, t);
    CountOfTimes(x, t, count);
    ValuesOfAllBytes(vs, t);
    CompressedIs(t, x);
  }

  /** The exact size of a buffer that takes every chunk of `count` elements. */
  lemma {:induction false} FitsIff(t: nat, count: nat, capacity: nat)
    requires ElementSize(t) && count > 0
    ensures (forall x: bytes :: |x| == Times(count, t) ==> |Compressed(t, x)| <= capacity) <==> MostBytes(t, count) <= capacity
  {
    assert t > 0;
    hide *;
    var longest := LongestChunk(t, count);
    forall x: bytes | |x| == Times(count, t)
      ensures |Compressed(t, x)| <= MostBytes(t, count)
    {
      CountOfTimes(x, t, count);
      SizeAtMost(t, x);
    }
  }

  /** No chunk gets longer than with a new block for every value that differs from the one before. */
  lemma {:induction false} ChunkNeverWorse(t: nat, x: bytes)
    requires ElementSize(t) && Count(x, t) > 0
    ensures |Compressed(t, x)| <= 5 + t + (NewBlockBits(ValuesOf(x, t, Count(x, t))) + 7) / 8
  {
    CompressedIs(t, x);
    NeverWorseThanNewBlocks(ValuesOf(x, t, Count(x, t)), 8 * t);
    hide Compressed;
    hide EncodeValues;
    hide ValuesOf;
    hide NewBlockBits;
  }

  /** filter_scratch_bound: what the compressors ask for; where lz4 or zstd is not built in, a quarter
      more than the chunk and a little. */
  function ScratchBound(size: nat, deflate: nat, lz4: Option<nat>, zstd: Option<nat>): nat {
    Max(Max(deflate, if lz4.Some? then lz4.value else size + size / 4 + 16),
        Max(if zstd.Some? then zstd.value else size + size / 4 + 128, size + 4))
  }

  function Max(a: nat, b: nat): nat {
    if a < b then b else a
  }

  /** Without zstd every chunk of 8-byte elements fits the scratch buffers. */
  lemma {:induction false} EightBytesFit(count: nat, deflate: nat, lz4: Option<nat>, x: bytes)
    requires count > 0 && |x| == Times(count, 8)
    ensures |Compressed(8, x)| <= ScratchBound(|x|, deflate, lz4, None)
  {
    TimesIsMul(count, 8);
    TimesIsMul(count - 1, 77);
    CountOfTimes(x, 8, count);
    SizeAtMost(8, x);
    hide Compressed;
    hide Times;
  }

  lemma {:induction false} FourBytesBound(count: nat)
    requires count > 0
    ensures MostBytes(4, count) <= Times(count, 5) + 128 <==> count <= 199
  {
    TimesIsMul(count, 5);
    TimesIsMul(count - 1, 45);
  }

  lemma {:induction false} FourBytesScratch(count: nat, deflate: nat)
    requires deflate <= Times(count, 5) + 128
    ensures ScratchBound(Times(count, 4), deflate, None, None) == Times(count, 5) + 128
  {
    TimesIsMul(count, 4);
    TimesIsMul(count, 5);
  }

  /** Without zstd and lz4, and with deflate content with as much, the chunks of 4-byte elements all
      fit exactly if they are not more than 199. */
  lemma {:induction false} FourBytesFitIff(count: nat, deflate: nat)
    requires count > 0 && deflate <= Times(count, 5) + 128
    ensures (forall x: bytes :: |x| == Times(count, 4) ==> |Compressed(4, x)| <= ScratchBound(|x|, deflate, None, None))
            <==> count <= 199
  {
    FourBytesScratch(count, deflate);
    FourBytesBound(count);
    assert ElementSize(4);
    hide *;
    FitsIff(4, count, Times(count, 5) + 128);
  }

  /** Where no compressor asks for more than an eighth above the chunk, some chunk does not fit. */
  lemma {:induction false} SomeChunkOutgrows(t: nat, count: nat, deflate: nat, lz4: nat, zstd: nat) returns (x: bytes)
    requires ElementSize(t) && count > 1
    requires var size := Times(count, t); deflate <= size + size / 8 && lz4 <= size + size / 8 && zstd <= size + size / 8
    ensures |x| == Times(count, t) && |Compressed(t, x)| > ScratchBound(|x|, deflate, Some(lz4), Some(zstd))
  {
    hide Compressed;
    hide Times;
    x := LongestChunk(t, count);
    TimesIsMul(count, t);
    TimesIsMul(count - 1, 13 + 8 * t);
  }

  // ----- a chunk byte by byte -----

  lemma {:induction false} TwoWords(x: bytes)
    requires x == [0, 0, 0, 0, 1, 0, 0, 0]
    ensures Count(x, 4) == 2 && ValuesOf(x, 4, 2) == [0, 1]
  {
    assert Times(0, 4) == 0 && Times(1, 4) == 4 && Times(2, 4) == 8;
    WordOfOne(x[4..8]);
    WordOfNothing(x[0..4]);
    assert ValuesOf(x, 4, 2) == ValuesOf(x, 4, 1) + [WordOf(x[4..8])];
    assert ValuesOf(x, 4, 1) == ValuesOf(x, 4, 0) + [WordOf(x[0..4])];
    hide WordOf;
    hide Times;
  }

  lemma {:induction false} WordOfNothing(b: bytes)
    requires forall i :: 0 <= i < |b| ==> b[i] == 0
    ensures WordOf(b) == 0
  {
    if b != [] { WordOfNothing(b[1..]); }
  }

  lemma {:induction false} WordOfOne(b: bytes)
    requires b == [1, 0, 0, 0]
    ensures WordOf(b) == 1
  {
    WordOfNothing(b[1..]);
  }

  lemma {:induction false} TwoBytes(bits: seq<bool>)
    requires bits == [true, true, false, true, true, true, true, true, false, false, false, false, false, true, true]
    ensures Pack(bits) == [223, 6]
  {
    EightBits(Group(bits, 0));
    SevenBits(Group(bits, 1));
    assert Group(bits, 0) == bits[0..8] && Group(bits, 1) == bits[8..];
    hide ByteOf;
  }

  lemma {:induction false} Pushed(bs: seq<bool>, bit: bool)
    ensures FromBits(bs + [bit]) == 2 * FromBits(bs) + if bit then 1 else 0
  {
    assert (bs + [bit])[..|bs|] == bs;
  }

  lemma {:induction false} TwoBits(bs: seq<bool>, a: bool, b: bool)
    ensures FromBits(bs + [a, b]) == 4 * FromBits(bs) + (if a then 2 else 0) + if b then 1 else 0
  {
    hide FromBits;
    Pushed(bs, a);
    Pushed(bs + [a], b);
    assert bs + [a, b] == bs + [a] + [b];
  }

  lemma {:induction false} FourBits(bs: seq<bool>, a: bool, b: bool, c: bool, d: bool)
    ensures FromBits(bs + [a, b, c, d]) ==
            16 * FromBits(bs) + (if a then 8 else 0) + (if b then 4 else 0) + (if c then 2 else 0) + if d then 1 else 0
  {
    hide FromBits;
    TwoBits(bs, a, b);
    TwoBits(bs + [a, b], c, d);
    assert bs + [a, b, c, d] == bs + [a, b] + [c, d];
  }

  lemma {:induction false} EightBits(g: seq<bool>)
    requires g == [true, true, false, true, true, true, true, true]
    ensures ByteOf(g) == 223
  {
    FourBits([], true, true, false, true);
    FourBits([] + [true, true, false, true], true, true, true, true);
    assert g == [] + [true, true, false, true] + [true, true, true, true];
    assert FromBits([]) == 0;
    assert Shl(FromBits(g), 0) == FromBits(g);
    hide FromBits;
  }

  lemma {:induction false} SevenBits(g: seq<bool>)
    requires g == [false, false, false, false, false, true, true]
    ensures ByteOf(g) == 6
  {
    FourBits([], false, false, false, false);
    Pushed([] + [false, false, false, false], false);
    Pushed([] + [false, false, false, false] + [false], true);
    Pushed([] + [false, false, false, false] + [false] + [true], true);
    assert g == [] + [false, false, false, false] + [false] + [true] + [true];
    assert FromBits([]) == 0;
    assert Shl(FromBits(g), 1) == Shl(2 * FromBits(g), 0) == 2 * FromBits(g);
    hide FromBits;
  }

  lemma {:induction false} BodyOfTwoWords(x: bytes)
    requires x == [0, 0, 0, 0, 1, 0, 0, 0]
    ensures Count(x, 4) == 2
    ensures Body(x, 4) == [true, true, false, true, true, true, true, true, false, false, false, false, false, true, true]
  {
    TwoWords(x);
    OneNewBlock(ValuesOf(x, 4, 2), 1, 8 * 4);
    hide EncodeValues;
    hide ValuesOf;
  }

  lemma {:induction false} OneNewBlock(vs: seq<nat>, x: nat, width: nat)
    requires vs == [0, x] && x == 1 && width == 32 && Words(vs, width)
    ensures EncodeValues(vs, width).bits ==
            [true, true, false, true, true, true, true, true, false, false, false, false, false, true, true]
  {
    hide EncodeValues;
    hide EncodeOne;
    hide NextBlock;
    hide Difference;
    hide Xor;
    hide Pow2;
    assert vs[0] < Pow2(width);
    var first: seq<nat> := [0];
    BitsOfOne(None, x, width);
    NothingEncoded(0, width);
    XorNothing(x);
    OneMore(first, x, width);
    assert first + [x] == vs;
  }

  /** The words 0 and 1: element size, count, the first word as it is, and fifteen bits. */
  lemma {:induction false} TwoWordsCompressed(x: bytes)
    requires x == [0, 0, 0, 0, 1, 0, 0, 0]
    ensures Compressed(4, x) == [4, 0, 0, 0, 2] + [0, 0, 0, 0] + [223, 6]
  {
    BodyOfTwoWords(x);
    TwoBytes(Body(x, 4));
    CompressedIs(4, x);
    hide Compressed;
    hide Body;
    hide Pack;
  }

  // ----- the loops -----

  method WriteReused(writer: BitWriter, value: nat, length: nat)
    requires writer.Valid() && writer.Room(2 + length)
    modifies writer, writer.buf
    ensures writer.Valid() && writer.bits == old(writer.bits) + ([true, false] + BitsOf(value, length))
    ensures writer.buf[..writer.base] == old(writer.buf[..writer.base])
  {
    hide BitsOf;
    hide Pack;
    writer.WriteBit(true);
    writer.WriteBit(false);
    writer.WriteBits(value, length);
  }

  method WriteNew(writer: BitWriter, leading: nat, meaningful: nat, value: nat)
    requires writer.Valid() && writer.Room(14 + meaningful)
    modifies writer, writer.buf
    ensures writer.Valid()
    ensures writer.bits == old(writer.bits) + ([true, true] + BitsOf(leading, 6)
                                               + BitsOf(if meaningful == 64 then 0 else meaningful, 6) + BitsOf(value, meaningful))
    ensures writer.buf[..writer.base] == old(writer.buf[..writer.base])
  {
    hide BitsOf;
    hide Pack;
    writer.WriteBit(true);
    writer.WriteBit(true);
    writer.WriteBits(leading, 6);
    writer.WriteBits(if meaningful == 64 then 0 else meaningful, 6);
    writer.WriteBits(value, meaningful);
  }

  /** The body of the encoder's loop: one XORed value behind what is written already. */
  method WriteValue(writer: BitWriter, w: Option<Block>, x: nat, width: nat) returns (v: Option<Block>)
    requires Width(width) && x < Pow2(width) && InWord(w, width)
    requires writer.Valid() && writer.Room(|EncodeOne(w, x, width)|)
    modifies writer, writer.buf
    ensures writer.Valid() && writer.bits == old(writer.bits) + EncodeOne(w, x, width) && v == NextBlock(w, x, width)
    ensures writer.buf[..writer.base] == old(writer.buf[..writer.base])
  {
    hide BitsOf;
    hide Pack;
    hide Shr;
    hide Pow2;
    hide TrailingZeros;
    if x == 0 {
      writer.WriteBit(false);
      v := w;
    } else if Reuses(w, x, width) {
      WriteReused(writer, Shr(x, width - w.value.leading - w.value.length), w.value.length);
      v := w;
    } else {
      var leading, meaningful := LeadingZeros(x, width), Meaningful(x);
      WriteNew(writer, leading, meaningful, Shr(x, TrailingZeros(x)));
      v := Some(Block(leading, meaningful));
    }
  }

  /** The bits of a block as the decoder reads them. */
  method ReadBlockBits(reader: BitReader, b: Block, width: nat) returns (x: nat)
    requires reader.bitPos < 8 && ReadBlock(Stream(reader.buf), reader.Pos(), b, width).Some?
    modifies reader
    ensures reader.bitPos < 8
    ensures ReadBlock(Stream(reader.buf), old(reader.Pos()), b, width) == Some(Read(x, reader.Pos(), Some(b)))
  {
    hide Stream;
    hide FromBits;
    hide Shl;
    hide Pow2;
    var bits := reader.ReadBits(b.length);
    x := Shl(bits, width - b.leading - b.length) % Pow2(width);
  }

  /** The two numbers in front of a new block. */
  method ReadHead(reader: BitReader) returns (b: Block)
    requires reader.bitPos < 8 && reader.Pos() + 12 <= |Stream(reader.buf)|
    modifies reader
    ensures reader.bitPos < 8 && reader.Pos() == old(reader.Pos()) + 12
    ensures var s, p := Stream(reader.buf), old(reader.Pos());
            b == Block(FromBits(s[p..p + 6]), if FromBits(s[p + 6..p + 12]) == 0 then 64 else FromBits(s[p + 6..p + 12]))
  {
    hide Stream;
    hide FromBits;
    var leading := reader.ReadBits(6);
    var meaningful := reader.ReadBits(6);
    b := Block(leading, if meaningful == 0 then 64 else meaningful);
  }

  /** The body of the decoder's loop, where the bits are there. */
  method ReadValue(reader: BitReader, w: Option<Block>, width: nat) returns (x: nat, v: Option<Block>)
    requires reader.bitPos < 8 && DecodeOne(Stream(reader.buf), reader.Pos(), w, width).Some?
    modifies reader
    ensures reader.bitPos < 8
    ensures DecodeOne(Stream(reader.buf), old(reader.Pos()), w, width) == Some(Read(x, reader.Pos(), v))
  {
    hide Stream;
    hide FromBits;
    hide ReadBlock;
    var bit := reader.ReadBit();
    if !bit {
      return 0, w;
    }
    bit := reader.ReadBit();
    v := w;
    if bit {
      var b := ReadHead(reader);
      v := Some(b);
    }
    x := ReadBlockBits(reader, v.value, width);
  }

  /** values[i] */
  function ValueAt(x: bytes, t: nat, i: nat): nat
    requires Times(i + 1, t) <= |x|
  {
    WordOf(x[Times(i, t)..Times(i + 1, t)])
  }

  lemma {:induction false} ValueAtIs(x: bytes, t: nat, n: nat, i: nat)
    requires i < n && Times(n, t) <= |x|
    ensures Times(i + 1, t) <= |x| && ValuesOf(x, t, n)[i] == ValueAt(x, t, i)
  {
    if i < n - 1 { ValueAtIs(x, t, n - 1, i); }
  }

  lemma {:induction false} BitsGrow(vs: seq<nat>, i: nat, width: nat)
    requires 0 < i <= |vs| && Words(vs, width)
    ensures |EncodeValues(vs[..i], width).bits| <= |EncodeValues(vs, width).bits|
  {
    if i < |vs| {
      EncodeStep(vs, width);
      BitsGrow(vs[..|vs| - 1], i, width);
      assert vs[..|vs| - 1][..i] == vs[..i];
    } else {
      assert vs[..i] == vs;
    }
    hide EncodeValues;
    hide EncodeOne;
    hide NextBlock;
    hide Difference;
  }

  /** Where the encoder is before its i-th value, and that there is room for all of them. */
  ghost predicate Encoding(writer: BitWriter, w: Option<Block>, prev: nat, vs: seq<nat>, i: nat, width: nat)
    reads writer, writer.buf
    requires Words(vs, width)
  {
    && 0 < i <= |vs| && writer.Valid() && prev == vs[i - 1]
    && EncodeValues(vs[..i], width) == Coder(writer.bits, w)
    && writer.base + (|EncodeValues(vs, width).bits| + 7) / 8 <= writer.buf.Length
  }

  lemma {:induction false} NextValue(vs: seq<nat>, i: nat, c: Coder, width: nat)
    requires 0 < i < |vs| && Words(vs, width) && EncodeValues(vs[..i], width) == c
    ensures var x := Difference(vs[i - 1], vs[i], width);
            && EncodeValues(vs[..i + 1], width) == Coder(c.bits + EncodeOne(c.block, x, width), NextBlock(c.block, x, width))
            && |c.bits| + |EncodeOne(c.block, x, width)| <= |EncodeValues(vs, width).bits|
  {
    EncodeStep(vs[..i + 1], width);
    assert vs[..i + 1][..i] == vs[..i];
    BitsGrow(vs, i + 1, width);
    hide EncodeValues;
    hide EncodeOne;
    hide NextBlock;
    hide Difference;
  }

  method EncodeNext(writer: BitWriter, w: Option<Block>, prev: nat, cur: nat, ghost vs: seq<nat>, ghost i: nat, width: nat)
    returns (v: Option<Block>)
    requires Width(width) && Words(vs, width) && i < |vs| && cur == vs[i] && Encoding(writer, w, prev, vs, i, width)
    modifies writer, writer.buf
    ensures Encoding(writer, v, cur, vs, i + 1, width)
    ensures writer.buf[..writer.base] == old(writer.buf[..writer.base])
  {
    NextValue(vs, i, EncodeValues(vs[..i], width), width);
    hide EncodeValues;
    hide EncodeOne;
    hide NextBlock;
    hide Xor;
    hide Pow2;
    hide Pack;
    v := WriteValue(writer, w, Difference(prev, cur, width), width);
  }

  /** The encoder's loop. */
  method EncodeRest(writer: BitWriter, src: bytes, t: nat)
    requires ElementSize(t) && Count(src, t) > 0 && writer.Valid() && writer.bits == []
    requires writer.base + (|Body(src, t)| + 7) / 8 <= writer.buf.Length
    modifies writer, writer.buf
    ensures writer.Valid() && writer.bits == Body(src, t)
    ensures writer.buf[..writer.base] == old(writer.buf[..writer.base])
  {
    var count := Count(src, t);
    ghost var vs := ValuesOf(src, t, count);
    ValueAtIs(src, t, count, 0);
    var prev, w := ValueAt(src, t, 0), None;
    assert |vs[..1]| == 1 && vs[..count] == vs;
    for i := 1 to count
      invariant Encoding(writer, w, prev, vs, i, 8 * t)
      invariant writer.buf[..writer.base] == old(writer.buf[..writer.base])
    {
      hide Encoding;
      hide ValuesOf;
      hide ValueAt;
      ValueAtIs(src, t, count, i);
      var cur := ValueAt(src, t, i);
      w := EncodeNext(writer, w, prev, cur, vs, i, 8 * t);
      prev := cur;
    }
  }

  /** The header and the first value. */
  method WriteHead(dst: array<byte>, src: bytes, t: nat)
    requires ElementSize(t) && Count(src, t) > 0 && t <= |src| && 5 + t <= dst.Length
    modifies dst
    ensures dst[..5 + t] == Header(src, t) + src[..t]
  {
    var h := CountBytes(Count(src, t));
    dst[0], dst[1], dst[2], dst[3], dst[4] := t as byte, h[0], h[1], h[2], h[3];
    forall j | 0 <= j < t {
      dst[5 + j] := src[j];
    }
    hide CountBytes;
  }

  /** What follows the header. */
  method WriteBody(dst: array<byte>, src: bytes, t: nat) returns (size: nat)
    requires ElementSize(t) && Count(src, t) > 0 && 5 + t + (|Body(src, t)| + 7) / 8 <= dst.Length
    modifies dst
    ensures 5 + t <= size <= dst.Length && dst[5 + t..size] == Pack(Body(src, t)) && dst[..5 + t] == old(dst[..5 + t])
  {
    hide Body;
    hide Pack;
    var writer := new BitWriter(dst, 5 + t);
    EncodeRest(writer, src, t);
    var n := writer.Size();
    size := 5 + t + n;
  }

  /** gorilla_encode_impl, given room for what it writes. */
  method EncodeImpl(dst: array<byte>, src: bytes, t: nat) returns (size: nat)
    requires ElementSize(t) && |Compressed(t, src)| <= dst.Length
    modifies dst
    ensures size == |Compressed(t, src)| && dst[..size] == Compressed(t, src)
  {
    if Count(src, t) == 0 {
      size := 0;
    } else {
      hide *;
      CompressedIs(t, src);
      WriteHead(dst, src, t);
      size := WriteBody(dst, src, t);
      assert dst[..size] == dst[..5 + t] + dst[5 + t..size];
    }
  }

  // ----- the way back -----

  lemma {:induction false} DecodesPrefix(bits: seq<bool>, first: nat, n: nat, i: nat, width: nat)
    requires 0 < i <= n && DecodeValues(bits, first, n, width).Some?
    ensures DecodeValues(bits, first, i, width).Some?
  {
    if i < n { DecodesPrefix(bits, first, n - 1, i, width); }
    hide DecodeOne;
  }

  /** Where the decoder is before its i-th value. */
  ghost predicate Decoding(reader: BitReader, w: Option<Block>, prev: nat, d: Decoder, first: nat, i: nat, width: nat)
    reads reader
  {
    && i > 0 && reader.bitPos < 8 && DecodeValues(Stream(reader.buf), first, i, width) == Some(d)
    && d.pos == reader.Pos() && d.block == w && d.values[i - 1] == prev
  }

  lemma {:induction false} DecodesNext(bits: seq<bool>, first: nat, i: nat, n: nat, d: Decoder, width: nat)
    requires 0 < i < n && DecodeValues(bits, first, n, width).Some? && DecodeValues(bits, first, i, width) == Some(d)
    ensures DecodeOne(bits, d.pos, d.block, width).Some?
    ensures var r := DecodeOne(bits, d.pos, d.block, width).value;
            DecodeValues(bits, first, i + 1, width) == Some(Decoder(d.values + [Xor(d.values[i - 1], r.x)], r.pos, r.block))
  {
    DecodesPrefix(bits, first, n, i + 1, width);
    hide DecodeOne;
    hide Xor;
  }

  method DecodeNext(reader: BitReader, w: Option<Block>, prev: nat, ghost d: Decoder, ghost first: nat, ghost i: nat,
                    ghost n: nat, width: nat)
    returns (cur: nat, v: Option<Block>, ghost e: Decoder)
    requires i < n && DecodeValues(Stream(reader.buf), first, n, width).Some? && Decoding(reader, w, prev, d, first, i, width)
    modifies reader
    ensures Decoding(reader, v, cur, e, first, i + 1, width) && e.values == d.values + [cur]
  {
    DecodesNext(Stream(reader.buf), first, i, n, d, width);
    hide DecodeValues;
    hide DecodeOne;
    hide Stream;
    hide Xor;
    var x;
    x, v := ReadValue(reader, w, width);
    cur := Xor(prev, x);
    e := Decoder(d.values + [cur], reader.Pos(), v);
  }

  /** values[i] = v */
  method StoreValue(dst: array<byte>, t: nat, i: nat, v: nat)
    requires Times(i + 1, t) <= dst.Length
    modifies dst
    ensures dst[..Times(i + 1, t)] == old(dst[..Times(i, t)]) + BytesOf(v, t)
  {
    var at, b := Times(i, t), BytesOf(v, t);
    forall j | 0 <= j < t {
      dst[at + j] := b[j];
    }
    hide BytesOf;
  }

  /** Where the decoder does not run out of bits. */
  ghost predicate Decodes(t: nat, y: bytes)
    requires |y| >= 5 + t && CountOf(y[1..5]) > 0
  {
    DecodeValues(Stream(y[5 + t..]), WordOf(y[5..5 + t]), CountOf(y[1..5]), 8 * t).Some?
  }

  lemma {:induction false} FirstDecoded(bits: seq<bool>, first: nat, t: nat)
    ensures DecodeValues(bits, first, 1, 8 * t) == Some(Decoder([first], 0, None)) && AllBytes([first], t) == BytesOf(first, t)
    ensures Times(0, t) == 0 && Times(1, t) == t
  {
    OneWordMore([], first, t);
    assert [] + [first] == [first];
  }

  /** The loop's body: one value more, stored behind the others. */
  method StoreNext(dst: array<byte>, reader: BitReader, w: Option<Block>, prev: nat, ghost d: Decoder, ghost first: nat,
                   i: nat, ghost n: nat, t: nat)
    returns (cur: nat, v: Option<Block>, ghost e: Decoder)
    requires i < n && DecodeValues(Stream(reader.buf), first, n, 8 * t).Some? && Decoding(reader, w, prev, d, first, i, 8 * t)
    requires Times(n, t) <= dst.Length && Times(i, t) <= dst.Length && dst[..Times(i, t)] == AllBytes(d.values, t)
    modifies dst, reader
    ensures Decoding(reader, v, cur, e, first, i + 1, 8 * t)
    ensures Times(i + 1, t) <= dst.Length && dst[..Times(i + 1, t)] == AllBytes(e.values, t)
  {
    EndsInOrder(i, n, t);
    hide *;
    cur, v, e := DecodeNext(reader, w, prev, d, first, i, n, 8 * t);
    OneWordMore(d.values, cur, t);
    StoreValue(dst, t, i, cur);
  }

  /** The decoder's loop: the first value and those behind it. */
  method DecodeRest(dst: array<byte>, reader: BitReader, first: nat, count: nat, t: nat) returns (ghost d: Decoder)
    requires count > 0 && Times(count, t) <= dst.Length && reader.bitPos < 8 && reader.Pos() == 0
    requires DecodeValues(Stream(reader.buf), first, count, 8 * t).Some?
    modifies dst, reader
    ensures DecodeValues(Stream(reader.buf), first, count, 8 * t) == Some(d)
    ensures dst[..Times(count, t)] == AllBytes(d.values, t)
  {
    FirstDecoded(Stream(reader.buf), first, t);
    EndsInOrder(0, count, t);
    hide DecodeValues;
    hide AllBytes;
    hide BytesOf;
    hide Stream;
    hide Times;
    var prev, w := first, None;
    d := Decoder([first], 0, None);
    StoreValue(dst, t, 0, first);
    for i := 1 to count
      invariant Decoding(reader, w, prev, d, first, i, 8 * t)
      invariant Times(i, t) <= dst.Length && dst[..Times(i, t)] == AllBytes(d.values, t)
    {
      prev, w, d := StoreNext(dst, reader, w, prev, d, first, i, count, t);
    }
  }

  lemma {:induction false} EndsInOrder(i: nat, n: nat, t: nat)
    requires i < n
    ensures Times(i, t) <= Times(i + 1, t) <= Times(n, t)
  {
    TimesLess(i, n, t);
  }

  /** gorilla_decode_impl, on bytes that do not end too early and into a buffer that takes the values. */
  method DecodeImpl(dst: array<byte>, src: bytes, t: nat) returns (size: nat)
    requires ElementSize(t)
    requires |src| >= 5 + t && CountOf(src[1..5]) > 0 ==> Decodes(t, src) && Times(CountOf(src[1..5]), t) <= dst.Length
    modifies dst
    ensures size == |Decompressed(t, src)| <= dst.Length && dst[..size] == Decompressed(t, src)
  {
    if |src| < 5 + t {
      return 0;
    }
    var count := CountOf(src[1..5]);
    if count == 0 {
      return 0;
    }
    hide CountOf;
    hide WordOf;
    hide AllBytes;
    var reader := new BitReader(src[5 + t..]);
    var d := DecodeRest(dst, reader, WordOf(src[5..5 + t]), count, t);
    size := Times(count, t);
  }

  /** The decoder does not run out of bits in what the encoder wrote. */
  lemma {:induction false} CompressedDecodes(t: nat, x: bytes)
    requires ElementSize(t) && 0 < Count(x, t) < U32
    ensures var y := Compressed(t, x);
            |y| >= 5 + t && CountOf(y[1..5]) == Count(x, t) && Decodes(t, y)
  {
    CountWraps(Count(x, t));
    hide *;
    CompressedParts(t, x);
    BodyBack(t, x);
    FirstValue(x, t, Count(x, t));
    DecodesIs(t, Compressed(t, x), Count(x, t), x[..t], Pack(Body(x, t)));
  }

  lemma {:induction false} DecodesIs(t: nat, y: bytes, n: nat, first: bytes, body: bytes)
    requires |y| >= 5 + t && CountOf(y[1..5]) == n > 0 && y[5..5 + t] == first && y[5 + t..] == body
    ensures Decodes(t, y) <==> DecodeValues(Stream(body), WordOf(first), n, 8 * t).Some?
  {
  }

  /** gorilla, with its branches on the direction and on the element size. */
  method Run(dst: array<byte>, src: bytes, reverse: bool, size: nat) returns (n: nat)
    requires !reverse ==> |Encoded(size, src)| <= dst.Length
    requires reverse && src != [] && ElementSize(src[0] as nat) ==>
               var t := src[0] as nat;
               |src| >= 5 + t && CountOf(src[1..5]) > 0 ==> Decodes(t, src) && Times(CountOf(src[1..5]), t) <= dst.Length
    modifies dst
    ensures var out := if reverse then Decoded(src) else Encoded(size, src);
            n == |out| <= dst.Length && dst[..n] == out
  {
    hide Compressed;
    hide Decompressed;
    hide Decodes;
    hide CountOf;
    if src == [] {
      n := 0;
    } else if reverse {
      if ElementSize(src[0] as nat) {
        n := DecodeImpl(dst, src, src[0] as nat);
      } else {
        n := 0;
      }
    } else if ElementSize(size) {
      n := EncodeImpl(dst, src, size);
    } else {
      forall j | 0 <= j < |src| {
        dst[j] := src[j];
      }
      n := |src|;
    }
  }
}
