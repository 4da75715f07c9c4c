/** h5cpp's Gorilla filter: elements of 4 or 8 bytes, each XORed with the one before it, written bit by
    bit with leading and trailing zeros left out. */
module Gorilla {
  import opened Common
  import opened Arith
  import opened Bits
  import opened Filters

  // ----- values to bits -----

  /** The bits of the previous new block: zeros in front of it and its length (prev_leading,
      prev_meaningful); None before the first. */
  datatype Block = Block(leading: nat, length: nat)

  predicate InWord(w: Option<Block>, width: nat) {
    w.Some? ==> 0 < w.value.length && w.value.leading + w.value.length <= width
  }

  predicate Width(width: nat) {
    width == 32 || width == 64
  }

  function LeadingZeros(x: nat, width: nat): nat
    requires x < Pow2(width)
  {
    LengthFits(x, width);
    width - Length(x)
  }

  /** The bits of x between its leading and its trailing zeros. */
  function Meaningful(x: nat): (n: nat)
    requires x > 0
    ensures 0 < n && n + TrailingZeros(x) == Length(x)
  {
    TrailingBelowLength(x);
    Length(x) - TrailingZeros(x)
  }

  /** cheaper_to_reuse: the bits fit the previous block, which is not too much longer. */
  predicate Reuses(w: Option<Block>, x: nat, width: nat)
    requires 0 < x < Pow2(width)
  {
    && w.Some? && LeadingZeros(x, width) >= w.value.leading
    && LeadingZeros(x, width) + Meaningful(x) <= w.value.leading + w.value.length
    && 2 + w.value.length <= 14 + Meaningful(x)
  }

  /** What the encoder writes for one XORed value. */
  function EncodeOne(w: Option<Block>, x: nat, width: nat): seq<bool>
    requires x < Pow2(width) && InWord(w, width)
  {
    if x == 0 then [false]
    else if Reuses(w, x, width) then
      [true, false] + BitsOf(Shr(x, width - w.value.leading - w.value.length), w.value.length)
    else
      [true, true] + BitsOf(LeadingZeros(x, width), 6)
      + BitsOf(LengthCode(Meaningful(x)), 6) + BitsOf(Shr(x, TrailingZeros(x)), Meaningful(x))
  }

  function NextBlock(w: Option<Block>, x: nat, width: nat): (v: Option<Block>)
    requires x < Pow2(width)
    ensures InWord(w, width) ==> InWord(v, width)
  {
    if x == 0 || Reuses(w, x, width) then w else Some(Block(LeadingZeros(x, width), Meaningful(x)))
  }

  /** What the decoder makes of the bits at `pos`: the XORed value, the position behind it and the
      block; None where it would run out of bits, reuse a block it has not got, or shift by less than
      nothing. */
  datatype Read = Read(x: nat, pos: nat, block: Option<Block>)

  function ReadBits(bits: seq<bool>, pos: nat, n: nat): Option<nat> {
    if pos + n <= |bits| then Some(FromBits(bits[pos..pos + n])) else None
  }

  function ReadBlock(bits: seq<bool>, pos: nat, b: Block, width: nat): Option<Read>
  {
    var v := ReadBits(bits, pos, b.length);
    if v.None? || b.leading + b.length > width then None
    else Some(Read(Shl(v.value, width - b.leading - b.length) % Pow2(width), pos + b.length, Some(b)))
  }

  function DecodeOne(bits: seq<bool>, pos: nat, w: Option<Block>, width: nat): Option<Read> {
    if pos >= |bits| then None
    else if !bits[pos] then Some(Read(0, pos + 1, w))
    else if pos + 1 >= |bits| then None
    else if !bits[pos + 1] then
      if w.None? then None else ReadBlock(bits, pos + 2, w.value, width)
    else
      var leading, length := ReadBits(bits, pos + 2, 6), ReadBits(bits, pos + 8, 6);
      if leading.None? || length.None? then None
      else ReadBlock(bits, pos + 14, Block(leading.value, if length.value == 0 then 64 else length.value), width)
  }

  // ----- one value there and back -----

  /** The bits x stand at `pos`. */
  ghost predicate Stands(bits: seq<bool>, x: seq<bool>, pos: nat) {
    IsPiece(bits, x, pos)
  }

  lemma {:induction false} ReadBack(bits: seq<bool>, pos: nat, v: nat, n: nat)
    requires Stands(bits, BitsOf(v, n), pos) && v < Pow2(n)
    ensures ReadBits(bits, pos, n) == Some(v)
  {
    assert bits[pos..pos + n] == BitsOf(v, n);
    FromBitsOf(v, n);
  }

  lemma {:induction false} PieceParts(s: seq<bool>, x: seq<bool>, y: seq<bool>, pos: nat)
    requires Stands(s, x + y, pos)
    ensures Stands(s, x, pos) && Stands(s, y, pos + |x|)
  {
    forall j | 0 <= j < |x| ensures x[j] == s[pos + j] { assert (x + y)[j] == s[pos + j]; }
    forall j | 0 <= j < |y| ensures y[j] == s[pos + |x| + j] { assert (x + y)[|x| + j] == s[pos + (|x| + j)]; }
  }

  /** Bits in a block that holds all of x, shifted back, are x. */
  lemma {:induction false} BlockHolds(x: nat, b: Block, width: nat)
    requires 0 < x < Pow2(width) && b.leading + b.length <= width
    requires b.leading <= LeadingZeros(x, width) && width - b.leading - b.length <= TrailingZeros(x)
    ensures var v := Shr(x, width - b.leading - b.length);
            v < Pow2(b.length) && Shl(v, width - b.leading - b.length) % Pow2(width) == x
  {
    var k := width - b.leading - b.length;
    LengthFits(x, width);
    PowGrows(Length(x), b.length + k);
    hide Pow2;
    hide Shr;
    hide Shl;
    ShrBelow(x, k, b.length);
    ShlOfShr(x, k);
    SmallRemainder(x, Pow2(width));
  }

  lemma {:induction false} SmallRemainder(x: nat, m: nat)
    requires x < m
    ensures x % m == x
  {
  }

  lemma {:induction false} PowGrows(a: nat, b: nat)
    requires a <= b
    ensures Pow2(a) <= Pow2(b)
  {
    if a < b { PowGrows(a, b - 1); }
  }

  lemma {:induction false} ReadBlockBack(bits: seq<bool>, pos: nat, x: nat, b: Block, width: nat)
    requires 0 < x < Pow2(width) && b.leading + b.length <= width
    requires b.leading <= LeadingZeros(x, width) && width - b.leading - b.length <= TrailingZeros(x)
    requires Stands(bits, BitsOf(Shr(x, width - b.leading - b.length), b.length), pos)
    ensures ReadBlock(bits, pos, b, width) == Some(Read(x, pos + b.length, Some(b)))
  {
    BlockHolds(x, b, width);
    ReadBack(bits, pos, Shr(x, width - b.leading - b.length), b.length);
    hide Shl;
    hide Shr;
    hide Pow2;
  }

  lemma {:induction false} TwoPieces(bits: seq<bool>, pos: nat, whole: seq<bool>, v: seq<bool>)
    requires Stands(bits, whole, pos) && whole == [true, false] + v
    ensures pos + 2 <= |bits| && bits[pos] && !bits[pos + 1] && Stands(bits, v, pos + 2)
  {
    PieceParts(bits, [true, false], v, pos);
    assert bits[pos] == [true, false][0] && bits[pos + 1] == [true, false][1];
  }

  lemma {:induction false} OneReused(bits: seq<bool>, pos: nat, w: Option<Block>, x: nat, width: nat)
    requires 0 < x < Pow2(width) && InWord(w, width) && Reuses(w, x, width) && Stands(bits, EncodeOne(w, x, width), pos)
    ensures DecodeOne(bits, pos, w, width) == Some(Read(x, pos + |EncodeOne(w, x, width)|, NextBlock(w, x, width)))
  {
    hide *;
    ReusedParts(w, x, width);
    ReusedFits(w, x, width);
    TwoPieces(bits, pos, EncodeOne(w, x, width), BitsOf(Shr(x, width - w.value.leading - w.value.length), w.value.length));
    ReadBlockBack(bits, pos + 2, x, w.value, width);
    DecodeReused(bits, pos, w, width);
  }

  lemma {:induction false} DecodeReused(bits: seq<bool>, pos: nat, w: Option<Block>, width: nat)
    requires w.Some? && pos + 2 <= |bits| && bits[pos] && !bits[pos + 1]
    ensures DecodeOne(bits, pos, w, width) == ReadBlock(bits, pos + 2, w.value, width)
  {
    hide ReadBlock;
  }

  lemma {:induction false} ReusedParts(w: Option<Block>, x: nat, width: nat)
    requires 0 < x < Pow2(width) && InWord(w, width) && Reuses(w, x, width)
    ensures w.Some? && NextBlock(w, x, width) == w && w.value.leading + w.value.length <= width
    ensures EncodeOne(w, x, width) ==
            [true, false] + BitsOf(Shr(x, width - w.value.leading - w.value.length), w.value.length)
  {
    hide BitsOf;
  }

  lemma {:induction false} ReusedFits(w: Option<Block>, x: nat, width: nat)
    requires 0 < x < Pow2(width) && InWord(w, width) && Reuses(w, x, width)
    ensures w.value.leading + w.value.length <= width && w.value.leading <= LeadingZeros(x, width)
    ensures width - w.value.leading - w.value.length <= TrailingZeros(x)
  {
    LengthFits(x, width);
  }

  lemma {:induction false} NewBlockParts(w: Option<Block>, x: nat, width: nat)
    requires Width(width) && 0 < x < Pow2(width)
    ensures LeadingZeros(x, width) < Pow2(6) && Meaningful(x) <= 64 && Pow2(6) == 64
    ensures LeadingZeros(x, width) + Meaningful(x) + TrailingZeros(x) == width
  {
    LengthFits(x, width);
  }

  lemma {:induction false} FourPieces(bits: seq<bool>, pos: nat, whole: seq<bool>, a: seq<bool>, b: seq<bool>, c: seq<bool>)
    requires Stands(bits, whole, pos) && whole == [true, true] + a + b + c
    ensures pos + 2 <= |bits| && bits[pos] && bits[pos + 1] && Stands(bits, a, pos + 2)
    ensures Stands(bits, b, pos + 2 + |a|) && Stands(bits, c, pos + 2 + |a| + |b|)
  {
    assert whole == [true, true] + (a + (b + c));
    PieceParts(bits, [true, true], a + (b + c), pos);
    FirstTwo(bits, pos);
    hide Stands;
    PieceParts(bits, a, b + c, pos + 2);
    PieceParts(bits, b, c, pos + 2 + |a|);
  }

  lemma {:induction false} FirstTwo(bits: seq<bool>, pos: nat)
    requires Stands(bits, [true, true], pos)
    ensures pos + 2 <= |bits| && bits[pos] && bits[pos + 1]
  {
    assert bits[pos] == [true, true][0] && bits[pos + 1] == [true, true][1];
  }

  /** The length of a block as it is written: 64 as 0. */
  function LengthCode(m: nat): nat {
    if m == 64 then 0 else m
  }

  /** The parts of a new block, and where they stand. */
  lemma {:induction false} NewPieces(bits: seq<bool>, pos: nat, w: Option<Block>, x: nat, width: nat)
    requires 0 < x < Pow2(width) && InWord(w, width) && !Reuses(w, x, width)
    requires Stands(bits, EncodeOne(w, x, width), pos)
    ensures |EncodeOne(w, x, width)| == 14 + Meaningful(x) && pos + 2 <= |bits| && bits[pos] && bits[pos + 1]
    ensures Stands(bits, BitsOf(LeadingZeros(x, width), 6), pos + 2)
    ensures Stands(bits, BitsOf(LengthCode(Meaningful(x)), 6), pos + 8)
    ensures Stands(bits, BitsOf(Shr(x, TrailingZeros(x)), Meaningful(x)), pos + 14)
  {
    hide BitsOf;
    hide Stands;
    hide Reuses;
    FourPieces(bits, pos, EncodeOne(w, x, width), BitsOf(LeadingZeros(x, width), 6), BitsOf(LengthCode(Meaningful(x)), 6),
               BitsOf(Shr(x, TrailingZeros(x)), Meaningful(x)));
  }

  lemma {:induction false} DecodeNew(bits: seq<bool>, pos: nat, w: Option<Block>, l: nat, m: nat, width: nat)
    requires 0 < m <= 64 && pos + 2 <= |bits| && bits[pos] && bits[pos + 1]
    requires ReadBits(bits, pos + 2, 6) == Some(l) && ReadBits(bits, pos + 8, 6) == Some(LengthCode(m))
    ensures DecodeOne(bits, pos, w, width) == ReadBlock(bits, pos + 14, Block(l, m), width)
  {
    hide ReadBlock;
    hide ReadBits;
  }

  lemma {:induction false} NewHeader(bits: seq<bool>, pos: nat, w: Option<Block>, x: nat, width: nat)
    requires Width(width) && 0 < x < Pow2(width) && InWord(w, width) && !Reuses(w, x, width)
    requires Stands(bits, EncodeOne(w, x, width), pos)
    ensures DecodeOne(bits, pos, w, width) == ReadBlock(bits, pos + 14, Block(LeadingZeros(x, width), Meaningful(x)), width)
  {
    NewBlockParts(w, x, width);
    hide *;
    NewPieces(bits, pos, w, x, width);
    ReadBack(bits, pos + 2, LeadingZeros(x, width), 6);
    SmallCode(Meaningful(x));
    ReadBack(bits, pos + 8, LengthCode(Meaningful(x)), 6);
    DecodeNew(bits, pos, w, LeadingZeros(x, width), Meaningful(x), width);
  }

  lemma {:induction false} SmallCode(m: nat)
    requires m <= 64
    ensures LengthCode(m) < Pow2(6)
  {
    assert Pow2(6) == 64;
  }

  lemma {:induction false} OneNew(bits: seq<bool>, pos: nat, w: Option<Block>, x: nat, width: nat)
    requires Width(width) && 0 < x < Pow2(width) && InWord(w, width) && !Reuses(w, x, width)
    requires Stands(bits, EncodeOne(w, x, width), pos)
    ensures DecodeOne(bits, pos, w, width) == Some(Read(x, pos + |EncodeOne(w, x, width)|, NextBlock(w, x, width)))
  {
    hide *;
    NextIsNew(w, x, width);
    NewBlockParts(w, x, width);
    NewPieces(bits, pos, w, x, width);
    NewHeader(bits, pos, w, x, width);
    NewReads(bits, pos + 14, x, LeadingZeros(x, width), Meaningful(x), TrailingZeros(x), width);
  }

  lemma {:induction false} NextIsNew(w: Option<Block>, x: nat, width: nat)
    requires 0 < x < Pow2(width) && !Reuses(w, x, width)
    ensures NextBlock(w, x, width) == Some(Block(LeadingZeros(x, width), Meaningful(x)))
  {
  }

  lemma {:induction false} NewReads(bits: seq<bool>, pos: nat, x: nat, l: nat, m: nat, t: nat, width: nat)
    requires 0 < x < Pow2(width) && l == LeadingZeros(x, width) && t == TrailingZeros(x) && l + m + t == width
    requires Stands(bits, BitsOf(Shr(x, t), m), pos)
    ensures ReadBlock(bits, pos, Block(l, m), width) == Some(Read(x, pos + m, Some(Block(l, m))))
  {
    assert width - l - m == t;
    hide *;
    ReadBlockBack(bits, pos, x, Block(l, m), width);
  }

  /** Wherever the bits of a value stand, the decoder reads the value, all of its bits, and arrives at
      the encoder's block. */
  lemma {:induction false} OneBack(bits: seq<bool>, pos: nat, w: Option<Block>, x: nat, width: nat)
    requires Width(width) && x < Pow2(width) && InWord(w, width) && Stands(bits, EncodeOne(w, x, width), pos)
    ensures DecodeOne(bits, pos, w, width) == Some(Read(x, pos + |EncodeOne(w, x, width)|, NextBlock(w, x, width)))
  {
    if x == 0 {
      assert bits[pos] == EncodeOne(w, x, width)[0];
    } else if Reuses(w, x, width) {
      OneReused(bits, pos, w, x, width);
    } else {
      OneNew(bits, pos, w, x, width);
    }
  }

  /** A block of all the bits. */
  predicate IsFull(w: Option<Block>, width: nat) {
    w == Some(Block(0, width))
  }

  /** A value takes 13 bits more than a word, and the one more that a new full block takes is saved by
      what follows it. */
  lemma {:induction false} OneSize(w: Option<Block>, x: nat, width: nat)
    requires x < Pow2(width) && InWord(w, width) && width > 0
    ensures |EncodeOne(w, x, width)| + (if IsFull(w, width) then 1 else 0) <=
            13 + width + (if IsFull(NextBlock(w, x, width), width) then 1 else 0)
  {
    if x > 0 {
      LengthFits(x, width);
      SizeOf(w, x, width);
    }
    hide EncodeOne;
  }

  lemma {:induction false} SizeOf(w: Option<Block>, x: nat, width: nat)
    requires 0 < x < Pow2(width) && InWord(w, width)
    ensures |EncodeOne(w, x, width)| == if Reuses(w, x, width) then 2 + w.value.length else 14 + Meaningful(x)
  {
    hide Reuses;
  }

  // ----- all values -----

  /** The values behind `prev`, each below 2^width. */
  ghost predicate Words(vs: seq<nat>, width: nat) {
    forall i :: 0 <= i < |vs| ==> vs[i] < Pow2(width)
  }

  function Difference(a: nat, b: nat, width: nat): (x: nat)
    requires a < Pow2(width) && b < Pow2(width)
    ensures x < Pow2(width)
  {
    XorBelow(a, b, width);
    Xor(a, b)
  }

  /** The encoder's state after the values vs, the first of which is written as it is. */
  datatype Coder = Coder(bits: seq<bool>, block: Option<Block>)

  function EncodeValues(vs: seq<nat>, width: nat): (c: Coder)
    requires vs != [] && Words(vs, width)
    ensures InWord(c.block, width)
  {
    if |vs| == 1 then Coder([], None)
    else
      var front := vs[..|vs| - 1];
      var c := EncodeValues(front, width);
      var x := Difference(front[|front| - 1], vs[|vs| - 1], width);
      Coder(c.bits + EncodeOne(c.block, x, width), NextBlock(c.block, x, width))
  }

  /** The decoder's state after n values. */
  datatype Decoder = Decoder(values: seq<nat>, pos: nat, block: Option<Block>)

  function DecodeValues(bits: seq<bool>, first: nat, n: nat, width: nat): (d: Option<Decoder>)
    requires n > 0
    ensures d.Some? ==> |d.value.values| == n
  {
    if n == 1 then Some(Decoder([first], 0, None))
    else
      var d := DecodeValues(bits, first, n - 1, width);
      if d.None? then None
      else
        var r := DecodeOne(bits, d.value.pos, d.value.block, width);
        if r.None? then None
        else Some(Decoder(d.value.values + [Xor(d.value.values[n - 2], r.value.x)], r.value.pos, r.value.block))
  }

  lemma {:induction false} XorBack(a: nat, b: nat)
    ensures Xor(a, Xor(a, b)) == b
  {
    XorCommutes(a, b);
    XorSelfInverse(b, a);
    XorCommutes(a, Xor(b, a));
  }

  lemma {:induction false} XorCommutes(a: nat, b: nat)
    ensures Xor(a, b) == Xor(b, a)
  {
    if a != 0 || b != 0 { XorCommutes(a / 2, b / 2); }
  }

  lemma {:induction false} DecodeStep(bits: seq<bool>, front: seq<nat>, v: nat, pos: nat, r: Read, w: Option<Block>, width: nat)
    requires front != [] && DecodeValues(bits, front[0], |front|, width) == Some(Decoder(front, pos, w))
    requires DecodeOne(bits, pos, w, width) == Some(r) && Xor(front[|front| - 1], r.x) == v
    ensures DecodeValues(bits, front[0], |front| + 1, width) == Some(Decoder(front + [v], r.pos, r.block))
  {
    hide DecodeOne;
    hide Xor;
  }

  lemma {:induction false} EncodeStep(vs: seq<nat>, width: nat)
    requires |vs| > 1 && Words(vs, width)
    ensures var front := vs[..|vs| - 1]; var c := EncodeValues(front, width);
            var x := Difference(front[|front| - 1], vs[|vs| - 1], width);
            EncodeValues(vs, width) == Coder(c.bits + EncodeOne(c.block, x, width), NextBlock(c.block, x, width))
    ensures vs == vs[..|vs| - 1] + [vs[|vs| - 1]]
  {
    hide EncodeOne;
    hide NextBlock;
    hide Difference;
  }

  /** The decoder has arrived where the encoder was after these values. */
  ghost predicate Arrived(bits: seq<bool>, vs: seq<nat>, width: nat)
    requires vs != [] && Words(vs, width)
  {
    var c := EncodeValues(vs, width);
    DecodeValues(bits, vs[0], |vs|, width) == Some(Decoder(vs, |c.bits|, c.block))
  }

  lemma {:induction false} StepArrives(bits: seq<bool>, front: seq<nat>, v: nat, c: Coder, x: nat, all: seq<bool>, width: nat)
    requires Width(width) && front != [] && x < Pow2(width) && InWord(c.block, width)
    requires Stands(bits, all, 0) && all == c.bits + EncodeOne(c.block, x, width) && Xor(front[|front| - 1], x) == v
    requires DecodeValues(bits, front[0], |front|, width) == Some(Decoder(front, |c.bits|, c.block))
    ensures DecodeValues(bits, front[0], |front| + 1, width) == Some(Decoder(front + [v], |all|, NextBlock(c.block, x, width)))
  {
    hide *;
    var e, w := EncodeOne(c.block, x, width), NextBlock(c.block, x, width);
    PieceParts(bits, c.bits, e, 0);
    OneBack(bits, |c.bits|, c.block, x, width);
    DecodeStep(bits, front, v, |c.bits|, Read(x, |c.bits| + |e|, w), c.block, width);
  }

  lemma {:induction false} ArrivesAtNext(bits: seq<bool>, vs: seq<nat>, width: nat)
    requires Width(width) && |vs| > 1 && Words(vs, width) && Stands(bits, EncodeValues(vs, width).bits, 0)
    requires Arrived(bits, vs[..|vs| - 1], width)
    ensures Arrived(bits, vs, width)
  {
    var front := vs[..|vs| - 1];
    var last, v := front[|front| - 1], vs[|vs| - 1];
    EncodeStep(vs, width);
    XorBack(last, v);
    assert Difference(last, v, width) == Xor(last, v);
    hide EncodeValues;
    hide DecodeValues;
    hide EncodeOne;
    hide NextBlock;
    hide Xor;
    hide Difference;
    hide Stands;
    hide Pow2;
    StepArrives(bits, front, v, EncodeValues(front, width), Difference(last, v, width), EncodeValues(vs, width).bits, width);
  }

  lemma {:induction false} FrontPiece(bits: seq<bool>, vs: seq<nat>, width: nat)
    requires |vs| > 1 && Words(vs, width) && Stands(bits, EncodeValues(vs, width).bits, 0)
    ensures Stands(bits, EncodeValues(vs[..|vs| - 1], width).bits, 0)
  {
    EncodeStep(vs, width);
    var front := vs[..|vs| - 1];
    var c, x := EncodeValues(front, width), Difference(front[|front| - 1], vs[|vs| - 1], width);
    hide EncodeValues;
    hide EncodeOne;
    PieceParts(bits, c.bits, EncodeOne(c.block, x, width), 0);
  }

  /** Decoding any bits that begin with the encoded ones gives the values back. */
  lemma {:induction false} ValuesBack(bits: seq<bool>, vs: seq<nat>, width: nat)
    requires Width(width) && vs != [] && Words(vs, width) && Stands(bits, EncodeValues(vs, width).bits, 0)
    ensures Arrived(bits, vs, width)
  {
    if |vs| == 1 {
      assert vs == [vs[0]];
    } else {
      hide Arrived;
      hide EncodeValues;
      FrontPiece(bits, vs, width);
      ValuesBack(bits, vs[..|vs| - 1], width);
      ArrivesAtNext(bits, vs, width);
    }
  }

  // ----- the cheaper of the two forms -----

  /** All bits of x that are 1 lie where the block's are. */
  predicate Inside(x: nat, b: Block, width: nat)
    requires b.leading + b.length <= width
  {
    x < Pow2(width - b.leading) && x % Pow2(width - b.leading - b.length) == 0
  }

  lemma {:induction false} LengthIff(x: nat, m: nat)
    ensures Length(x) <= m <==> x < Pow2(m)
  {
    LengthFits(x, m);
    if Length(x) <= m { PowGrows(Length(x), m); }
  }

  lemma {:induction false} TrailingIff(x: nat, m: nat)
    requires x > 0
    ensures m <= TrailingZeros(x) <==> x % Pow2(m) == 0
  {
    if m > 0 {
      var n := Pow2(m - 1);
      HalfRemainder(x, n);
      if x % 2 == 0 { TrailingIff(x / 2, m - 1); }
    }
  }

  lemma {:induction false} HalfRemainder(x: nat, n: nat)
    requires n > 0
    ensures x % (2 * n) == 0 <==> x % 2 == 0 && x / 2 % n == 0
  {
    var q, r := x / 2 / n, x / 2 % n;
    DivModDef(x / 2, n);
    assert q * (2 * n) == 2 * (q * n);
    DivModUnique(q, 2 * r + x % 2, 2 * n);
  }

  lemma {:induction false} InsideIff(x: nat, b: Block, width: nat)
    requires 0 < x < Pow2(width) && b.leading + b.length <= width
    ensures Inside(x, b, width) <==>
            LeadingZeros(x, width) >= b.leading && LeadingZeros(x, width) + Meaningful(x) <= b.leading + b.length
  {
    LengthIff(x, width - b.leading);
    TrailingIff(x, width - b.leading - b.length);
    LengthFits(x, width);
    hide Pow2;
    hide Length;
    hide TrailingZeros;
  }

  /** The meaningful bits of x are an odd number of that length. */
  lemma {:induction false} MeaningfulBits(x: nat)
    requires x > 0
    ensures var y := Shr(x, TrailingZeros(x));
            Shl(y, TrailingZeros(x)) == x && y % 2 == 1 && Pow2(Meaningful(x) - 1) <= y < Pow2(Meaningful(x))
  {
    hide Shl;
    hide Pow2;
    hide Length;
    if x % 2 == 0 {
      MeaningfulBits(x / 2);
      HalfMeaningful(x);
    } else {
      OddMeaningful(x);
    }
  }

  lemma {:induction false} HalfMeaningful(x: nat)
    requires x > 0 && x % 2 == 0
    ensures Meaningful(x) == Meaningful(x / 2) && TrailingZeros(x) == TrailingZeros(x / 2) + 1
    ensures Shr(x, TrailingZeros(x)) == Shr(x / 2, TrailingZeros(x / 2))
    ensures Shl(Shr(x, TrailingZeros(x)), TrailingZeros(x)) == 2 * Shl(Shr(x / 2, TrailingZeros(x / 2)), TrailingZeros(x / 2))
  {
    ShlDoubles(Shr(x / 2, TrailingZeros(x / 2)), TrailingZeros(x / 2));
  }

  lemma {:induction false} OddMeaningful(x: nat)
    requires x % 2 == 1
    ensures TrailingZeros(x) == 0 && Shr(x, 0) == Shl(x, 0) == x && Pow2(Meaningful(x) - 1) <= x < Pow2(Meaningful(x))
  {
    LengthIff(x, Meaningful(x));
    LengthIff(x, Meaningful(x) - 1);
    hide Length;
    hide Pow2;
  }

  /** Keeping the block is possible and costs no more bits than a new one. */
  predicate KeepsBlock(w: Option<Block>, x: nat, width: nat)
    requires InWord(w, width) && x > 0
  {
    w.Some? && Inside(x, w.value, width) && 2 + w.value.length <= 14 + Meaningful(x)
  }

  /** Of the two forms of a value that differs the encoder takes the shorter: a new block takes 14 bits
      and the meaningful ones, the old one 2 bits and its length, if all bits lie inside. */
  lemma {:induction false} CheaperForm(w: Option<Block>, x: nat, width: nat)
    requires 0 < x < Pow2(width) && InWord(w, width)
    ensures |EncodeOne(w, x, width)| <= 14 + Meaningful(x)
    ensures w.Some? && Inside(x, w.value, width) ==> |EncodeOne(w, x, width)| <= 2 + w.value.length
    ensures |EncodeOne(w, x, width)| == if KeepsBlock(w, x, width) then 2 + w.value.length else 14 + Meaningful(x)
    ensures NextBlock(w, x, width) ==
            if KeepsBlock(w, x, width) then w else Some(Block(LeadingZeros(x, width), Meaningful(x)))
  {
    SizeOf(w, x, width);
    if w.Some? { InsideIff(x, w.value, width); }
    hide EncodeOne;
    hide Inside;
    hide Meaningful;
    hide LeadingZeros;
  }

  lemma {:induction false} SameValue(w: Option<Block>, width: nat)
    requires InWord(w, width) && 0 < Pow2(width)
    ensures |EncodeOne(w, 0, width)| == 1 && NextBlock(w, 0, width) == w
  {
  }

  /** The bits it takes to begin a new block for every value that differs from the one before. */
  function NewBlockBits(vs: seq<nat>): nat {
    if |vs| <= 1 then 0
    else
      var x := Xor(vs[|vs| - 2], vs[|vs| - 1]);
      NewBlockBits(vs[..|vs| - 1]) + if x == 0 then 1 else 14 + Meaningful(x)
  }

  /** The same for each value of a chunk: what it adds to the bits, and which block is left. */
  lemma {:induction false} EachValueIsCheap(vs: seq<nat>, width: nat)
    requires |vs| > 1 && Words(vs, width)
    ensures var x := Xor(vs[|vs| - 2], vs[|vs| - 1]); var c := EncodeValues(vs[..|vs| - 1], width);
            var added := |EncodeValues(vs, width).bits| - |c.bits|;
            && added == (if x == 0 then 1 else if KeepsBlock(c.block, x, width) then 2 + c.block.value.length else 14 + Meaningful(x))
            && EncodeValues(vs, width).block ==
               (if x == 0 || KeepsBlock(c.block, x, width) then c.block
                else Some(Block(LeadingZeros(Difference(vs[|vs| - 2], vs[|vs| - 1], width), width), Meaningful(x))))
  {
    var front := vs[..|vs| - 1];
    var c := EncodeValues(front, width);
    EncodeStep(vs, width);
    var x := Difference(front[|front| - 1], vs[|vs| - 1], width);
    if x == 0 { SameValue(c.block, width); } else { CheaperForm(c.block, x, width); }
    hide EncodeValues;
    hide EncodeOne;
    hide NextBlock;
    hide Xor;
    hide KeepsBlock;
    hide Meaningful;
    hide LeadingZeros;
    hide Pow2;
  }

  /** No chunk takes more bits than with a new block for every value that differs. */
  lemma {:induction false} NeverWorseThanNewBlocks(vs: seq<nat>, width: nat)
    requires vs != [] && Words(vs, width)
    ensures |EncodeValues(vs, width).bits| <= NewBlockBits(vs)
  {
    if |vs| > 1 {
      NeverWorseThanNewBlocks(vs[..|vs| - 1], width);
      EachValueIsCheap(vs, width);
      hide EncodeValues;
      hide Xor;
      hide Meaningful;
      hide LeadingZeros;
    }
  }

  // ----- how long the bits get -----

  /** The most bits that `count` values of this width take. */
  function MostBits(count: nat, width: nat): nat {
    if count <= 1 then 0 else Times(count - 1, 13 + width) + 1
  }

  lemma {:induction false} ValuesSize(vs: seq<nat>, width: nat)
    requires vs != [] && Words(vs, width) && width > 0
    ensures |EncodeValues(vs, width).bits| <=
            Times(|vs| - 1, 13 + width) + (if IsFull(EncodeValues(vs, width).block, width) then 1 else 0)
    ensures |EncodeValues(vs, width).bits| <= MostBits(|vs|, width)
  {
    if |vs| > 1 {
      var front := vs[..|vs| - 1];
      ValuesSize(front, width);
      OneSize(EncodeValues(front, width).block, Difference(front[|front| - 1], vs[|vs| - 1], width), width);
      hide EncodeOne;
      hide NextBlock;
    }
  }

  /** n bits 1. */
  function Ones(n: nat): nat {
    if n == 0 then 0 else 2 * Ones(n - 1) + 1
  }

  lemma {:induction false} OnesLength(n: nat)
    ensures Length(Ones(n)) == n && Ones(n) < Pow2(n) && (n > 0 ==> Ones(n) > 0 && TrailingZeros(Ones(n)) == 0)
  {
    if n > 0 {
      OnesLength(n - 1);
      assert Ones(n) / 2 == Ones(n - 1);
    }
  }

  /** Values none of whose blocks fit the one before: a word without its highest bit, one without its
      lowest, and so on in turn, and at the end a full one. */
  function Awkward(k: nat, width: nat): nat
    requires width > 0
  {
    if k % 2 == 1 then Ones(width - 1) else 2 * Ones(width - 1)
  }

  lemma {:induction false} AwkwardBlock(k: nat, width: nat)
    requires width > 1
    ensures 0 < Awkward(k, width) < Pow2(width)
    ensures LeadingZeros(Awkward(k, width), width) == k % 2 && Meaningful(Awkward(k, width)) == width - 1
  {
    OnesLength(width - 1);
    var y := Ones(width - 1);
    assert 2 * y / 2 == y;
  }

  lemma {:induction false} AwkwardIsNew(w: Option<Block>, k: nat, width: nat)
    requires width > 1 && InWord(w, width) && (w.None? || w == Some(Block((k + 1) % 2, width - 1)))
    ensures 0 < Awkward(k, width) < Pow2(width)
    ensures NextBlock(w, Awkward(k, width), width) == Some(Block(k % 2, width - 1))
    ensures |EncodeOne(w, Awkward(k, width), width)| == 13 + width
  {
    AwkwardBlock(k, width);
    SizeOf(w, Awkward(k, width), width);
    hide EncodeOne;
    hide Awkward;
    hide Meaningful;
    hide LeadingZeros;
  }

  lemma {:induction false} FullIsNew(w: Option<Block>, width: nat)
    requires width > 1 && InWord(w, width) && !IsFull(w, width)
    ensures 0 < Ones(width) < Pow2(width) && |EncodeOne(w, Ones(width), width)| == 14 + width
  {
    OnesLength(width);
    SizeOf(w, Ones(width), width);
    hide EncodeOne;
  }

  /** Values that differ from one another by the awkward ones. */
  function Zigzag(n: nat, width: nat): (vs: seq<nat>)
    requires width > 1
    ensures |vs| == n + 1 && Words(vs, width)
  {
    if n == 0 then
      [0]
    else
      var vs := Zigzag(n - 1, width);
      AwkwardBlock(n, width);
      XorBelow(vs[n - 1], Awkward(n, width), width);
      vs + [Xor(vs[n - 1], Awkward(n, width))]
  }

  lemma {:induction false} OneMore(vs: seq<nat>, x: nat, width: nat)
    requires vs != [] && Words(vs, width) && x < Pow2(width)
    ensures var all := vs + [Xor(vs[|vs| - 1], x)];
            && Words(all, width)
            && EncodeValues(all, width) == (var c := EncodeValues(vs, width);
                                            Coder(c.bits + EncodeOne(c.block, x, width), NextBlock(c.block, x, width)))
  {
    var last := vs[|vs| - 1];
    XorBelow(last, x, width);
    var all := vs + [Xor(last, x)];
    XorBack(last, x);
    assert all[..|vs|] == vs;
    hide EncodeOne;
    hide NextBlock;
    hide Xor;
  }

  /** The encoder's state after n + 1 of these. */
  ghost predicate Zigzagged(c: Coder, n: nat, width: nat)
    requires width > 0
  {
    |c.bits| == Times(n, 13 + width) && c.block == if n == 0 then None else Some(Block(n % 2, width - 1))
  }

  lemma {:induction false} ZigzagStep(c: Coder, n: nat, width: nat)
    requires width > 1 && n > 0 && Zigzagged(c, n - 1, width)
    ensures InWord(c.block, width) && Awkward(n, width) < Pow2(width)
    ensures Zigzagged(Coder(c.bits + EncodeOne(c.block, Awkward(n, width), width), NextBlock(c.block, Awkward(n, width), width)), n, width)
  {
    if n > 1 { assert c.block == Some(Block((n + 1) % 2, width - 1)); }
    AwkwardIsNew(c.block, n, width);
    hide EncodeOne;
    hide NextBlock;
    hide Awkward;
    hide Pow2;
  }

  lemma {:induction false} ZigzagGoesOn(n: nat, width: nat)
    requires width > 1 && n > 0
    ensures Awkward(n, width) < Pow2(width) && Zigzag(n, width) == Zigzag(n - 1, width) + [Xor(Zigzag(n - 1, width)[n - 1], Awkward(n, width))]
  {
    AwkwardBlock(n, width);
    hide Awkward;
    hide Xor;
    hide Pow2;
  }

  lemma {:induction false} ZigzagSize(n: nat, width: nat)
    requires width > 1
    ensures Zigzagged(EncodeValues(Zigzag(n, width), width), n, width)
  {
    if n > 0 {
      hide *;
      var vs := Zigzag(n - 1, width);
      ZigzagSize(n - 1, width);
      ZigzagStep(EncodeValues(vs, width), n, width);
      ZigzagGoesOn(n, width);
      OneMore(vs, Awkward(n, width), width);
    }
  }

  lemma {:induction false} NotYetFull(c: Coder, n: nat, width: nat)
    requires width > 1 && Zigzagged(c, n, width)
    ensures InWord(c.block, width) && !IsFull(c.block, width) && |c.bits| + 14 + width == MostBits(n + 2, width)
  {
  }

  /** Zigzagging values and one that differs from them by a word of ones. */
  function Longest(n: nat, width: nat): (vs: seq<nat>)
    requires width > 1
    ensures |vs| == n + 2 && Words(vs, width)
  {
    var vs := Zigzag(n, width);
    OnesLength(width);
    XorBelow(vs[n], Ones(width), width);
    vs + [Xor(vs[n], Ones(width))]
  }

  lemma {:induction false} LongestSize(n: nat, width: nat)
    requires width > 1
    ensures |EncodeValues(Longest(n, width), width).bits| == MostBits(n + 2, width)
  {
    hide EncodeValues;
    hide EncodeOne;
    hide Zigzag;
    hide Ones;
    hide Xor;
    hide Pow2;
    hide Zigzagged;
    hide MostBits;
    hide Times;
    hide IsFull;
    hide InWord;
    hide NextBlock;
    var vs := Zigzag(n, width);
    ZigzagSize(n, width);
    var c := EncodeValues(vs, width);
    NotYetFull(c, n, width);
    FullIsNew(c.block, width);
    OneMore(vs, Ones(width), width);
  }

  /** Some values take that many bits. */
  lemma {:induction false} MostBitsAttained(count: nat, width: nat) returns (vs: seq<nat>)
    requires count > 0 && width > 1
    ensures |vs| == count && Words(vs, width) && |EncodeValues(vs, width).bits| == MostBits(count, width)
  {
    hide EncodeOne;
    hide Longest;
    if count == 1 {
      vs := [0];
    } else {
      vs := Longest(count - 2, width);
      LongestSize(count - 2, width);
    }
  }

  lemma {:induction false} XorNothing(a: nat)
    ensures Xor(a, a) == 0 && Xor(0, a) == a
  {
    if a > 0 { XorNothing(a / 2); }
  }

  lemma {:induction false} OneIsOneBit()
    ensures Length(1) == 1 && TrailingZeros(1) == 0 && Pow2(1) == 2
  {
  }

  lemma {:induction false} SmallBehindFull(x: nat, width: nat)
    requires width > 13 && x == 1
    ensures var w := Some(Block(0, width));
            && InWord(w, width) && x < Pow2(width) && |EncodeOne(w, x, width)| == 15
            && NextBlock(w, x, width) == Some(Block(width - 1, 1))
  {
    var w := Some(Block(0, width));
    PowGrows(1, width);
    OneIsOneBit();
    CheaperForm(w, x, width);
    hide EncodeOne;
    hide NextBlock;
    hide Inside;
    hide Pow2;
    hide Length;
    hide TrailingZeros;
  }

  lemma {:induction false} NothingEncoded(v: nat, width: nat)
    requires Words([v], width)
    ensures EncodeValues([v], width) == Coder([], None)
  {
  }

  lemma {:induction false} FullBlockFirst(v: nat, width: nat)
    requires width > 13 && v == Ones(width)
    ensures Words([0, v], width)
    ensures var c := EncodeValues([0, v], width); |c.bits| == 14 + width && c.block == Some(Block(0, width))
  {
    var first: seq<nat> := [0];
    OnesLength(width);
    XorNothing(v);
    assert Words(first, width) && first + [v] == [0, v];
    NothingEncoded(0, width);
    FullIsNew(None, width);
    NextIsNew(None, v, width);
    assert LeadingZeros(v, width) == 0 && Meaningful(v) == width;
    hide EncodeValues;
    hide EncodeOne;
    hide NextBlock;
    hide Xor;
    hide Pow2;
    hide Ones;
    OneMore(first, v, width);
  }

  lemma {:induction false} NarrowBehind(v: nat, x: nat, u: nat, width: nat)
    requires width > 13 && v == Ones(width) && x == 1 && Xor(v, x) == u
    ensures Words([0, v, u], width) && |EncodeValues([0, v, u], width).bits| == 14 + width + 15
  {
    hide *;
    FullBlockFirst(v, width);
    SmallBehindFull(x, width);
    OneMore([0, v], x, width);
    assert [0, v] + [u] == [0, v, u];
  }

  /** The words 0, 2^width - 1 and 2^width - 2: behind a block of all bits the last one takes a new block
      of 15 bits and not the 2 + width of the old one. */
  lemma {:induction false} WideThenNarrow(width: nat)
    requires width > 13
    ensures var vs := [0, Ones(width), 2 * Ones(width - 1)];
            Words(vs, width) && |EncodeValues(vs, width).bits| == 14 + width + 15
  {
    XorOne(Ones(width - 1));
    assert Ones(width) == 2 * Ones(width - 1) + 1;
    hide *;
    NarrowBehind(Ones(width), 1, 2 * Ones(width - 1), width);
  }

  lemma {:induction false} XorOne(a: nat)
    ensures Xor(2 * a + 1, 1) == 2 * a
  {
    assert (2 * a + 1) / 2 == a;
    XorCommutes(a, 0);
    XorNothing(a);
  }

  lemma {:induction false} FormOfOne(w: Option<Block>, x: nat, width: nat)
    requires w == None && x == 1 && width > 0
    ensures x < Pow2(width)
    ensures EncodeOne(w, x, width) == [true, true] + BitsOf(width - 1, 6) + BitsOf(1, 6) + BitsOf(x, 1)
  {
    OneIsOneBit();
    PowGrows(1, width);
    hide Pow2;
    hide Length;
    hide TrailingZeros;
    hide BitsOf;
  }

  /** Two bits, leading zeros in six bits, length in six bits, then the bits: 31, 1 and a single 1. */
  lemma {:induction false} BitsOfOne(w: Option<Block>, x: nat, width: nat)
    requires w == None && x == 1 && width == 32
    ensures x < Pow2(width)
    ensures EncodeOne(w, x, width) == [true, true, false, true, true, true, true, true, false, false, false, false, false, true, true]
  {
    hide *;
    FormOfOne(w, x, width);
    SixBits();
    OneBitOf(x);
  }

  lemma {:induction false} OneBitOf(x: nat)
    requires x == 1
    ensures BitsOf(x, 1) == [true]
  {
    assert BitsOf(0, 0) == [];
  }

  lemma {:induction false} SixBits()
    ensures BitsOf(31, 6) == [false, true, true, true, true, true]
    ensures BitsOf(1, 6) == [false, false, false, false, false, true]
  {
    FiveBits();
    assert BitsOf(31, 6) == BitsOf(15, 5) + [true] && BitsOf(1, 6) == BitsOf(0, 5) + [true];
    hide BitsOf;
  }

  lemma {:induction false} FiveBits()
    ensures BitsOf(15, 5) == [false, true, true, true, true] && BitsOf(0, 5) == [false, false, false, false, false]
  {
    ThreeBits();
    assert BitsOf(15, 5) == BitsOf(7, 4) + [true] && BitsOf(7, 4) == BitsOf(3, 3) + [true];
    assert BitsOf(0, 5) == BitsOf(0, 4) + [false] && BitsOf(0, 4) == BitsOf(0, 3) + [false];
    hide BitsOf;
  }

  lemma {:induction false} ThreeBits()
    ensures BitsOf(3, 3) == [false, true, true] && BitsOf(0, 3) == [false, false, false]
  {
  }
}
