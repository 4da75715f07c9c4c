/** bit_writer_t and bit_reader_t: bits in bytes, highest bit first. */
module BitBuffer {
  import opened Arith
  import opened Bits
  import opened Filters

  /** Up to eight bits as a byte, zeros behind them. */
  function ByteOf(bs: seq<bool>): byte
    requires |bs| <= 8
  {
    FromBitsBelow(bs);
    ShlBelow(FromBits(bs), 8 - |bs|, |bs|);
    Pow8();
    Shl(FromBits(bs), 8 - |bs|) as byte
  }

  lemma {:induction false} Pow8()
    ensures Pow2(8) == 256
  {
    assert Pow2(4) == 16;
  }

  /** The bytes that hold the bits. */
  function Pack(bits: seq<bool>): (r: bytes)
    ensures |r| == (|bits| + 7) / 8
  {
    seq((|bits| + 7) / 8, j requires 0 <= j < (|bits| + 7) / 8 => ByteOf(Group(bits, j)))
  }

  /** The j-th eight bits, or what there is of them. */
  function Group(bits: seq<bool>, j: nat): (g: seq<bool>)
    requires 8 * j <= |bits|
    ensures |g| <= 8
  {
    if 8 * j + 8 <= |bits| then bits[8 * j..8 * j + 8] else bits[8 * j..]
  }

  /** Bit k of a byte, counted from the highest. */
  function BitOf(b: byte, k: nat): bool
    requires k < 8
  {
    Shr(b as nat, 7 - k) % 2 == 1
  }

  /** All bits of the bytes. */
  function Stream(r: bytes): (s: seq<bool>)
    ensures |s| == 8 * |r|
  {
    seq(8 * |r|, i requires 0 <= i < 8 * |r| => BitOf(r[i / 8], i % 8))
  }

  lemma {:induction false} ShrOfByte(bs: seq<bool>, k: nat)
    requires k < |bs| <= 8
    ensures Shr(ByteOf(bs) as nat, 7 - k) == FromBits(bs[..k + 1])
  {
    ShrOfShl(FromBits(bs), 8 - |bs|, 7 - k);
    ShrFromBits(bs, |bs| - 1 - k);
    hide FromBits;
    hide Shl;
    hide Shr;
    hide Pow2;
  }

  lemma {:induction false} LastBit(bs: seq<bool>)
    requires bs != []
    ensures FromBits(bs) % 2 == 1 <==> bs[|bs| - 1]
  {
  }

  lemma {:induction false} BitOfByte(bs: seq<bool>, k: nat)
    requires k < |bs| <= 8
    ensures BitOf(ByteOf(bs), k) == bs[k]
  {
    ShrOfByte(bs, k);
    LastBit(bs[..k + 1]);
    hide FromBits;
    hide ByteOf;
    hide Shr;
  }

  /** The stream of packed bits begins with the bits. */
  lemma {:induction false} StreamOfPack(bits: seq<bool>, rest: bytes)
    ensures IsPiece(Stream(Pack(bits) + rest), bits, 0)
  {
    forall i | 0 <= i < |bits| ensures bits[i] == Stream(Pack(bits) + rest)[i] {
      var g := Group(bits, i / 8);
      assert i % 8 < |g| && g[i % 8] == bits[i];
      assert (Pack(bits) + rest)[i / 8] == Pack(bits)[i / 8] == ByteOf(g);
      BitOfByte(g, i % 8);
    }
  }

  // ----- one bit more -----

  /** The weight of bit k of a byte. */
  function Weight(k: nat): nat
    requires k < 8
  {
    Shl(1, 7 - k)
  }

  lemma {:induction false} ByteGrows(bs: seq<bool>, bit: bool)
    requires |bs| < 8
    ensures ByteOf(bs + [bit]) as nat == (if bs == [] then 0 else ByteOf(bs) as nat) + (if bit then Weight(|bs|) else 0)
  {
    var all := bs + [bit];
    assert all[..|bs|] == bs;
    var k := 7 - |bs|;
    ShlAdd(2 * FromBits(bs), if bit then 1 else 0, k);
    ShlZero(k);
    assert Shl(FromBits(bs), k + 1) == Shl(2 * FromBits(bs), k);
  }

  lemma {:induction false} ShlZero(k: nat)
    ensures Shl(0, k) == 0
  {
    if k > 0 { ShlZero(k - 1); }
  }

  lemma {:induction false} PackGrows(bits: seq<bool>, bit: bool)
    ensures var k := |bits| % 8; var p := Pack(bits); var q := Pack(bits + [bit]);
            && |bits| / 8 < |q| && |p| <= |q| && (k == 0 ==> |p| == |bits| / 8) && (k != 0 ==> |p| == |q| == |bits| / 8 + 1)
            && (forall j :: 0 <= j < |bits| / 8 ==> q[j] == p[j])
            && q[|bits| / 8] as nat == (if k == 0 then 0 else p[|bits| / 8] as nat) + (if bit then Weight(k) else 0)
  {
    hide ByteOf;
    hide Group;
    hide Weight;
    var all, m := bits + [bit], |bits| / 8;
    GroupsGrow(bits, bit);
    ByteGrows(Group(bits, m), bit);
  }

  lemma {:induction false} GroupsGrow(bits: seq<bool>, bit: bool)
    ensures forall j :: 0 <= j < |bits| / 8 ==> Group(bits + [bit], j) == Group(bits, j)
    ensures Group(bits + [bit], |bits| / 8) == Group(bits, |bits| / 8) + [bit] && |Group(bits, |bits| / 8)| == |bits| % 8
  {
  }

  /** b |= 1 << (7 - k) */
  function SetBit(b: nat, k: nat): nat
    requires k < 8 && b < 256
  {
    if BitOf(b as byte, k) then b else b + Weight(k)
  }

  /** The bits behind the last one are 0. */
  lemma {:induction false} UnwrittenIsZero(bs: seq<bool>, k: nat)
    requires |bs| <= k < 8
    ensures !BitOf(ByteOf(bs), k)
  {
    ShrOfLongerShl(FromBits(bs), 8 - |bs|, 7 - k);
  }

  /** So setting the next one is writing it. */
  lemma {:induction false} SetBitWrites(bits: seq<bool>)
    ensures var k := |bits| % 8; var p := Pack(bits); var q := Pack(bits + [true]);
            |bits| / 8 < |q| && (k != 0 ==> |p| == |bits| / 8 + 1)
            && q[|bits| / 8] as nat == SetBit(if k == 0 then 0 else p[|bits| / 8] as nat, k)
  {
    var k := |bits| % 8;
    PackGrows(bits, true);
    if k == 0 {
      UnwrittenIsZero([], 0);
      assert ByteOf([]) == 0;
    } else {
      UnwrittenIsZero(Group(bits, |bits| / 8), k);
    }
    hide ByteOf;
    hide BitOf;
    hide Weight;
  }

  // ----- the writer -----

  class BitWriter {
    const buf: array<byte>
    const base: nat
    var bytePos: nat
    var bitPos: nat
    ghost var bits: seq<bool>

    ghost predicate Valid()
      reads this, buf
    {
      && bitPos == |bits| % 8 && bytePos == |bits| / 8 && base + |Pack(bits)| <= buf.Length
      && forall j :: 0 <= j < |Pack(bits)| ==> buf[base + j] == Pack(bits)[j]
    }

    /** There is room for n bits more. */
    ghost predicate Room(n: nat)
      reads this
    {
      base + (|bits| + n + 7) / 8 <= buf.Length
    }

    constructor (buf: array<byte>, base: nat)
      requires base <= buf.Length
      ensures Valid() && this.buf == buf && this.base == base && bits == []
    {
      this.buf := buf;
      this.base := base;
      bytePos, bitPos, bits := 0, 0, [];
    }

    /** How many bytes are written, the last perhaps in part. */
    method Size() returns (n: nat)
      requires Valid()
      ensures n == |Pack(bits)| && base + n <= buf.Length && buf[base..base + n] == Pack(bits)
    {
      n := bytePos + if bitPos > 0 then 1 else 0;
      assert n == |Pack(bits)|;
      hide Pack;
    }

    /** write_bit, given room for it */
    method WriteBit(bit: bool)
      requires Valid() && Room(1)
      modifies this, buf
      ensures Valid() && bits == old(bits) + [bit]
      ensures buf[..base] == old(buf[..base])
    {
      PackGrows(bits, bit);
      SetBitWrites(bits);
      hide Pack;
      hide Weight;
      hide SetBit;
      if bitPos == 0 {
        buf[base + bytePos] := 0;
      }
      if bit {
        buf[base + bytePos] := SetBit(buf[base + bytePos] as nat, bitPos) as byte;
      }
      bits := bits + [bit];
      bitPos := bitPos + 1;
      if bitPos == 8 {
        bitPos, bytePos := 0, bytePos + 1;
      }
    }

    /** write_bits: the lowest n bits of value, highest first. */
    method WriteBits(value: nat, n: nat)
      requires Valid() && Room(n)
      modifies this, buf
      ensures Valid() && bits == old(bits) + BitsOf(value, n)
      ensures buf[..base] == old(buf[..base])
    {
      var i: nat := n;
      NoBitsYet(value, n);
      while i > 0
        invariant i <= n && Valid() && Room(i) && bits == old(bits) + BitsOf(Shr(value, i), n - i)
        invariant buf[..base] == old(buf[..base])
      {
        hide Pack;
        hide Shr;
        hide Valid;
        i := i - 1;
        NextBit(value, i, n - i);
        WriteBit(Shr(value, i) % 2 == 1);
      }
    }
  }

  lemma {:induction false} NoBitsYet(value: nat, n: nat)
    ensures BitsOf(Shr(value, n), 0) == [] && Shr(value, 0) == value
  {
  }

  lemma {:induction false} NextBit(value: nat, i: nat, k: nat)
    requires k > 0
    ensures BitsOf(Shr(value, i), k) == BitsOf(Shr(value, i + 1), k - 1) + [Shr(value, i) % 2 == 1]
  {
    ShrOnce(value, i);
  }

  // ----- the reader -----

  class BitReader {
    const buf: seq<byte>
    var bytePos: nat
    var bitPos: nat

    /** How many bits were read. */
    function Pos(): nat
      reads this
    {
      8 * bytePos + bitPos
    }

    constructor (buf: seq<byte>)
      ensures this.buf == buf && bitPos < 8 && Pos() == 0
    {
      this.buf := buf;
      bytePos, bitPos := 0, 0;
    }

    /** read_bit, given that there is one */
    method ReadBit() returns (bit: bool)
      requires bitPos < 8 && Pos() < |Stream(buf)|
      modifies this
      ensures bitPos < 8 && Pos() == old(Pos()) + 1 && bit == Stream(buf)[old(Pos())]
    {
      bit := BitOf(buf[bytePos], bitPos);
      assert Stream(buf)[8 * bytePos + bitPos] == bit;
      bitPos := bitPos + 1;
      if bitPos == 8 {
        bitPos, bytePos := 0, bytePos + 1;
      }
    }

    /** read_bits */
    method ReadBits(n: nat) returns (result: nat)
      requires bitPos < 8 && Pos() + n <= |Stream(buf)|
      modifies this
      ensures bitPos < 8 && Pos() == old(Pos()) + n && result == FromBits(Stream(buf)[old(Pos())..old(Pos()) + n])
    {
      hide FromBits;
      hide Stream;
      ghost var s, p := Stream(buf), Pos();
      result := 0;
      NoBits(s, p);
      for i := 0 to n
        invariant bitPos < 8 && Pos() == p + i && result == FromBits(s[p..p + i])
      {
        OneBitMore(s, p, i);
        var bit := ReadBit();
        result := 2 * result + if bit then 1 else 0;
      }
    }
  }

  lemma {:induction false} NoBits(s: seq<bool>, p: nat)
    requires p <= |s|
    ensures FromBits(s[p..p]) == 0
  {
  }

  lemma {:induction false} OneBitMore(s: seq<bool>, p: nat, i: nat)
    requires p + i < |s|
    ensures FromBits(s[p..p + i + 1]) == 2 * FromBits(s[p..p + i]) + if s[p + i] then 1 else 0
  {
    assert s[p..p + i + 1][..i] == s[p..p + i];
  }
}
