/** The streaming copy benchmark: every element of a viewed dataset is appended to a packet
    table, until the data or the time runs out, and the table is flushed. */
module StreamCopy {
  import opened Arith
  import opened Filters
  import opened Pipeline
  import opened PacketTable
  import opened ChunkView

  function Flat(xs: seq<bytes>): bytes {
    if xs == [] then [] else Flat(xs[..|xs| - 1]) + xs[|xs| - 1]
  }

  ghost predicate AllSized(xs: seq<bytes>, size: nat) {
    forall i :: 0 <= i < |xs| ==> |xs[i]| == size
  }

  lemma {:induction false} FlatPiece(xs: seq<bytes>, size: nat, k: nat)
    requires AllSized(xs, size) && k < |xs|
    ensures IsPiece(Flat(xs), xs[k], Times(k, size))
  {
    var front := xs[..|xs| - 1];
    FlatLength(front, size);
    if k < |front| {
      FlatPiece(front, size, k);
    }
  }

  lemma {:induction false} FlatLength(xs: seq<bytes>, size: nat)
    requires AllSized(xs, size)
    ensures |Flat(xs)| == Times(|xs|, size)
  {
    if xs != [] {
      FlatLength(xs[..|xs| - 1], size);
    }
  }

  /** `flat` is the pieces of xs, `size` bytes each, side by side. */
  ghost predicate Cut(flat: bytes, xs: seq<bytes>, size: nat) {
    forall k :: 0 <= k < |xs| ==> |xs[k]| == size && IsPiece(flat, xs[k], Times(k, size))
  }

  lemma {:induction false} FlatCut(xs: seq<bytes>, size: nat)
    requires AllSized(xs, size)
    ensures Cut(Flat(xs), xs, size)
  {
    forall k | 0 <= k < |xs| ensures IsPiece(Flat(xs), xs[k], Times(k, size)) {
      FlatPiece(xs, size, k);
    }
  }

  function BlockBytes(blocks: seq<Block>): seq<bytes> {
    seq(|blocks|, i requires 0 <= i < |blocks| => blocks[i].Bytes())
  }

  /** Slot k of block i is element i * n + k of the stream. */
  lemma {:induction false} SlotOfBlock(flat: bytes, bs: seq<bytes>, xs: seq<bytes>, n: nat, size: nat, i: nat, k: nat)
    requires Cut(flat, bs, Times(n, size)) && Cut(flat, xs, size)
    requires i < |bs| && k < n && Times(i, n) + k < |xs|
    ensures Times(k, size) + size <= |bs[i]| && Slot(bs[i], k, size) == xs[Times(i, n) + k]
  {
    var bsz, c, e := Times(n, size), Times(k, size), Times(i, n) + k;
    assert |bs[i]| == bsz && IsPiece(flat, bs[i], Times(i, bsz));
    assert |xs[e]| == size && IsPiece(flat, xs[e], Times(e, size));
    TimesAdd(Times(i, n), k, size);
    TimesNest(i, n, size);
    TimesLess(k, n, size);
    assert c + size <= |bs[i]|;
    PieceOfPiece(flat, bs[i], xs[e], Times(i, bsz), c);
  }

  ghost predicate LosslessChain(chain: Chain, blockSize: nat, scratch: nat) {
    forall d: bytes :: |d| == blockSize ==> Lossless(chain, d) && Fits(chain, d, scratch)
  }

  /** An old chunk index or a new one: the two ways to be below the new extent. */
  lemma {:induction false} ChunkAt(first: nat, n: nat, c: nat, count: nat) returns (i: nat)
    requires n > 0 && first % n == 0 && c % n == 0 && first <= c < Offset(first, n, count)
    ensures i < count && c == Offset(first, n, i)
  {
    TimesDivModDef(c, n);
    TimesDivModDef(first, n);
    if c / n < first / n { TimesLess(c / n, first / n, n); }
    i := c / n - first / n;
    TimesAdd(first / n, i, n);
    if count < i { TimesLess(count, i, n); }
  }

  /** Block i is stored and decodes to its bytes. */
  ghost predicate BlockReads(m: Chunks, chain: Chain, offset: nat, scratch: nat, data: bytes) {
    && offset in m && Decode(chain, m[offset]) == data
    && FitsBack(chain, |chain|, m[offset].data, m[offset].mask, scratch)
  }

  lemma {:induction false} LandedBlockReads(m: Chunks, base: Chunks, chain: Chain, offset: nat, scratch: nat, data: bytes)
    requires BlockLanded(m, base, offset, Encode(chain, data))
    requires Lossless(chain, data) && Fits(chain, data, scratch) && data != []
    ensures BlockReads(m, chain, offset, scratch, data)
  {
    DecodeInvertsEncode(chain, data);
    LosslessNotEmpty(chain, data);
    EncodeFromStage(chain, 0, data);
    LosslessFitsBack(chain, |chain|, data, scratch);
  }

  /** The new chunks, and below `first` the old ones. */
  ghost predicate Extended(m: Chunks, base: Chunks, chain: Chain, first: nat, n: nat, scratch: nat, blocks: seq<Block>) {
    && (forall i {:trigger Offset(first, n, i)} :: 0 <= i < |blocks| ==>
          BlockReads(m, chain, Offset(first, n, i), scratch, blocks[i].Bytes()))
    && forall c :: c < first && c in base ==> c in m && m[c] == base[c]
  }

  lemma {:induction false} AppendedBlocksRead(base: Chunks, chain: Chain, first: nat, n: nat, size: nat, scratch: nat, blocks: seq<Block>)
    requires n > 0 && size > 0 && first % n == 0
    requires LosslessChain(chain, Times(n, size), scratch) && AllSized(BlockBytes(blocks), Times(n, size))
    ensures Extended(StoreAll(base, n, Jobs(chain, first, n, blocks)), base, chain, first, n, scratch, blocks)
  {
    AlignedBlocksLand(base, chain, first, n, blocks);
    TimesLess(0, n, size);
    var m := StoreAll(base, n, Jobs(chain, first, n, blocks));
    hide StoreAll;
    forall i | 0 <= i < |blocks| ensures BlockReads(m, chain, Offset(first, n, i), scratch, blocks[i].Bytes()) {
      assert BlockLanded(m, base, Offset(first, n, i), Encode(chain, blocks[i].Bytes()));
      assert |BlockBytes(blocks)[i]| == Times(n, size);
      LandedBlockReads(m, base, chain, Offset(first, n, i), scratch, blocks[i].Bytes());
    }
  }

  lemma {:induction false} ExtendedReadable(m: Chunks, base: Chunks, chain: Chain, first: nat, n: nat, size: nat, scratch: nat, blocks: seq<Block>)
    requires Readable(base, chain, first, n, size, scratch) && first % n == 0
    requires Extended(m, base, chain, first, n, scratch, blocks) && AllSized(BlockBytes(blocks), Times(n, size))
    ensures Readable(m, chain, Offset(first, n, |blocks|), n, size, scratch)
  {
    forall c | 0 <= c < Offset(first, n, |blocks|) && c % n == 0
      ensures c in m && FitsBack(chain, |chain|, m[c].data, m[c].mask, scratch) && |Decode(chain, m[c])| == Times(n, size)
    {
      if c >= first {
        var i := ChunkAt(first, n, c, |blocks|);
        assert |BlockBytes(blocks)[i]| == Times(n, size);
        assert BlockReads(m, chain, Offset(first, n, i), scratch, blocks[i].Bytes());
      } else {
        assert c in base;
      }
    }
  }

  /** Whether a dataset can be read, and as what, depends on the reverse filters only. */
  lemma {:induction false} ReadableAlike(m: Chunks, a: Chain, b: Chain, total: nat, n: nat, size: nat, scratch: nat)
    requires SameDecoders(a, b) && Readable(m, a, total, n, size, scratch)
    ensures Readable(m, b, total, n, size, scratch)
  {
    forall c | 0 <= c < total && c % n == 0
      ensures c in m && FitsBack(b, |b|, m[c].data, m[c].mask, scratch) && |Decode(b, m[c])| == Times(n, size)
    {
      assert c in m;
      SameDecode(a, b, |a|, m[c].data, m[c].mask);
      FitsBackAlike(a, b, |a|, m[c].data, m[c].mask, scratch);
    }
  }

  lemma {:induction false} FitsBackAlike(a: Chain, b: Chain, j: nat, data: bytes, mask: set<nat>, capacity: nat)
    requires SameDecoders(a, b) && j <= |a| && FitsBack(a, j, data, mask, capacity)
    ensures FitsBack(b, j, data, mask, capacity)
  {
    if j > 0 { FitsBackAlike(a, b, j - 1, if j - 1 in mask then data else a[j - 1].decode(data), mask, capacity); }
  }

  lemma {:induction false} ReadsAlike(m: Chunks, a: Chain, b: Chain, total: nat, n: nat, size: nat, scratch: nat, xs: seq<bytes>)
    requires SameDecoders(a, b) && Reads(m, a, total, n, size, scratch, xs)
    ensures Reads(m, b, total, n, size, scratch, xs)
  {
    ReadableAlike(m, a, b, total, n, size, scratch);
    forall o | 0 <= o < total
      ensures Element(m, a, total, n, size, scratch, o) == Element(m, b, total, n, size, scratch, o)
    {
      ChunkStartBelow(o, n);
      var c := ChunkStart(o, n);
      assert c in m;
      SameDecode(a, b, |a|, m[c].data, m[c].mask);
    }
  }

  lemma {:induction false} ChunkOfAppended(first: nat, n: nat, p: nat)
    requires n > 0 && first % n == 0
    ensures ChunkStart(first + p, n) == Offset(first, n, p / n) && (first + p) % n == p % n
  {
    var q, i, k := first / n, p / n, p % n;
    TimesDivModDef(first, n);
    TimesDivModDef(p, n);
    TimesAdd(q, i, n);
    TimesDivMod(q + i, k, n);
    ChunkStartBelow(first + p, n);
  }

  /** Element p of the appended part. */
  lemma {:induction false} AppendedElement(m: Chunks, base: Chunks, chain: Chain, first: nat, n: nat, size: nat, scratch: nat,
                        flat: bytes, blocks: seq<Block>, xs: seq<bytes>, p: nat)
    requires Readable(m, chain, Offset(first, n, |blocks|), n, size, scratch) && first % n == 0
    requires Extended(m, base, chain, first, n, scratch, blocks)
    requires Cut(flat, BlockBytes(blocks), Times(n, size)) && Cut(flat, xs, size)
    requires |xs| == Times(|blocks|, n) && p < |xs|
    ensures first + p < Offset(first, n, |blocks|)
    ensures Element(m, chain, Offset(first, n, |blocks|), n, size, scratch, first + p) == xs[p]
  {
    var i, k := p / n, p % n;
    TimesDivModDef(p, n);
    ChunkOfAppended(first, n, p);
    if |blocks| < i { TimesLess(|blocks|, i, n); }
    assert BlockReads(m, chain, Offset(first, n, i), scratch, blocks[i].Bytes());
    hide Readable;
    hide Decode;
    SlotOfBlock(flat, BlockBytes(blocks), xs, n, size, i, k);
  }

  lemma {:induction false} OldElement(m: Chunks, base: Chunks, chain: Chain, first: nat, n: nat, size: nat, scratch: nat,
                                      blocks: seq<Block>, o: nat)
    requires Readable(base, chain, first, n, size, scratch) && o < first
    requires Readable(m, chain, Offset(first, n, |blocks|), n, size, scratch)
    requires Extended(m, base, chain, first, n, scratch, blocks)
    ensures Element(m, chain, Offset(first, n, |blocks|), n, size, scratch, o) ==
            Element(base, chain, first, n, size, scratch, o)
  {
    ChunkStartBelow(o, n);
    assert ChunkStart(o, n) in base;
  }

  lemma {:induction false} ExtendedContents(m: Chunks, base: Chunks, chain: Chain, first: nat, n: nat, size: nat, scratch: nat,
                                            flat: bytes, blocks: seq<Block>, before: seq<bytes>, xs: seq<bytes>)
    requires Reads(base, chain, first, n, size, scratch, before) && first % n == 0
    requires Readable(m, chain, Offset(first, n, |blocks|), n, size, scratch)
    requires Extended(m, base, chain, first, n, scratch, blocks)
    requires Cut(flat, BlockBytes(blocks), Times(n, size)) && Cut(flat, xs, size) && |xs| == Times(|blocks|, n)
    ensures Reads(m, chain, Offset(first, n, |blocks|), n, size, scratch, before + xs)
  {
    var total := Offset(first, n, |blocks|);
    forall o | 0 <= o < total ensures (before + xs)[o] == Element(m, chain, total, n, size, scratch, o) {
      if o < first {
        OldElement(m, base, chain, first, n, size, scratch, blocks, o);
      } else {
        AppendedElement(m, base, chain, first, n, size, scratch, flat, blocks, xs, o - first);
      }
    }
    hide Readable;
    hide Element;
    hide Extended;
    hide Cut;
  }

  /** A dataset to which whole blocks were appended reads as its old contents followed by the
      elements of the blocks. */
  lemma {:induction false} AppendedContents(base: Chunks, chain: Chain, first: nat, n: nat, size: nat, scratch: nat,
                                            flat: bytes, blocks: seq<Block>, before: seq<bytes>, xs: seq<bytes>)
    requires Reads(base, chain, first, n, size, scratch, before) && first % n == 0
    requires LosslessChain(chain, Times(n, size), scratch) && AllSized(BlockBytes(blocks), Times(n, size))
    requires Cut(flat, BlockBytes(blocks), Times(n, size)) && Cut(flat, xs, size) && |xs| == Times(|blocks|, n)
    ensures Reads(StoreAll(base, n, Jobs(chain, first, n, blocks)), chain, Offset(first, n, |blocks|), n, size, scratch,
                  before + xs)
  {
    AppendedBlocksRead(base, chain, first, n, size, scratch, blocks);
    var m := StoreAll(base, n, Jobs(chain, first, n, blocks));
    ExtendedReadable(m, base, chain, first, n, size, scratch, blocks);
    hide *;
    ExtendedContents(m, base, chain, first, n, size, scratch, flat, blocks, before, xs);
  }

  // ----- what the table holds after a stream of scalars -----

  function Appends(xs: seq<bytes>): seq<Action> {
    seq(|xs|, i requires 0 <= i < |xs| => AppendScalar(xs[i]))
  }

  /** Block bytes followed by the buffered bytes. */
  function Stream(s: State): bytes {
    Flat(BlockBytes(s.blocks)) + s.pending
  }

  lemma {:induction false} StreamStep(sh: Shape, s: State, x: bytes)
    requires sh.Valid() && AllSized(BlockBytes(s.blocks), sh.BlockSize())
    ensures var t := Step(sh, s, AppendScalar(x));
            Stream(t) == Stream(s) + x && AllSized(BlockBytes(t.blocks), sh.BlockSize())
  {
    var t := Step(sh, s, AppendScalar(x));
    if t.blocks != s.blocks {
      var b := Buffered(s.pending + x, []);
      FlatPush(s.blocks, b);
      assert BlockBytes(t.blocks) == BlockBytes(s.blocks) + [b.Bytes()];
      assert Stream(t) == Flat(BlockBytes(s.blocks)) + (s.pending + x);
    }
  }

  lemma {:induction false} StreamedBlocks(sh: Shape, xs: seq<bytes>)
    requires sh.Valid() && AllSized(xs, sh.size)
    ensures var s := Run(sh, EMPTY, Appends(xs));
            Stream(s) == Flat(xs) && AllSized(BlockBytes(s.blocks), sh.BlockSize())
  {
    if xs != [] {
      var front := xs[..|xs| - 1];
      StreamedBlocks(sh, front);
      assert Appends(xs)[..|xs| - 1] == Appends(front);
      StreamStep(sh, Run(sh, EMPTY, Appends(front)), xs[|xs| - 1]);
    }
  }

  lemma {:induction false} FlatPush(blocks: seq<Block>, b: Block)
    ensures Flat(BlockBytes(blocks + [b])) == Flat(BlockBytes(blocks)) + b.Bytes()
  {
    assert BlockBytes(blocks + [b])[..|blocks|] == BlockBytes(blocks);
  }

  function Fills(sh: Shape, k: nat): seq<bytes> {
    seq(k, i => sh.fill)
  }

  lemma {:induction false} FlatFills(sh: Shape, xs: seq<bytes>, k: nat)
    ensures Flat(xs + Fills(sh, k)) == Flat(xs) + Repeat(sh.fill, k)
  {
    if k == 0 {
      assert xs + Fills(sh, k) == xs;
    } else {
      FlatFills(sh, xs, k - 1);
      assert xs + Fills(sh, k) == xs + Fills(sh, k - 1) + [sh.fill];
      FlatLast(xs + Fills(sh, k - 1), sh.fill);
      hide Flat;
    }
  }

  lemma {:induction false} FlatLast(xs: seq<bytes>, x: bytes)
    ensures Flat(xs + [x]) == Flat(xs) + x
  {
    assert (xs + [x])[..|xs|] == xs;
  }

  /** Fill values up to the next chunk multiple: fewer than a chunk. */
  function PadCount(k: nat, n: nat): (p: nat)
    requires n > 0
    ensures p < n && (k + p) % n == 0
  {
    TimesDivModDef(k, n);
    if k % n == 0 then 0 else
      assert k + (n - k % n) == Times(k / n + 1, n);
      TimesDivMod(k / n + 1, 0, n);
      n - k % n
  }

  /** How many elements are in whole blocks and how many are buffered. */
  lemma {:induction false} StreamCounts(sh: Shape, xs: seq<bytes>) returns (n: nat)
    requires sh.Valid() && AllSized(xs, sh.size)
    ensures var s := Run(sh, EMPTY, Appends(xs));
            n < sh.N && |s.pending| == Times(n, sh.size) && |xs| == Times(|s.blocks|, sh.N) + n
  {
    var s := Run(sh, EMPTY, Appends(xs));
    StreamedBlocks(sh, xs);
    RunKeepsInv(sh, Appends(xs));
    n :| n < sh.N && |s.pending| == Times(n, sh.size);
    FlatLength(xs, sh.size);
    FlatLength(BlockBytes(s.blocks), sh.BlockSize());
    CountElements(|xs|, |s.blocks|, n, sh.N, sh.size);
  }

  lemma {:induction false} FlushStep(sh: Shape, s: State, n: nat)
    requires sh.Valid() && n < sh.N && |s.pending| == Times(n, sh.size)
    requires AllSized(BlockBytes(s.blocks), sh.BlockSize())
    ensures var t := Step(sh, s, Flush);
            && t.pending == [] && AllSized(BlockBytes(t.blocks), sh.BlockSize())
            && (n == 0 ==> t == s)
            && (n > 0 ==> Stream(t) == Stream(s) + Repeat(sh.fill, sh.N - n) && |t.blocks| == |s.blocks| + 1)
  {
    assert Times(0, sh.size) == 0;
    if n > 0 {
      TimesDivMod(n, 0, sh.size);
      var b := Buffered(s.pending, Repeat(sh.fill, sh.N - n));
      assert Step(sh, s, Flush).blocks == s.blocks + [b];
      FlatPush(s.blocks, b);
      TimesAdd(n, sh.N - n, sh.size);
      assert BlockBytes(s.blocks + [b]) == BlockBytes(s.blocks) + [b.Bytes()];
      assert Flat(BlockBytes(s.blocks)) + b.Bytes() == Stream(s) + Repeat(sh.fill, sh.N - n);
    }
  }

  /** The bytes of the blocks of a flushed stream, and how many blocks they make. */
  lemma {:induction false} FlushedBytes(sh: Shape, xs: seq<bytes>)
    requires sh.Valid() && AllSized(xs, sh.size)
    ensures var s := Run(sh, EMPTY, Appends(xs) + [Flush]); var p := PadCount(|xs|, sh.N);
            && s.pending == [] && AllSized(BlockBytes(s.blocks), sh.BlockSize())
            && |xs| + p == Times(|s.blocks|, sh.N)
            && Flat(BlockBytes(s.blocks)) == Flat(xs) + Repeat(sh.fill, p)
  {
    var acts := Appends(xs);
    assert (acts + [Flush])[..|acts|] == acts;
    var s := Run(sh, EMPTY, acts);
    var n := StreamCounts(sh, xs);
    StreamedBlocks(sh, xs);
    FlushStep(sh, s, n);
    TimesDivMod(|s.blocks|, n, sh.N);
    assert Times(|s.blocks| + 1, sh.N) == Times(|s.blocks|, sh.N) + sh.N;
    assert Repeat(sh.fill, 0) == [];
    assert Run(sh, EMPTY, acts + [Flush]) == Step(sh, s, Flush);
    hide Flat;
    hide Step;
    hide Run;
    hide Repeat;
    hide AllSized;
  }

  /** The blocks of a flushed stream are the stream and its padding, cut into chunks. */
  lemma {:induction false} FlushedStream(sh: Shape, xs: seq<bytes>)
    requires sh.Valid() && AllSized(xs, sh.size)
    ensures var s := Run(sh, EMPTY, Appends(xs) + [Flush]); var all := xs + Fills(sh, PadCount(|xs|, sh.N));
            && s.pending == [] && AllSized(BlockBytes(s.blocks), sh.BlockSize()) && |all| == Times(|s.blocks|, sh.N)
            && Cut(Flat(all), BlockBytes(s.blocks), sh.BlockSize()) && Cut(Flat(all), all, sh.size)
  {
    var p := PadCount(|xs|, sh.N);
    FlushedBytes(sh, xs);
    FlatFills(sh, xs, p);
    FlatCut(BlockBytes(Run(sh, EMPTY, Appends(xs) + [Flush]).blocks), sh.BlockSize());
    FlatCut(xs + Fills(sh, p), sh.size);
    hide Flat;
    hide Run;
    hide Repeat;
  }

  /** Byte counts determine element counts. */
  lemma {:induction false} CountElements(total: nat, blocks: nat, n: nat, N: nat, size: nat)
    requires size > 0 && Times(total, size) == Times(blocks, Times(N, size)) + Times(n, size)
    ensures total == Times(blocks, N) + n
  {
    TimesNest(blocks, N, size);
    TimesAdd(Times(blocks, N), n, size);
    TimesInjective(total, Times(blocks, N) + n, size);
  }

  lemma {:induction false} AppendsPush(sh: Shape, xs: seq<bytes>, x: bytes)
    requires sh.Valid()
    ensures Run(sh, EMPTY, Appends(xs + [x])) == Step(sh, Run(sh, EMPTY, Appends(xs)), AppendScalar(x))
  {
    assert Appends(xs + [x])[..|xs|] == Appends(xs);
  }

  /** The view and the packet table share no buffer and no dataset. */
  ghost predicate Apart(it: Iterator, pt: PacketTable)
    reads it, pt
  {
    it.pipeline != null ==>
      && it.pipeline.ds != pt.pipe.ds
      && {it.pipeline.chunk0, it.pipeline.chunk1} !! {pt.pipe.chunk0, pt.pipe.chunk1}
  }

  /** One iteration: the element under the iterator is appended. */
  method CopyOne(it: Iterator, pt: PacketTable, ghost xs: seq<bytes>, ghost x: bytes)
    requires it.Coherent() && it.offset < it.total && pt.Valid() && Apart(it, pt) && pt.elementSize == it.size
    requires |x| == it.size && it.Stored(it.offset) == x
    requires pt.state == Run(pt.TheShape(), EMPTY, Appends(xs))
    modifies it, it.pipeline.chunk0, it.pipeline.chunk1, pt, pt.pipe, pt.pipe.ds, pt.pipe.chunk0, pt.pipe.chunk1
    ensures pt.Valid() && pt.state == Run(pt.TheShape(), EMPTY, Appends(xs + [x]))
    ensures it.Coherent() && it.offset == old(it.offset) + 1
    ensures it.pipeline == old(it.pipeline) && it.total == old(it.total) && it.chunkN == old(it.chunkN)
  {
    AppendsPush(pt.TheShape(), xs, x);
    hide Run;
    hide Step;
    hide Appends;
    var tick := it.Deref();
    pt.Append(tick);
    it.Next();
  }

  /** `copied` elements of the source were appended, and the iterator is at the next one. */
  ghost predicate Copying(it: Iterator, pt: PacketTable, source: seq<bytes>, copied: nat)
    reads it, it.pipeline, if it.pipeline == null then {} else {it.pipeline.ds, it.pipeline.chunk0}
    reads pt, pt.pipe, pt.pipe.ds, pt.ptr
  {
    && it.Coherent() && it.pipeline != null && it.total == |source| && it.offset == copied <= |source|
    && (forall o :: 0 <= o < |source| ==> |source[o]| == it.size && source[o] == it.Stored(o))
    && pt.Valid() && pt.elementSize == it.size && Apart(it, pt)
    && pt.state == Run(pt.TheShape(), EMPTY, Appends(source[..copied]))
  }

  method CopyNext(it: Iterator, pt: PacketTable, ghost source: seq<bytes>, ghost copied: nat)
    requires Copying(it, pt, source, copied) && copied < |source|
    modifies it, it.pipeline.chunk0, it.pipeline.chunk1, pt, pt.pipe, pt.pipe.ds, pt.pipe.chunk0, pt.pipe.chunk1
    ensures it.pipeline == old(it.pipeline) && it.total == |source|
    ensures Copying(it, pt, source, copied + 1)
  {
    assert source[..copied + 1] == source[..copied] + [source[copied]];
    hide Run;
    hide Appends;
    CopyOne(it, pt, source[..copied], source[copied]);
  }

  /** The loop of the benchmark.  The alarm may go off before any iteration. */
  method CopyLoop(it: Iterator, pt: PacketTable, ghost source: seq<bytes>) returns (copied: nat, timedOut: bool)
    requires Copying(it, pt, source, 0)
    modifies it, it.pipeline.chunk0, it.pipeline.chunk1, pt, pt.pipe, pt.pipe.ds, pt.pipe.chunk0, pt.pipe.chunk1
    ensures pt.Valid() && copied <= |source| && (!timedOut ==> copied == |source|)
    ensures pt.state == Run(pt.TheShape(), EMPTY, Appends(source[..copied]))
  {
    hide Run;
    hide Appends;
    copied, timedOut := 0, false;
    while it.offset != it.total
      invariant it.pipeline == old(it.pipeline) && it.total == |source| && it.offset == copied <= |source| && !timedOut
      invariant Copying(it, pt, source, copied)
      decreases it.total - it.offset
    {
      var alarm: bool := *;
      if alarm {
        timedOut := true;
        break;
      }
      CopyNext(it, pt, source, copied);
      copied := copied + 1;
    }
  }

  /** The elements and the fill values behind them, up to the next chunk multiple. */
  function Padded(sh: Shape, xs: seq<bytes>): seq<bytes>
    requires sh.Valid()
  {
    xs + Fills(sh, PadCount(|xs|, sh.N))
  }

  /** What a flushed stream of scalars leaves on disk.  The chain is read back with its reverse
      filters; `Used` says what the writer put the chunks through. */
  lemma {:induction false} CopiedContents(sh: Shape, base: Chunks, first: nat, scratch: nat, before: seq<bytes>, xs: seq<bytes>)
    requires sh.Valid() && AllSized(xs, sh.size) && first % sh.N == 0
    requires LosslessChain(Used(sh.chain, sh.pooled), Times(sh.N, sh.size), scratch)
    requires Reads(base, sh.chain, first, sh.N, sh.size, scratch, before)
    ensures var blocks := Run(sh, EMPTY, Appends(xs) + [Flush]).blocks;
            Reads(StoreAll(base, sh.N, Jobs(Used(sh.chain, sh.pooled), first, sh.N, blocks)), sh.chain,
                  Offset(first, sh.N, |blocks|), sh.N, sh.size, scratch, before + Padded(sh, xs))
  {
    var chain, blocks := Used(sh.chain, sh.pooled), Run(sh, EMPTY, Appends(xs) + [Flush]).blocks;
    var all := Padded(sh, xs);
    FlushedStream(sh, xs);
    assert SameDecoders(sh.chain, chain) && SameDecoders(chain, sh.chain);
    hide *;
    ReadsAlike(base, sh.chain, chain, first, sh.N, sh.size, scratch, before);
    AppendedContents(base, chain, first, sh.N, sh.size, scratch, Flat(all), blocks, before, all);
    ReadsAlike(StoreAll(base, sh.N, Jobs(chain, first, sh.N, blocks)), chain, sh.chain,
               Offset(first, sh.N, |blocks|), sh.N, sh.size, scratch, before + all);
  }

  /** Flush after a stream of scalars. */
  method FlushStream(pt: PacketTable, ghost xs: seq<bytes>)
    requires pt.Valid() && pt.state == Run(pt.TheShape(), EMPTY, Appends(xs))
    modifies pt, pt.pipe, pt.pipe.ds, pt.pipe.chunk0, pt.pipe.chunk1
    ensures pt.Valid() && pt.pipe.inFlight == []
    ensures pt.state == Run(pt.TheShape(), EMPTY, Appends(xs) + [Flush])
    ensures pt.pipe.ds.chunks ==
            StoreAll(pt.pipe.base, pt.chunkDim, Jobs(pt.pipe.Effective(), pt.first, pt.chunkDim, pt.state.blocks))
    ensures pt.pipe.ds.extent == Offset(pt.first, pt.chunkDim, |pt.state.blocks|)
  {
    assert (Appends(xs) + [Flush])[..|xs|] == Appends(xs);
    hide StoreAll;
    hide Step;
    hide Offset;
    pt.FlushTable();
  }

  /** The whole benchmark: afterwards the output reads as what it held before, the copied prefix
      of the input, and fewer than a chunk of fill values. */
  method Copy(input: Dataset, inChain: Chain, size: nat, inScratch: nat, pt: PacketTable,
              ghost source: seq<bytes>, ghost before: seq<bytes>)
    returns (copied: nat, timedOut: bool)
    requires Reads(input.chunks, inChain, input.extent, input.rows, size, inScratch, source)
    requires pt.Valid() && pt.state == EMPTY && pt.elementSize == size && pt.pipe.ds != input
    requires pt.N == pt.chunkDim && pt.first % pt.N == 0
    requires LosslessChain(pt.pipe.Effective(), Times(pt.N, size), pt.ptr.Length)
    requires Reads(pt.pipe.base, pt.pipe.chain, pt.first, pt.N, size, pt.ptr.Length, before)
    modifies pt, pt.pipe, pt.pipe.ds, pt.pipe.chunk0, pt.pipe.chunk1
    ensures pt.Valid() && pt.pipe.inFlight == [] && copied <= |source| && (!timedOut ==> copied == |source|)
    ensures PadCount(copied, pt.N) < pt.N
    ensures Reads(pt.pipe.ds.chunks, pt.pipe.chain, pt.pipe.ds.extent, pt.N, size, pt.ptr.Length,
                  before + (source[..copied] + Fills(pt.TheShape(), PadCount(copied, pt.N))))
  {
    ghost var sh := pt.TheShape();
    assert Run(sh, EMPTY, Appends(source[..0])) == EMPTY;
    hide Run;
    hide LosslessChain;
    hide Readable;
    copied, timedOut := CopyAll(input, inChain, size, inScratch, pt, source);
    FlushStream(pt, source[..copied]);
    CopiedContents(sh, pt.pipe.base, pt.first, pt.ptr.Length, before, source[..copied]);
  }

  /** The range-for loop over a new view. */
  method CopyAll(input: Dataset, inChain: Chain, size: nat, inScratch: nat, pt: PacketTable, ghost source: seq<bytes>)
    returns (copied: nat, timedOut: bool)
    requires Reads(input.chunks, inChain, input.extent, input.rows, size, inScratch, source)
    requires pt.Valid() && pt.state == EMPTY && pt.elementSize == size && pt.pipe.ds != input
    modifies pt, pt.pipe, pt.pipe.ds, pt.pipe.chunk0, pt.pipe.chunk1
    ensures pt.Valid() && copied <= |source| && (!timedOut ==> copied == |source|)
    ensures pt.state == Run(pt.TheShape(), EMPTY, Appends(source[..copied]))
  {
    copied, timedOut := 0, false;
    assert Run(pt.TheShape(), EMPTY, Appends(source[..0])) == EMPTY;
    hide Run;
    var it := new Iterator(input, inChain, size, inScratch, 0, input.extent);
    if it.pipeline != null {
      copied, timedOut := CopyLoop(it, pt, source);
    }
  }
}
