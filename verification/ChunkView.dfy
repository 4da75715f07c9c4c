/** `h5::view`: an input iterator over a rank-1 chunked dataset that keeps one decoded chunk in
    its pipeline's buffer.  Copies of an iterator share the pipeline, hence the buffer. */
module ChunkView {
  import opened Arith
  import opened Filters
  import opened Pipeline

  /** First element of the chunk that holds element o. */
  function ChunkStart(o: nat, n: nat): nat
    requires n > 0
  {
    o / n * n
  }

  /** Every chunk below `total` is stored and decodes to n elements of `size` bytes. */
  ghost predicate Readable(m: Chunks, chain: Chain, total: nat, n: nat, size: nat, scratch: nat) {
    && n > 0 && size > 0 && Times(n, size) <= scratch
    && forall c {:trigger c in m} :: 0 <= c < total && c % n == 0 ==>
         && c in m && FitsBack(chain, |chain|, m[c].data, m[c].mask, scratch)
         && |Decode(chain, m[c])| == Times(n, size)
  }

  /** Element k of a chunk. */
  function Slot(chunk: bytes, k: nat, size: nat): (x: bytes)
    requires Times(k, size) + size <= |chunk|
    ensures |x| == size
  {
    chunk[Times(k, size)..Times(k, size) + size]
  }

  lemma {:induction false} ChunkStartBelow(o: nat, n: nat)
    requires n > 0
    ensures ChunkStart(o, n) == Times(o / n, n) && ChunkStart(o, n) % n == 0
    ensures o == ChunkStart(o, n) + o % n && o % n < n
  {
    TimesIsMul(o / n, n);
    TimesDivModDef(o, n);
    TimesDivMod(o / n, 0, n);
  }

  /** The element the dataset stores at index o. */
  ghost function Element(m: Chunks, chain: Chain, total: nat, n: nat, size: nat, scratch: nat, o: nat): (x: bytes)
    requires Readable(m, chain, total, n, size, scratch) && o < total
    ensures |x| == size
  {
    ChunkStartBelow(o, n);
    TimesLess(o % n, n, size);
    Slot(Decode(chain, m[ChunkStart(o, n)]), o % n, size)
  }

  /** The dataset can be read, and reads as xs. */
  ghost predicate Reads(m: Chunks, chain: Chain, total: nat, n: nat, size: nat, scratch: nat, xs: seq<bytes>) {
    && Readable(m, chain, total, n, size, scratch) && |xs| == total
    && forall o :: 0 <= o < total ==> xs[o] == Element(m, chain, total, n, size, scratch, o) && |xs[o]| == size
  }

  /** Incrementing past o enters another chunk that has to be loaded. */
  predicate Crosses(o: nat, total: nat, n: nat)
    requires n > 0
  {
    o + 1 < total && (o + 1) % n == 0
  }

  lemma {:induction false} StepWithinChunk(o: nat, n: nat)
    requires n > 0
    ensures (o + 1) % n != 0 ==> ChunkStart(o + 1, n) == ChunkStart(o, n) && (o + 1) % n == o % n + 1
    ensures (o + 1) % n == 0 ==> ChunkStart(o + 1, n) == o + 1 == ChunkStart(o, n) + n && o % n == n - 1
  {
    ChunkStartBelow(o, n);
    ChunkStartBelow(o + 1, n);
    var q, r := o / n, o % n;
    if r + 1 < n {
      TimesDivMod(q, r + 1, n);
    } else {
      assert Times(q + 1, n) == o + 1;
      TimesDivMod(q + 1, 0, n);
    }
  }

  /** Offsets of the chunks that hold the first k elements. */
  function ChunkStarts(k: nat, n: nat): seq<nat>
    requires n > 0
  {
    if k == 0 then [] else seq((k - 1) / n + 1, i requires 0 <= i => Times(i, n))
  }

  lemma {:induction false} ChunkStartsStep(k: nat, n: nat)
    requires n > 0 && k > 0
    ensures ChunkStarts(k + 1, n) == if k % n == 0 then ChunkStarts(k, n) + [k] else ChunkStarts(k, n)
  {
    TimesDivModDef(k, n);
    TimesDivModDef(k - 1, n);
    var q, r := (k - 1) / n, (k - 1) % n;
    if r + 1 < n {
      TimesDivMod(q, r + 1, n);
    } else {
      assert Times(q + 1, n) == k;
      TimesDivMod(q + 1, 0, n);
    }
  }

  lemma {:induction false} SlotOfPrefix(buffer: bytes, chunk: bytes, k: nat, n: nat, size: nat)
    requires k < n && Times(n, size) <= |buffer| && chunk == buffer[..Times(n, size)]
    ensures Times(k, size) + size <= |chunk| && Slot(buffer, k, size) == Slot(chunk, k, size)
  {
    TimesLess(k, n, size);
  }

  class Iterator {
    var pipeline: Pipe?
    var offset: nat
    var total: nat
    var chunkN: nat
    const size: nat            // sizeof(T)
    ghost var loads: seq<nat>  // offsets of the chunks this iterator loaded

    /** The dataset can be read through the pipeline. */
    ghost predicate Wired()
      reads this, pipeline, if pipeline == null then {} else {pipeline.ds}
    {
      && chunkN > 0
      && (offset < total ==> pipeline != null)
      && (pipeline != null ==>
            && pipeline.chunk0 != pipeline.chunk1 && pipeline.chunk0.Length == pipeline.chunk1.Length
            && Readable(pipeline.ds.chunks, pipeline.chain, total, chunkN, size, pipeline.chunk0.Length))
    }

    /** The buffer holds the chunk of the iterator's own offset. */
    ghost predicate Coherent()
      reads this, pipeline, if pipeline == null then {} else {pipeline.ds, pipeline.chunk0}
    {
      && Wired()
      && (offset < total ==>
            pipeline.chunk0[..Times(chunkN, size)] == Decode(pipeline.chain, TheChunk(offset)))
    }

    /** The state of a range-for loop over the view of `ds`. */
    ghost predicate Streams(ds: Dataset, chain: Chain, size: nat, scratch: nat)
      reads this, ds, pipeline, if pipeline == null then {} else {pipeline.ds, pipeline.chunk0}
    {
      && Coherent() && offset <= total && this.size == size
      && (total > 0 ==>
            && pipeline != null && chunkN == ds.rows && pipeline.ds == ds && pipeline.chain == chain
            && pipeline.chunk0.Length == scratch)
    }

    ghost function TheChunk(o: nat): Stored
      requires Wired() && o < total && offset < total
      reads this, pipeline, if pipeline == null then {} else {pipeline.ds}
    {
      ChunkStartBelow(o, chunkN);
      pipeline.ds.chunks[ChunkStart(o, chunkN)]
    }

    /** What the dataset stores at o. */
    ghost function Stored(o: nat): bytes
      requires Wired() && o < total && pipeline != null
      reads this, pipeline, if pipeline == null then {} else {pipeline.ds}
    {
      Element(pipeline.ds.chunks, pipeline.chain, total, chunkN, size, pipeline.chunk0.Length, o)
    }

    /** `total` is the extent of a rank-1 dataset, so its chunk length is the pipeline's element count. */
    constructor (ds: Dataset, chain: Chain, size: nat, scratch: nat, offset: nat, total: nat)
      requires Readable(ds.chunks, chain, total, ds.rows, size, scratch)
      ensures Coherent() && this.offset == offset && this.total == total && this.size == size
      ensures if offset >= total then pipeline == null && loads == []
              else && fresh(pipeline) && fresh(pipeline.chunk0) && fresh(pipeline.chunk1)
                   && pipeline.ds == ds && pipeline.chain == chain && pipeline.chunk0.Length == scratch
                   && chunkN == ds.rows && loads == [ChunkStart(offset, chunkN)]
    {
      this.offset, this.total, this.size := offset, total, size;
      chunkN, loads, pipeline := 1, [], null;
      new;
      if offset < total {
        TimesIsMul(ds.rows, size);
        pipeline := new Pipe(ds, chain, ds.rows * size, scratch, 0);
        chunkN := ds.rows;
        LoadChunk();
      }
    }

    /** Copy construction shares the pipeline. */
    constructor Copy(it: Iterator)
      ensures pipeline == it.pipeline && offset == it.offset && total == it.total
      ensures chunkN == it.chunkN && size == it.size && loads == it.loads
    {
      pipeline, offset, total, chunkN, size, loads :=
        it.pipeline, it.offset, it.total, it.chunkN, it.size, it.loads;
    }

    method LoadChunk()
      requires Wired() && offset < total
      modifies this`loads, pipeline.chunk0, pipeline.chunk1
      ensures Coherent() && loads == old(loads) + [ChunkStart(offset, chunkN)]
    {
      ChunkStartBelow(offset, chunkN);
      var chunkOffset := offset / chunkN * chunkN;
      pipeline.ReadChunk(chunkOffset);
      loads := loads + [chunkOffset];
    }

    /** operator*: whatever the buffer holds at this position of a chunk. */
    method Deref() returns (x: bytes)
      requires Wired() && offset < total
      ensures var k := offset % chunkN; var buffer := pipeline.chunk0[..];
              Times(k, size) + size <= |buffer| && x == Slot(buffer, k, size)
      ensures Coherent() ==> x == Stored(offset)
    {
      ChunkStartBelow(offset, chunkN);
      var k := offset % chunkN;
      TimesLess(k, chunkN, size);
      TimesIsMul(k, size);
      assert k * size + size <= Times(chunkN, size);
      x := pipeline.chunk0[k * size..k * size + size];
      PieceOfPiece(pipeline.chunk0[..], pipeline.chunk0[..Times(chunkN, size)], x, 0, Times(k, size));
    }

    /** operator++ */
    method Next()
      requires Wired() && offset < total
      modifies this, pipeline.chunk0, pipeline.chunk1
      ensures Wired() && offset == old(offset) + 1
      ensures pipeline == old(pipeline) && total == old(total) && chunkN == old(chunkN)
      ensures if Crosses(old(offset), total, chunkN)
              then Coherent() && loads == old(loads) + [offset]
              else loads == old(loads) && pipeline.chunk0[..] == old(pipeline.chunk0[..])
      ensures old(Coherent()) ==> Coherent()
    {
      StepWithinChunk(offset, chunkN);
      offset := offset + 1;
      if offset < total && offset % chunkN == 0 {
        LoadChunk();
      }
    }

    /** operator++(int): the returned copy looks into the buffer this iterator may just have refilled. */
    method PostNext() returns (tmp: Iterator)
      requires Coherent() && offset < total
      modifies this, pipeline.chunk0, pipeline.chunk1
      ensures Coherent() && offset == old(offset) + 1 && pipeline == old(pipeline) && total == old(total)
      ensures fresh(tmp) && tmp.pipeline == pipeline && tmp.offset == old(offset) && tmp.total == total
      ensures tmp.Wired() && tmp.chunkN == chunkN == old(chunkN) && tmp.size == size
      ensures !Crosses(old(offset), total, chunkN) ==> tmp.Coherent()
      ensures Crosses(old(offset), total, chunkN) ==>
                pipeline.chunk0[..Times(chunkN, size)] == Decode(pipeline.chain, tmp.TheChunk(offset))
    {
      tmp := new Iterator.Copy(this);
      Next();
    }

    /** `*it++`: past the end of a chunk that is not the last, it yields the last slot of the next one. */
    method DerefPostIncrement() returns (x: bytes)
      requires Coherent() && offset < total
      modifies this, pipeline.chunk0, pipeline.chunk1
      ensures Coherent() && offset == old(offset) + 1 && pipeline == old(pipeline) && total == old(total)
      ensures chunkN == old(chunkN)
      ensures !Crosses(old(offset), total, chunkN) ==> x == old(Stored(offset))
      ensures Crosses(old(offset), total, chunkN) ==>
                var next := Decode(pipeline.chain, TheChunk(offset));
                |next| == Times(chunkN, size) && x == Slot(next, chunkN - 1, size)
      ensures x == old(PostIncrementReads(pipeline.ds.chunks, pipeline.chain, total, chunkN, size, pipeline.chunk0.Length, offset))
    {
      hide PostIncrementReads;
      hide Element;
      hide Decode;
      hide Slot;
      ghost var m := pipeline.ds.chunks;
      StepWithinChunk(offset, chunkN);
      var tmp := PostNext();
      x := tmp.Deref();
      LateSlot(m, pipeline.chain, total, chunkN, size, tmp.offset, pipeline.chunk0[..], x);
    }
  }

  // ----- what `*it++` reads -----

  /** The element at o, or at the end of a chunk that is not the last, the last slot of the next one. */
  ghost function PostIncrementReads(m: Chunks, chain: Chain, total: nat, n: nat, size: nat, scratch: nat, o: nat): bytes
    requires Readable(m, chain, total, n, size, scratch) && o < total
  {
    if Crosses(o, total, n) then
      TimesLess(n - 1, n, size);
      Slot(Decode(chain, m[o + 1]), n - 1, size)
    else Element(m, chain, total, n, size, scratch, o)
  }

  /** What stands at o's place in a buffer that was refilled if the step from o crosses into a chunk. */
  lemma {:induction false} LateSlot(m: Chunks, chain: Chain, total: nat, n: nat, size: nat, o: nat, buffer: bytes, x: bytes)
    requires Readable(m, chain, total, n, size, |buffer|) && o < total
    requires Times(o % n, size) + size <= |buffer| && x == Slot(buffer, o % n, size)
    requires if Crosses(o, total, n) then buffer[..Times(n, size)] == Decode(chain, m[ChunkStart(o + 1, n)])
             else x == Element(m, chain, total, n, size, |buffer|, o)
    ensures x == PostIncrementReads(m, chain, total, n, size, |buffer|, o)
    ensures Crosses(o, total, n) ==>
              var next := Decode(chain, m[ChunkStart(o + 1, n)]);
              |next| == Times(n, size) && x == Slot(next, n - 1, size)
  {
    StepWithinChunk(o, n);
    hide Element;
    hide Decode;
    hide Slot;
    if Crosses(o, total, n) {
      SlotOfPrefix(buffer, buffer[..Times(n, size)], n - 1, n, size);
    }
  }

  /** An unfiltered dataset of zeros, but for the chunk at `ones`, which is all ones. */
  function OneOddChunk(total: nat, n: nat, size: nat, ones: nat): Chunks
    requires n > 0
  {
    map c: nat | 0 <= c < total && c % n == 0 :: Stored({}, seq(Times(n, size), _ => if c == ones then 1 else 0))
  }

  lemma {:induction false} OneOddChunkReadable(total: nat, n: nat, size: nat, ones: nat)
    requires n > 0 && size > 0
    ensures Readable(OneOddChunk(total, n, size, ones), [], total, n, size, Times(n, size))
  {
    var m := OneOddChunk(total, n, size, ones);
    forall c | 0 <= c < total && c % n == 0
      ensures c in m && FitsBack([], 0, m[c].data, m[c].mask, Times(n, size)) && |Decode([], m[c])| == Times(n, size)
    {
      assert Decode([], m[c]) == m[c].data;
    }
  }

  lemma {:induction false} PostIncrementMisreads(total: nat, n: nat, size: nat, o: nat)
    requires n > 0 && size > 0 && o < total && Crosses(o, total, n)
    ensures var m := OneOddChunk(total, n, size, o + 1);
            && Readable(m, [], total, n, size, Times(n, size))
            && PostIncrementReads(m, [], total, n, size, Times(n, size), o) != Element(m, [], total, n, size, Times(n, size), o)
  {
    var m, scratch := OneOddChunk(total, n, size, o + 1), Times(n, size);
    OneOddChunkReadable(total, n, size, o + 1);
    ChunkStartBelow(o, n);
    TimesLess(n - 1, n, size);
    TimesLess(o % n, n, size);
    assert Decode([], m[o + 1]) == m[o + 1].data;
    assert Decode([], m[ChunkStart(o, n)]) == m[ChunkStart(o, n)].data;
    assert PostIncrementReads(m, [], total, n, size, scratch, o)[0] == 1;
    assert Element(m, [], total, n, size, scratch, o)[0] == 0;
  }

  /** `*it++` reads the element at the iterator on every dataset exactly if it does not stand at the
      end of a chunk that is followed by another. */
  lemma {:induction false} PostIncrementIff(total: nat, n: nat, size: nat, o: nat)
    requires n > 0 && size > 0 && o < total
    ensures (forall m, chain, scratch :: Readable(m, chain, total, n, size, scratch) ==>
               PostIncrementReads(m, chain, total, n, size, scratch, o) == Element(m, chain, total, n, size, scratch, o))
        <==> !Crosses(o, total, n)
  {
    if Crosses(o, total, n) {
      PostIncrementMisreads(total, n, size, o);
    }
  }

  /** One round of a range-for loop: the element, and the chunk loads so far. */
  method Visit(it: Iterator, ds: Dataset, chain: Chain, size: nat, scratch: nat) returns (x: bytes)
    requires Readable(ds.chunks, chain, it.total, ds.rows, size, scratch)
    requires it.Streams(ds, chain, size, scratch) && it.offset < it.total
    requires it.loads == ChunkStarts(it.offset + 1, ds.rows)
    modifies it, it.pipeline.chunk0, it.pipeline.chunk1
    ensures it.Streams(ds, chain, size, scratch) && it.total == old(it.total) && it.offset == old(it.offset) + 1
    ensures it.pipeline == old(it.pipeline)
    ensures x == Element(ds.chunks, chain, it.total, ds.rows, size, scratch, old(it.offset))
    ensures it.loads == ChunkStarts(if it.offset < it.total then it.offset + 1 else it.total, ds.rows)
  {
    ChunkStartsStep(it.offset + 1, ds.rows);
    hide ChunkStarts;
    x := it.Deref();
    it.Next();
  }

  /** The elements up to the iterator were visited, and their chunks loaded. */
  ghost predicate Visited(it: Iterator, ds: Dataset, chain: Chain, size: nat, scratch: nat, xs: seq<bytes>)
    reads it, ds, it.pipeline, if it.pipeline == null then {} else {it.pipeline.ds, it.pipeline.chunk0}
  {
    && Readable(ds.chunks, chain, it.total, ds.rows, size, scratch) && it.Streams(ds, chain, size, scratch)
    && |xs| == it.offset
    && (forall o :: 0 <= o < |xs| ==> xs[o] == Element(ds.chunks, chain, it.total, ds.rows, size, scratch, o))
    && it.loads == ChunkStarts(if it.offset < it.total then it.offset + 1 else it.total, ds.rows)
  }

  method VisitNext(it: Iterator, ds: Dataset, chain: Chain, size: nat, scratch: nat, xs: seq<bytes>) returns (ys: seq<bytes>)
    requires Visited(it, ds, chain, size, scratch, xs) && it.offset < it.total
    modifies it, it.pipeline.chunk0, it.pipeline.chunk1
    ensures it.pipeline == old(it.pipeline) && it.total == old(it.total) && it.offset == old(it.offset) + 1
    ensures Visited(it, ds, chain, size, scratch, ys)
  {
    hide ChunkStarts;
    hide Element;
    var x := Visit(it, ds, chain, size, scratch);
    ys := xs + [x];
  }

  /** `for (auto x : h5::view<T>(ds))` */
  method Traverse(ds: Dataset, chain: Chain, size: nat, scratch: nat) returns (xs: seq<bytes>, ghost loads: seq<nat>)
    requires Readable(ds.chunks, chain, ds.extent, ds.rows, size, scratch)
    ensures Reads(ds.chunks, chain, ds.extent, ds.rows, size, scratch, xs)
    ensures loads == ChunkStarts(ds.extent, ds.rows)
  {
    var total := ds.extent;
    var it := new Iterator(ds, chain, size, scratch, 0, total);
    xs := [];
    assert total > 0 ==> it.loads == ChunkStarts(1, ds.rows);
    assert total == 0 ==> it.loads == ChunkStarts(0, ds.rows);
    assert Visited(it, ds, chain, size, scratch, xs);
    hide ChunkStarts;
    while it.offset != total
      invariant it.offset <= it.total == total && Visited(it, ds, chain, size, scratch, xs)
      invariant fresh(it) && (total > 0 ==> it.pipeline != null && fresh(it.pipeline.chunk0) && fresh(it.pipeline.chunk1))
      decreases total - it.offset
    {
      xs := VisitNext(it, ds, chain, size, scratch, xs);
    }
    loads := it.loads;
  }

  // ----- two iterators on one pipeline -----

  /** Positions of two iterators and the chunk in their common buffer. */
  datatype Pair = Pair(a: nat, b: nat, held: nat)

  /** An increment of the first (or the second) iterator; past the end there is none. */
  function Move(p: Pair, total: nat, n: nat, first: bool): Pair
    requires n > 0
  {
    var o := if first then p.a else p.b;
    if o >= total then p
    else
      var held := if Crosses(o, total, n) then o + 1 else p.held;
      if first then Pair(o + 1, p.b, held) else Pair(p.a, o + 1, held)
  }

  function Moves(p: Pair, total: nat, n: nat, moves: seq<bool>): Pair
    requires n > 0
  {
    if moves == [] then p else Move(Moves(p, total, n, moves[..|moves| - 1]), total, n, moves[|moves| - 1])
  }

  /** While both are inside the dataset, the buffer holds the chunk of one of them.  So a copy reads
      its own element as long as the other iterator is in the same chunk, and once it is not, only
      the one that entered its chunk last does. */
  lemma {:induction false} HeldByOne(o: nat, total: nat, n: nat, moves: seq<bool>)
    requires n > 0 && o < total
    ensures var p := Moves(Pair(o, o, ChunkStart(o, n)), total, n, moves);
            && o <= p.a <= total && o <= p.b <= total
            && (p.a < total && p.b < total ==> p.held == ChunkStart(p.a, n) || p.held == ChunkStart(p.b, n))
  {
    if moves != [] {
      HeldByOne(o, total, n, moves[..|moves| - 1]);
      var q := Moves(Pair(o, o, ChunkStart(o, n)), total, n, moves[..|moves| - 1]);
      StepWithinChunk(q.a, n);
      StepWithinChunk(q.b, n);
    }
  }

  /** Two iterators on one pipeline; each is coherent if the buffer holds its chunk. */
  ghost predicate Sharing(x: Iterator, y: Iterator, total: nat, n: nat, held: nat)
    reads x, y, x.pipeline, y.pipeline
    reads if x.pipeline == null then {} else {x.pipeline.ds, x.pipeline.chunk0}
    reads if y.pipeline == null then {} else {y.pipeline.ds, y.pipeline.chunk0}
  {
    && n > 0 && x != y && x.Wired() && y.Wired() && x.pipeline != null && x.pipeline == y.pipeline && x.size == y.size
    && x.total == y.total == total && x.chunkN == y.chunkN == n && x.offset <= total && y.offset <= total
    && (x.offset < total && ChunkStart(x.offset, n) == held ==> x.Coherent())
    && (y.offset < total && ChunkStart(y.offset, n) == held ==> y.Coherent())
  }

  method Advance(x: Iterator, y: Iterator, ghost total: nat, ghost n: nat, ghost held: nat)
    requires Sharing(x, y, total, n, held)
    modifies x, x.pipeline.chunk0, x.pipeline.chunk1
    ensures x.pipeline == old(x.pipeline)
    ensures var p := Move(Pair(old(x.offset), y.offset, held), total, n, true);
            x.offset == p.a && Sharing(x, y, total, n, p.held)
  {
    StepWithinChunk(x.offset, n);
    if x.offset < x.total { x.Next(); }
  }

  /** Any increments of an iterator and its copy, in any order. */
  method Interleave(a: Iterator, b: Iterator, moves: seq<bool>)
    requires a != b && a.Coherent() && a.offset == b.offset < a.total == b.total
    requires a.pipeline == b.pipeline && a.chunkN == b.chunkN && a.size == b.size
    modifies a, b, a.pipeline.chunk0, a.pipeline.chunk1
    ensures a.pipeline == b.pipeline == old(a.pipeline)
    ensures var n, total := old(a.chunkN), old(a.total);
            var p := Moves(Pair(old(a.offset), old(b.offset), ChunkStart(old(a.offset), n)), total, n, moves);
            && a.offset == p.a && b.offset == p.b && Sharing(a, b, total, n, p.held)
            && (a.offset < total && b.offset < total ==> a.Coherent() || b.Coherent())
  {
    ghost var o, n, total := a.offset, a.chunkN, a.total;
    ghost var start := Pair(o, o, ChunkStart(o, n));
    ghost var p := start;
    for i := 0 to |moves|
      invariant a.pipeline == b.pipeline == old(a.pipeline) && p == Moves(start, total, n, moves[..i])
      invariant a.offset == p.a && b.offset == p.b && Sharing(a, b, total, n, p.held)
    {
      assert moves[..i + 1][..i] == moves[..i];
      if moves[i] {
        Advance(a, b, total, n, p.held);
      } else {
        Advance(b, a, total, n, p.held);
      }
      p := Move(p, total, n, moves[i]);
    }
    assert moves[..|moves|] == moves;
    HeldByOne(o, total, n, moves);
  }

  /** A traversal loads ceil(total / n) chunks. */
  lemma {:induction false} LoadCount(total: nat, n: nat)
    requires n > 0
    ensures |ChunkStarts(total, n)| == (total + n - 1) / n
    ensures forall i, j :: 0 <= i < j < |ChunkStarts(total, n)| ==> ChunkStarts(total, n)[i] < ChunkStarts(total, n)[j]
  {
    if total > 0 {
      var q, r := (total - 1) / n, (total - 1) % n;
      TimesDivModDef(total - 1, n);
      TimesDivMod(q + 1, r, n);
    } else {
      TimesDivMod(0, n - 1, n);
    }
    forall i, j | 0 <= i < j < |ChunkStarts(total, n)| ensures ChunkStarts(total, n)[i] < ChunkStarts(total, n)[j] {
      TimesLess(i, j, n);
    }
  }
}
