/** The chunk pipelines of h5cpp: the synchronous `basic_pipeline_t`, whose filters ping-pong
    between two scratch buffers, and `pool_pipeline_t`, which snapshots a chunk, encodes it on
    a worker and writes finished chunks from the calling thread in submission order. */
module Pipeline {
  import opened Filters

  /** One H5Dwrite_chunk call. */
  datatype Job = Job(offset: nat, stored: Stored)

  type Chunks = map<nat, Stored>

  predicate Accepted(job: Job, rows: nat)
    requires rows > 0
  {
    job.offset % rows == 0 && job.stored.data != []
  }

  /** HDF5 rejects a chunk write whose offset is not on a chunk boundary or whose size is 0; the
      pipelines ignore the returned error, so nothing is stored. */
  function Store(m: Chunks, rows: nat, job: Job): Chunks
    requires rows > 0
  {
    if Accepted(job, rows) then m[job.offset := job.stored] else m
  }

  function StoreAll(m: Chunks, rows: nat, jobs: seq<Job>): Chunks
    requires rows > 0
    decreases |jobs|
  {
    if jobs == [] then m else StoreAll(Store(m, rows, jobs[0]), rows, jobs[1..])
  }

  lemma {:induction false} StoreAllConcat(m: Chunks, rows: nat, a: seq<Job>, b: seq<Job>)
    requires rows > 0
    ensures StoreAll(m, rows, a + b) == StoreAll(StoreAll(m, rows, a), rows, b)
    decreases |a|
  {
    if a == [] {
      assert a + b == b;
    } else {
      assert (a + b)[1..] == a[1..] + b;
      StoreAllConcat(Store(m, rows, a[0]), rows, a[1..], b);
    }
  }

  ghost predicate DistinctOffsets(jobs: seq<Job>) {
    forall i, j :: 0 <= i < j < |jobs| ==> jobs[i].offset != jobs[j].offset
  }

  /** What is found at o after chunks with different offsets were written. */
  ghost predicate FoundAt(r: Chunks, m: Chunks, rows: nat, jobs: seq<Job>, o: nat)
    requires rows > 0
  {
    && (forall job :: job in jobs && job.offset == o && Accepted(job, rows) ==> o in r && r[o] == job.stored)
    && ((forall job :: job in jobs && job.offset == o ==> !Accepted(job, rows)) ==>
          (o in r <==> o in m) && (o in r ==> r[o] == m[o]))
  }

  lemma {:induction false} StoredAt(m: Chunks, rows: nat, jobs: seq<Job>, o: nat)
    requires rows > 0 && DistinctOffsets(jobs)
    ensures FoundAt(StoreAll(m, rows, jobs), m, rows, jobs, o)
    decreases |jobs|
  {
    if jobs != [] {
      StoredAt(Store(m, rows, jobs[0]), rows, jobs[1..], o);
      assert jobs == [jobs[0]] + jobs[1..];
    }
  }

  /** With different offsets the order in which chunks reach the disk does not matter. */
  lemma {:induction false} OrderIrrelevant(m: Chunks, rows: nat, a: seq<Job>, b: seq<Job>)
    requires rows > 0 && DistinctOffsets(a) && multiset(a) == multiset(b)
    ensures StoreAll(m, rows, a) == StoreAll(m, rows, b)
  {
    PermutedOffsets(a, b);
    assert forall job :: job in a <==> job in multiset(a);
    assert forall job :: job in b <==> job in multiset(b);
    var x, y := StoreAll(m, rows, a), StoreAll(m, rows, b);
    forall o: nat ensures (o in x <==> o in y) && (o in x ==> x[o] == y[o]) {
      StoredAt(m, rows, a, o);
      StoredAt(m, rows, b, o);
    }
  }

  lemma {:induction false} PermutedOffsets(a: seq<Job>, b: seq<Job>)
    requires DistinctOffsets(a) && multiset(a) == multiset(b)
    ensures DistinctOffsets(b)
  {
    forall i, j | 0 <= i < j < |b| ensures b[i].offset != b[j].offset {
      if b[i].offset == b[j].offset {
        assert b[i] in multiset(a) && b[j] in multiset(a);
        assert b[i] == b[j];
        assert b == b[..i] + [b[i]] + b[i + 1..j] + [b[j]] + b[j + 1..];
        assert multiset(b)[b[i]] >= 2;
        OncePerOffset(a, b[i]);
      }
    }
  }

  lemma {:induction false} OncePerOffset(a: seq<Job>, job: Job)
    requires DistinctOffsets(a)
    ensures multiset(a)[job] <= 1
  {
    if a != [] {
      OncePerOffset(a[1..], job);
      assert a == [a[0]] + a[1..];
    }
  }

  // ----- the content of the chunk0 buffer after a write -----

  /** `x` copied over the front of `buffer`. */
  function Overlay(buffer: bytes, x: bytes): bytes {
    if |x| <= |buffer| then x + buffer[|x|..] else x[..|buffer|]
  }

  predicate Odd(j: nat) {
    j % 2 == 1
  }

  /** chunk0 after the first j filters of the ping-pong path: filter 1, 3, 5, ... write to it. */
  function PingPong(c: Chain, j: nat, cache: bytes, data: bytes): bytes
    requires j <= |c|
  {
    if j == 0 then cache
    else if !Odd(j) then Overlay(PingPong(c, j - 1, cache, data), Stage(c, j, data))
    else PingPong(c, j - 1, cache, data)
  }

  /** chunk0 after the first j filters of the in-place path: the copied chunk, then every filter. */
  function InPlace(c: Chain, j: nat, cache: bytes, data: bytes): bytes
    requires j <= |c|
  {
    if j == 0 then Overlay(cache, data)
    else Overlay(InPlace(c, j - 1, cache, data), Stage(c, j, data))
  }

  lemma {:induction false} InPlaceStep(c: Chain, j: nat, cache: bytes, data: bytes)
    requires j < |c|
    ensures InPlace(c, j + 1, cache, data) == Overlay(InPlace(c, j, cache, data), Stage(c, j + 1, data))
  {
    hide Overlay;
    hide Stage;
  }

  /** chunk0 after a chunk `data` has been written. */
  function CacheAfter(c: Chain, pooled: bool, cache: bytes, data: bytes): bytes {
    if pooled || |c| == 0 then cache
    else if AllInPlace(c) then InPlace(InOneBuffer(c), |c|, cache, data)
    else PingPong(c, |c|, cache, data)
  }

  /** The writer leaves chunk0 alone while it writes the chunk `data`: a worker does, and so does a
      chain without filters or one whose second, fourth, ... filters have nothing to put there. */
  predicate Spares(c: Chain, pooled: bool, data: bytes) {
    pooled || |c| == 0 || (!AllInPlace(c) && forall j :: 2 <= j <= |c| && !Odd(j) ==> Stage(c, j, data) == [])
  }

  lemma {:induction false} SparesSound(c: Chain, pooled: bool, cache: bytes, data: bytes)
    requires Spares(c, pooled, data)
    ensures CacheAfter(c, pooled, cache, data) == cache
  {
    if !pooled && |c| > 0 { PingPongSpares(c, |c|, cache, data); }
  }

  lemma {:induction false} PingPongSpares(c: Chain, j: nat, cache: bytes, data: bytes)
    requires j <= |c| && forall i :: 2 <= i <= |c| && !Odd(i) ==> Stage(c, i, data) == []
    ensures PingPong(c, j, cache, data) == cache
  {
    if j > 0 {
      PingPongSpares(c, j - 1, cache, data);
      assert !Odd(j) ==> Stage(c, j, data) == [];
    }
  }

  /** What any other write leaves in the first byte of chunk0 does not depend on what was there. */
  lemma {:induction false} FirstByteOverwritten(c: Chain, a: bytes, b: bytes, data: bytes)
    requires !Spares(c, false, data) && |a| == |b| > 0 && data != []
    ensures var x := CacheAfter(c, false, a, data); var y := CacheAfter(c, false, b, data);
            |x| == |y| == |a| && x[0] == y[0]
  {
    if AllInPlace(c) {
      InPlaceSameFirst(InOneBuffer(c), |c|, a, b, data);
    } else {
      var i :| 2 <= i <= |c| && !Odd(i) && Stage(c, i, data) != [];
      PingPongSameFirst(c, |c|, a, b, data, i);
    }
  }

  lemma {:induction false} InPlaceSameFirst(c: Chain, j: nat, a: bytes, b: bytes, data: bytes)
    requires j <= |c| && |a| == |b| > 0 && data != []
    ensures var x := InPlace(c, j, a, data); var y := InPlace(c, j, b, data);
            |x| == |y| == |a| && x[0] == y[0]
  {
    if j > 0 { InPlaceSameFirst(c, j - 1, a, b, data); }
  }

  lemma {:induction false} PingPongLength(c: Chain, j: nat, a: bytes, data: bytes)
    requires j <= |c|
    ensures |PingPong(c, j, a, data)| == |a|
  {
    if j > 0 { PingPongLength(c, j - 1, a, data); }
  }

  lemma {:induction false} PingPongSameFirst(c: Chain, j: nat, a: bytes, b: bytes, data: bytes, i: nat)
    requires 0 < i <= j <= |c| && !Odd(i) && Stage(c, i, data) != [] && |a| == |b| > 0
    ensures var x := PingPong(c, j, a, data); var y := PingPong(c, j, b, data);
            |x| == |y| == |a| && x[0] == y[0]
  {
    PingPongLength(c, j - 1, a, data);
    PingPongLength(c, j - 1, b, data);
    if i < j { PingPongSameFirst(c, j - 1, a, b, data, i); }
  }

  /** The cached elements survive the write of somebody else's chunk, whatever they are, exactly when
      that write spares chunk0. */
  lemma {:induction false} CacheSurvivesIff(c: Chain, pooled: bool, data: bytes, k: nat)
    requires k > 0 && data != []
    ensures Spares(c, pooled, data) <==>
            forall cache: bytes :: |cache| == k ==> CacheAfter(c, pooled, cache, data) == cache
  {
    if Spares(c, pooled, data) {
      forall cache: bytes | |cache| == k ensures CacheAfter(c, pooled, cache, data) == cache {
        SparesSound(c, pooled, cache, data);
      }
    } else {
      var a: bytes, b: bytes := seq(k, _ => 0), seq(k, _ => 1);
      FirstByteOverwritten(c, a, b, data);
      assert a[0] != b[0];
      assert CacheAfter(c, pooled, a, data) != a || CacheAfter(c, pooled, b, data) != b;
    }
  }

  /** The same on the pipeline's configuration alone, for every chunk that its second filter, if there
      are two buffers, does not refuse. */
  predicate LeavesCache(c: Chain, pooled: bool) {
    pooled || |c| == 0 || (|c| == 1 && !c[0].inPlace)
  }

  lemma {:induction false} SparesByConfiguration(c: Chain, pooled: bool, data: bytes)
    requires |c| >= 2 && !AllInPlace(c) ==> Stage(c, 2, data) != []
    ensures Spares(c, pooled, data) <==> LeavesCache(c, pooled)
  {
    if |c| >= 2 { assert !Odd(2); }
  }

  // ----- reading a stored chunk -----

  /** No step of undoing filters j-1, ..., 0 outgrows a scratch buffer. */
  predicate FitsBack(c: Chain, j: nat, data: bytes, mask: set<nat>, capacity: nat)
    requires j <= |c|
  {
    |data| <= capacity &&
    (j > 0 ==> FitsBack(c, j - 1, if j - 1 in mask then data else c[j - 1].decode(data), mask, capacity))
  }

  lemma {:induction false} OddAlternates(j: nat)
    requires j > 0
    ensures Odd(j - 1) <==> !Odd(j)
  {
  }

  lemma {:induction false} DecodeDone(c: Chain, data: bytes, mask: set<nat>)
    ensures DecodeFrom(c, 0, data, mask) == data
  {
  }

  lemma {:induction false} BackOneStage(c: Chain, j: nat, data: bytes, mask: set<nat>, capacity: nat)
    requires 0 < j <= |c| && FitsBack(c, j, data, mask, capacity)
    ensures var out := if j - 1 in mask then data else c[j - 1].decode(data);
            |out| <= capacity && FitsBack(c, j - 1, out, mask, capacity)
            && DecodeFrom(c, j - 1, out, mask) == DecodeFrom(c, j, data, mask)
  {
  }

  lemma {:induction false} LosslessFitsBack(c: Chain, j: nat, data: bytes, capacity: nat)
    requires j <= |c| && Lossless(c, data) && Fits(c, data, capacity)
    ensures FitsBack(c, j, Stage(c, j, data), {}, capacity)
  {
    if j > 0 {
      assert Restores(c[j - 1], Stage(c, j - 1, data));
      LosslessFitsBack(c, j - 1, data, capacity);
    }
  }

  /** A chunk that the last filter refuses never reaches the dataset. */
  lemma {:induction false} RefusedChunkIsNotStored(m: Chunks, rows: nat, c: Chain, offset: nat, data: bytes)
    requires rows > 0 && Stage(c, |c|, data) == []
    ensures Store(m, rows, Job(offset, Encode(c, data))) == m
  {
    EncodeFromStage(c, 0, data);
  }

  /** After a chunk write the dataset reads back as the chunk at that offset exactly if the offset is
      aligned and no filter refused anything, or if HDF5 rejected the write and what was there reads
      back as the same. */
  lemma {:induction false} StoredAndRestoredIff(m: Chunks, rows: nat, c: Chain, pooled: bool, offset: nat, data: bytes)
    requires rows > 0 && UndoesStages(Used(c, pooled), data) && data != []
    ensures var job := Job(offset, Encode(Used(c, pooled), data)); var r := Store(m, rows, job);
            offset in r && Decode(c, r[offset]) == data <==>
            || (offset % rows == 0 && NoneRefuses(Used(c, pooled), data))
            || (!Accepted(job, rows) && offset in m && Decode(c, m[offset]) == data)
  {
    var u := Used(c, pooled);
    UsedRestoredIff(c, pooled, data);
    EncodeFromStage(u, 0, data);
    if NoneRefuses(u, data) { assert Stage(u, |u|, data) != []; }
  }

  /** The HDF5 dataset: `rows` is the chunk length along the first dimension. */
  class Dataset {
    const rows: nat
    var extent: nat
    var chunks: Chunks

    constructor (rows: nat)
      ensures this.rows == rows && extent == 0 && chunks == map[]
    {
      this.rows := rows;
      extent := 0;
      chunks := map[];
    }

    method SetExtent(e: nat)
      modifies this`extent
      ensures extent == e
    {
      extent := e;
    }

    method WriteChunk(offset: nat, stored: Stored)
      requires rows > 0
      modifies this`chunks
      ensures chunks == Store(old(chunks), rows, Job(offset, stored))
    {
      if offset % rows == 0 && stored.data != [] {
        chunks := chunks[offset := stored];
      }
    }
  }

  class Pipe {
    const ds: Dataset
    const chain: Chain
    const blockSize: nat
    const cap: nat              // in-flight limit of the worker pool; 0 for the synchronous pipeline
    const chunk0: array<byte>
    const chunk1: array<byte>
    var inFlight: seq<Job>      // the deque of futures, front first
    ghost const base: Chunks    // the chunks of the dataset before the first write
    ghost var written: seq<Job> // what reached the dataset so far, oldest first

    /** Every chunk handed to the pipeline, oldest first. */
    ghost function Submitted(): seq<Job>
      reads this
    {
      written + inFlight
    }

    /** The functions the chunks pass through on their way to disk. */
    ghost function Effective(): Chain {
      Used(chain, cap > 0)
    }

    ghost predicate Valid()
      reads this, ds
    {
      && ds.rows > 0
      && chunk0 != chunk1 && chunk0.Length == chunk1.Length >= blockSize
      && (forall d: bytes :: |d| == blockSize ==> Fits(Effective(), d, chunk0.Length))
      && ds.chunks == StoreAll(base, ds.rows, written)
    }

    /** The producer never runs `cap` or more chunks ahead of the disk. */
    ghost predicate Bounded()
      reads this
    {
      if cap == 0 then inFlight == [] else |inFlight| < cap
    }

    constructor (ds: Dataset, chain: Chain, blockSize: nat, scratch: nat, cap: nat)
      requires ds.rows > 0 && scratch >= blockSize
      ensures (forall d: bytes :: |d| == blockSize ==> Fits(Used(chain, cap > 0), d, scratch)) ==> Valid() && Bounded()
      ensures fresh(chunk0) && fresh(chunk1) && chunk0 != chunk1 && chunk0.Length == chunk1.Length == scratch
      ensures this.ds == ds && this.chain == chain && this.blockSize == blockSize && this.cap == cap
      ensures written == [] && inFlight == [] && base == ds.chunks
    {
      this.ds := ds;
      this.chain := chain;
      this.blockSize := blockSize;
      this.cap := cap;
      chunk0 := new byte[scratch];
      chunk1 := new byte[scratch];
      inFlight, written, base := [], [], ds.chunks;
    }

    /** The first `length` bytes of a buffer, with `mask`, are the chunk after j filters;
        `shared`: each wrote over its input. */
    ghost predicate Staged(shared: bool, j: nat, data: bytes, buffer: bytes, length: nat, mask: set<nat>) {
      var c := if shared then InOneBuffer(chain) else chain;
      j <= |c| && length <= |buffer| && buffer[..length] == Stage(c, j, data) && mask == MaskAt(c, j, data)
    }

    /** filter[j](dst, src, length) and its mask bit; `dst` is `src` for an in-place filter. */
    method ApplyFilter(j: nat, dst: array<byte>, src: array<byte>, length: nat, mask: set<nat>, ghost data: bytes)
      returns (length': nat, mask': set<nat>)
      requires j < |chain| && Staged(dst == src, j, data, src[..], length, mask)
      requires |Stage(if dst == src then InOneBuffer(chain) else chain, j + 1, data)| <= dst.Length
      modifies dst
      ensures Staged(dst == src, j + 1, data, dst[..], length', mask')
      ensures dst[..] == Overlay(old(dst[..]), Stage(if dst == src then InOneBuffer(chain) else chain, j + 1, data))
    {
      assert src[..][..length] == src[..length];
      var out := if dst == src then chain[j].oneBuffer(src[..length]) else chain[j].encode(src[..length]);
      length' := |out|;
      forall i | 0 <= i < length' {
        dst[i] := out[i];
      }
      mask' := if length' == 0 then mask + {j} else mask;
    }

    lemma {:induction false} StagedAll(shared: bool, data: bytes, buffer: bytes, length: nat, mask: set<nat>)
      requires Staged(shared, |chain|, data, buffer, length, mask)
      ensures Stored(mask, buffer[..length]) == Encode(if shared then InOneBuffer(chain) else chain, data)
    {
      EncodeFromStage(if shared then InOneBuffer(chain) else chain, 0, data);
    }

    /** All filters may share one buffer: the chunk is copied to chunk0 and filtered there. */
    method FilterInPlace(src: array<byte>) returns (r: Stored)
      requires Valid() && AllInPlace(chain) && cap == 0 && src != chunk1 && src.Length >= blockSize
      modifies chunk0
      ensures r == Encode(InOneBuffer(chain), old(src[..blockSize]))
      ensures chunk0[..] == InPlace(InOneBuffer(chain), |chain|, old(chunk0[..]), old(src[..blockSize]))
    {
      hide InPlace;
      hide Overlay;
      hide Stage;
      hide MaskAt;
      hide InOneBuffer;
      ghost var data, cache := src[..blockSize], chunk0[..];
      assert Effective() == InOneBuffer(chain) && |data| == blockSize;
      assert Fits(Effective(), data, chunk0.Length);
      CopyIn(src);
      FirstStaged(cache, data);
      var length: nat, mask: set<nat> := blockSize, {};
      for j := 0 to |chain|
        invariant Staged(true, j, data, chunk0[..], length, mask)
        invariant chunk0[..] == InPlace(InOneBuffer(chain), j, cache, data)
      {
        assert |Stage(InOneBuffer(chain), j + 1, data)| <= chunk0.Length;
        length, mask := ApplyFilter(j, chunk0, chunk0, length, mask, data);
        InPlaceStep(InOneBuffer(chain), j, cache, data);
      }
      StagedAll(true, data, chunk0[..], length, mask);
      r := Stored(mask, chunk0[..][..length]);
    }

    /** memcpy(chunk0, src, blockSize) */
    method CopyIn(src: array<byte>)
      requires blockSize <= src.Length && blockSize <= chunk0.Length
      modifies chunk0
      ensures chunk0[..] == Overlay(old(chunk0[..]), old(src[..blockSize]))
    {
      forall i | 0 <= i < blockSize {
        chunk0[i] := src[i];
      }
    }

    lemma {:induction false} FirstStaged(cache: bytes, data: bytes)
      requires |data| <= |cache|
      ensures Staged(true, 0, data, Overlay(cache, data), |data|, {})
      ensures InPlace(InOneBuffer(chain), 0, cache, data) == Overlay(cache, data)
    {
    }

    /** The filters alternate between chunk1 and chunk0, starting from `src` into chunk1. */
    method FilterPingPong(src: array<byte>) returns (r: Stored)
      requires Valid() && Effective() == chain && |chain| > 0 && src != chunk1 && src.Length >= blockSize
      modifies chunk0, chunk1
      ensures r == Encode(chain, old(src[..blockSize]))
      ensures chunk0[..] == PingPong(chain, |chain|, old(chunk0[..]), old(src[..blockSize]))
    {
      ghost var data, cache := src[..blockSize], chunk0[..];
      assert Fits(chain, data, chunk0.Length);
      assert src[..][..blockSize] == src[..blockSize];
      assert |Stage(chain, 1, data)| <= chunk1.Length;
      var length: nat, mask: set<nat> := ApplyFilter(0, chunk1, src, blockSize, {}, data);
      var input, output := chunk0, chunk1;
      assert PingPong(chain, 0, cache, data) == cache;
      for j := 1 to |chain|
        invariant output == (if Odd(j) then chunk1 else chunk0)
        invariant input == (if Odd(j) then chunk0 else chunk1)
        invariant Staged(false, j, data, output[..], length, mask)
        invariant chunk0[..] == PingPong(chain, j, cache, data)
      {
        input, output := output, input;
        OddAlternates(j + 1);
        assert |Stage(chain, j + 1, data)| <= output.Length;
        length, mask := ApplyFilter(j, output, input, length, mask, data);
      }
      StagedAll(false, data, output[..], length, mask);
      r := Stored(mask, output[..][..length]);
    }

    /** The closure a worker runs on its own copy `raw` of the chunk. */
    method WorkerEncode(raw: array<byte>) returns (r: Stored)
      requires Valid() && Effective() == chain && raw.Length == blockSize
      ensures r == Encode(chain, raw[..])
    {
      ghost var data := raw[..];
      assert Fits(chain, data, chunk0.Length);
      if |chain| == 0 {
        return Stored({}, raw[..]);
      }
      var input, output := new byte[chunk0.Length], new byte[chunk0.Length];
      assert raw[..][..blockSize] == raw[..];
      assert |Stage(chain, 1, data)| <= input.Length;
      var length: nat, mask: set<nat> := ApplyFilter(0, input, raw, blockSize, {}, data);
      for j := 1 to |chain|
        invariant fresh(input) && fresh(output) && input != output
        invariant input.Length == output.Length == chunk0.Length
        invariant Staged(false, j, data, input[..], length, mask)
      {
        assert |Stage(chain, j + 1, data)| <= output.Length;
        length, mask := ApplyFilter(j, output, input, length, mask, data);
        input, output := output, input;
      }
      StagedAll(false, data, input[..], length, mask);
      r := Stored(mask, input[..][..length]);
    }

    /** Synchronous write of one chunk; `src` is the caller's buffer or chunk0 itself. */
    method BasicWrite(offset: nat, src: array<byte>)
      requires Valid() && cap == 0 && src != chunk1 && src.Length >= blockSize
      modifies this`written, ds`chunks, chunk0, chunk1
      ensures Valid() && written == old(written) + [Job(offset, Encode(Effective(), old(src[..blockSize])))]
      ensures chunk0[..] == CacheAfter(chain, false, old(chunk0[..]), old(src[..blockSize]))
    {
      var allInPlace := true;
      for i := 0 to |chain|
        invariant allInPlace && AllInPlace(chain[..i])
      {
        if !chain[i].inPlace {
          allInPlace := false;
          break;
        }
      }
      var stored: Stored;
      if |chain| == 0 {
        stored := Stored({}, src[..blockSize]);
      } else if allInPlace {
        stored := FilterInPlace(src);
      } else {
        stored := FilterPingPong(src);
      }
      Commit(Job(offset, stored));
    }

    /** Puts one chunk in the dataset. */
    method Commit(job: Job)
      requires Valid()
      modifies this`written, ds`chunks
      ensures Valid() && written == old(written) + [job]
    {
      StoreAllConcat(base, ds.rows, written, [job]);
      ds.WriteChunk(job.offset, job.stored);
      assert StoreAll(ds.chunks, ds.rows, []) == ds.chunks;
      written := written + [job];
    }

    /** Waits for the front future and writes its chunk. */
    method DrainFront()
      requires Valid() && inFlight != []
      modifies this`inFlight, this`written, ds`chunks
      ensures Valid() && inFlight == old(inFlight)[1..] && Submitted() == old(Submitted())
    {
      Commit(inFlight[0]);
      inFlight := inFlight[1..];
    }

    /** Writes finished chunks from the front; which futures are ready is up to the workers. */
    method DrainReady()
      requires Valid()
      modifies this`inFlight, this`written, ds`chunks
      ensures Valid() && |inFlight| <= old(|inFlight|) && Submitted() == old(Submitted())
    {
      while inFlight != []
        invariant Valid() && |inFlight| <= old(|inFlight|) && Submitted() == old(Submitted())
        decreases |inFlight|
      {
        var ready: bool := *;
        if !ready {
          break;
        }
        DrainFront();
      }
    }

    /** Blocks until no chunk is in flight. */
    method Drain()
      requires Valid()
      modifies this`inFlight, this`written, ds`chunks
      ensures Valid() && inFlight == [] && Submitted() == old(Submitted())
      ensures ds.chunks == StoreAll(base, ds.rows, Submitted())
    {
      while inFlight != []
        invariant Valid() && Submitted() == old(Submitted())
        decreases |inFlight|
      {
        DrainFront();
      }
      assert Submitted() == written;
    }

    method PoolWrite(offset: nat, src: array<byte>)
      requires Valid() && Bounded() && cap > 0 && src.Length >= blockSize
      modifies this`inFlight, this`written, ds`chunks
      ensures Valid() && Bounded()
      ensures Submitted() == old(Submitted()) + [Job(offset, Encode(Effective(), old(src[..blockSize])))]
    {
      ghost var data := src[..blockSize];
      var raw := new byte[blockSize];
      forall i | 0 <= i < blockSize {
        raw[i] := src[i];
      }
      assert raw[..] == data;
      var stored := WorkerEncode(raw);
      inFlight := inFlight + [Job(offset, stored)];
      assert Submitted() == old(Submitted()) + [Job(offset, stored)];
      DrainReady();
      while |inFlight| >= cap
        invariant Valid() && Submitted() == old(Submitted()) + [Job(offset, stored)]
        decreases |inFlight|
      {
        DrainFront();
      }
    }

    method WriteChunk(offset: nat, src: array<byte>)
      requires Valid() && Bounded() && src != chunk1 && src.Length >= blockSize
      modifies this`inFlight, this`written, ds`chunks, chunk0, chunk1
      ensures Valid() && Bounded()
      ensures Submitted() == old(Submitted()) + [Job(offset, Encode(Effective(), old(src[..blockSize])))]
      ensures chunk0[..] == CacheAfter(chain, cap > 0, old(chunk0[..]), old(src[..blockSize]))
    {
      if cap > 0 {
        PoolWrite(offset, src);
      } else {
        BasicWrite(offset, src);
        assert Submitted() == written;
      }
    }

    /** One reverse filter step from one buffer into the other. */
    method UndoFilter(k: nat, src: array<byte>, length: nat, dst: array<byte>, mask: set<nat>) returns (n: nat)
      requires k < |chain| && src != dst && length <= src.Length == dst.Length
      requires FitsBack(chain, k + 1, src[..length], mask, dst.Length)
      modifies dst
      ensures n <= dst.Length
      ensures dst[..n] == if k in mask then old(src[..length]) else chain[k].decode(old(src[..length]))
    {
      var out := if k in mask then src[..length] else chain[k].decode(src[..length]);
      n := |out|;
      forall i | 0 <= i < n {
        dst[i] := out[i];
      }
      assert dst[..n] == out;
    }

    /** Reads one chunk into the buffer from which |chain| swaps lead to chunk0. */
    method ReadChunk(offset: nat)
      requires chunk0 != chunk1 && chunk0.Length == chunk1.Length
      requires offset in ds.chunks
      requires FitsBack(chain, |chain|, ds.chunks[offset].data, ds.chunks[offset].mask, chunk0.Length)
      modifies chunk0, chunk1
      ensures var d := Decode(chain, ds.chunks[offset]);
              |d| <= chunk0.Length && chunk0[..|d|] == d
    {
      var stored := ds.chunks[offset];
      var src := if Odd(|chain|) then chunk1 else chunk0;
      forall i | 0 <= i < |stored.data| {
        src[i] := stored.data[i];
      }
      assert forall i :: 0 <= i < |stored.data| ==> src[i] == stored.data[i];
      assert src[..|stored.data|] == stored.data;
      UndoFilters(stored);
    }

    /** Whatever the number of filters, the result ends up in chunk0. */
    method UndoFilters(stored: Stored)
      requires chunk0 != chunk1 && chunk0.Length == chunk1.Length
      requires FitsBack(chain, |chain|, stored.data, stored.mask, chunk0.Length)
      requires (if Odd(|chain|) then chunk1 else chunk0)[..|stored.data|] == stored.data
      modifies chunk0, chunk1
      ensures var d := Decode(chain, stored); |d| <= chunk0.Length && chunk0[..|d|] == d
    {
      var src := if Odd(|chain|) then chunk1 else chunk0;
      var dst := if Odd(|chain|) then chunk0 else chunk1;
      var length: nat := |stored.data|;
      var j := |chain|;
      ghost var d := stored.data;
      assert length <= chunk0.Length;
      hide FitsBack;
      hide DecodeFrom;
      assert !Odd(0);
      hide Odd;
      while j > 0
        invariant 0 <= j <= |chain| && length <= chunk0.Length
        invariant src == (if Odd(j) then chunk1 else chunk0)
        invariant dst == (if Odd(j) then chunk0 else chunk1)
        invariant src[..length] == d && FitsBack(chain, j, d, stored.mask, chunk0.Length)
        invariant DecodeFrom(chain, j, d, stored.mask) == Decode(chain, stored)
      {
        BackOneStage(chain, j, d, stored.mask, chunk0.Length);
        d := if j - 1 in stored.mask then d else chain[j - 1].decode(d);
        OddAlternates(j);
        length := UndoFilter(j - 1, src, length, dst, stored.mask);
        src, dst := dst, src;
        j := j - 1;
      }
      DecodeDone(chain, d, stored.mask);
    }
  }
}
