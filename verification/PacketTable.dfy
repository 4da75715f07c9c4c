/** `h5::pt_t`: elements are buffered in the pipeline's chunk0 until a chunk is full; a chunk is
    written at the old extent and the extent grows by one chunk. */
module PacketTable {
  import opened Arith
  import opened Filters
  import opened Pipeline

  // ----- what a run does, stated on values -----

  /** Where a written block came from. */
  datatype Block = Buffered(data: bytes, pad: bytes) | Direct(chunk: bytes) {
    function Bytes(): bytes {
      match this
      case Buffered(data, pad) => data + pad
      case Direct(chunk) => chunk
    }
  }

  /** Blocks already handed to the pipeline, oldest first, and the buffered bytes. */
  datatype State = State(blocks: seq<Block>, pending: bytes)

  /** N elements of `size` bytes make a chunk. */
  datatype Shape = Shape(N: nat, size: nat, fill: bytes, chain: Chain, pooled: bool) {
    predicate Valid() {
      N > 0 && size > 0 && |fill| == size
    }

    function BlockSize(): nat {
      Times(N, size)
    }
  }

  datatype Action = AppendScalar(x: bytes) | AppendChunk(c: bytes) | Flush

  const EMPTY := State([], [])

  function Repeat(x: bytes, k: nat): (r: bytes)
    ensures |r| == Times(k, |x|)
  {
    if k == 0 then [] else Repeat(x, k - 1) + x
  }

  predicate Accepts(sh: Shape, a: Action) {
    match a
    case AppendScalar(x) => |x| == sh.size
    case AppendChunk(c) => |c| == sh.BlockSize()
    case Flush => true
  }

  function Step(sh: Shape, s: State, a: Action): State
    requires sh.Valid()
  {
    match a
    case AppendScalar(x) =>
      var p := s.pending + x;
      if |p| == sh.BlockSize() then State(s.blocks + [Buffered(p, [])], []) else s.(pending := p)
    case AppendChunk(c) =>
      State(s.blocks + [Direct(c)], CacheAfter(sh.chain, sh.pooled, s.pending, c))
    case Flush =>
      if s.pending == [] then s
      else State(s.blocks + [Buffered(s.pending, Padding(sh, s.pending))], [])
  }

  function Padding(sh: Shape, pending: bytes): bytes
    requires sh.Valid()
  {
    if |pending| / sh.size <= sh.N then Repeat(sh.fill, sh.N - |pending| / sh.size) else []
  }

  function Run(sh: Shape, s: State, acts: seq<Action>): State
    requires sh.Valid()
    decreases |acts|
  {
    if acts == [] then s else Step(sh, Run(sh, s, acts[..|acts| - 1]), acts[|acts| - 1])
  }

  ghost predicate AllAccepted(sh: Shape, acts: seq<Action>) {
    forall i :: 0 <= i < |acts| ==> Accepts(sh, acts[i])
  }

  /** Whole blocks, and fewer buffered elements than a chunk holds. */
  ghost predicate Inv(sh: Shape, s: State) {
    && (forall i :: 0 <= i < |s.blocks| ==> |s.blocks[i].Bytes()| == sh.BlockSize())
    && exists n: nat :: n < sh.N && |s.pending| == Times(n, sh.size)
  }

  /** The first k bytes of chunk0 after a write depend on the first k bytes before it only. */
  lemma {:induction false} CacheAfterTake(c: Chain, pooled: bool, cache: bytes, data: bytes, k: nat)
    requires k <= |cache|
    ensures |CacheAfter(c, pooled, cache, data)| == |cache|
    ensures CacheAfter(c, pooled, cache, data)[..k] == CacheAfter(c, pooled, cache[..k], data)
  {
    InPlaceTake(InOneBuffer(c), |c|, cache, data, k);
    PingPongTake(c, |c|, cache, data, k);
  }

  lemma {:induction false} InPlaceTake(c: Chain, j: nat, cache: bytes, data: bytes, k: nat)
    requires j <= |c| && k <= |cache|
    ensures |InPlace(c, j, cache, data)| == |cache|
    ensures InPlace(c, j, cache, data)[..k] == InPlace(c, j, cache[..k], data)
  {
    if j > 0 { InPlaceTake(c, j - 1, cache, data, k); }
  }

  lemma {:induction false} PingPongTake(c: Chain, j: nat, cache: bytes, data: bytes, k: nat)
    requires j <= |c| && k <= |cache|
    ensures |PingPong(c, j, cache, data)| == |cache|
    ensures PingPong(c, j, cache, data)[..k] == PingPong(c, j, cache[..k], data)
  {
    if j > 0 { PingPongTake(c, j - 1, cache, data, k); }
  }

  lemma {:induction false} StepKeepsInv(sh: Shape, s: State, a: Action)
    requires sh.Valid() && Inv(sh, s) && Accepts(sh, a)
    ensures Inv(sh, Step(sh, s, a))
  {
    hide CacheAfter;
    var n: nat :| n < sh.N && |s.pending| == Times(n, sh.size);
    match a
    case AppendScalar(x) =>
      assert |s.pending + x| == Times(n + 1, sh.size);
      if n + 1 < sh.N { TimesLess(n + 1, sh.N, sh.size); }
      assert Times(0, sh.size) == 0;
    case AppendChunk(c) =>
      CacheAfterTake(sh.chain, sh.pooled, s.pending, c, 0);
    case Flush =>
      TimesDivMod(n, 0, sh.size);
      TimesAdd(n, sh.N - n, sh.size);
      assert Times(0, sh.size) == 0;
  }

  lemma {:induction false} RunKeepsInv(sh: Shape, acts: seq<Action>)
    requires sh.Valid() && AllAccepted(sh, acts)
    ensures Inv(sh, Run(sh, EMPTY, acts))
  {
    if acts == [] {
      assert Times(0, sh.size) == 0;
    } else {
      RunKeepsInv(sh, acts[..|acts| - 1]);
      StepKeepsInv(sh, Run(sh, EMPTY, acts[..|acts| - 1]), acts[|acts| - 1]);
    }
  }

  // ----- conservation: every element lands exactly once, in order -----

  function Scalars(acts: seq<Action>): bytes {
    if acts == [] then []
    else Scalars(acts[..|acts| - 1]) +
         match acts[|acts| - 1] case AppendScalar(x) => x case _ => []
  }

  function Chunks(acts: seq<Action>): seq<bytes> {
    if acts == [] then []
    else Chunks(acts[..|acts| - 1]) +
         match acts[|acts| - 1] case AppendChunk(c) => [c] case _ => []
  }

  function BufferedBytes(blocks: seq<Block>): bytes {
    if blocks == [] then []
    else BufferedBytes(blocks[..|blocks| - 1]) +
         match blocks[|blocks| - 1] case Buffered(data, _) => data case Direct(_) => []
  }

  function DirectChunks(blocks: seq<Block>): seq<bytes> {
    if blocks == [] then []
    else DirectChunks(blocks[..|blocks| - 1]) +
         match blocks[|blocks| - 1] case Buffered(_, _) => [] case Direct(c) => [c]
  }

  /** No pointer append meets buffered elements unless writing its chunk leaves chunk0 alone. */
  ghost predicate Safe(sh: Shape, acts: seq<Action>)
    requires sh.Valid()
  {
    forall i :: 0 <= i < |acts| && acts[i].AppendChunk? ==>
      Spares(sh.chain, sh.pooled, acts[i].c) || Run(sh, EMPTY, acts[..i]).pending == []
  }

  lemma {:induction false} SafePrefix(sh: Shape, acts: seq<Action>)
    requires sh.Valid() && acts != [] && Safe(sh, acts)
    ensures Safe(sh, acts[..|acts| - 1])
    ensures acts[|acts| - 1].AppendChunk? ==>
              Spares(sh.chain, sh.pooled, acts[|acts| - 1].c) || Run(sh, EMPTY, acts[..|acts| - 1]).pending == []
  {
    var front := acts[..|acts| - 1];
    forall i | 0 <= i < |front| && front[i].AppendChunk?
      ensures Spares(sh.chain, sh.pooled, front[i].c) || Run(sh, EMPTY, front[..i]).pending == []
    {
      assert front[..i] == acts[..i];
    }
  }

  lemma {:induction false} StepConserves(sh: Shape, s: State, a: Action)
    requires sh.Valid()
    requires a.AppendChunk? ==> Spares(sh.chain, sh.pooled, a.c) || s.pending == []
    ensures var t := Step(sh, s, a);
            && BufferedBytes(t.blocks) + t.pending ==
               BufferedBytes(s.blocks) + s.pending + (if a.AppendScalar? then a.x else [])
            && DirectChunks(t.blocks) == DirectChunks(s.blocks) + if a.AppendChunk? then [a.c] else []
  {
    var t := Step(sh, s, a);
    if t.blocks != s.blocks {
      assert t.blocks[..|t.blocks| - 1] == s.blocks;
    }
    if a.AppendChunk? {
      if Spares(sh.chain, sh.pooled, a.c) {
        SparesSound(sh.chain, sh.pooled, s.pending, a.c);
      } else {
        CacheAfterTake(sh.chain, sh.pooled, s.pending, a.c, 0);
      }
    }
  }

  /** Scalars land in the order they were appended, those still buffered last; pointer chunks
      land in their own order; nothing else is written but fill values. */
  lemma {:induction false} Conservation(sh: Shape, acts: seq<Action>)
    requires sh.Valid() && Safe(sh, acts)
    ensures var s := Run(sh, EMPTY, acts);
            BufferedBytes(s.blocks) + s.pending == Scalars(acts) && DirectChunks(s.blocks) == Chunks(acts)
  {
    if acts != [] {
      SafePrefix(sh, acts);
      Conservation(sh, acts[..|acts| - 1]);
      StepConserves(sh, Run(sh, EMPTY, acts[..|acts| - 1]), acts[|acts| - 1]);
    }
  }

  // ----- outside the safe case -----

  /** Everything appended so far is on its way to disk or pending, in order. */
  ghost predicate Conserved(sh: Shape, acts: seq<Action>)
    requires sh.Valid()
  {
    var s := Run(sh, EMPTY, acts);
    BufferedBytes(s.blocks) + s.pending == Scalars(acts) && DirectChunks(s.blocks) == Chunks(acts)
  }

  /** The same calls with the same chunks, on other scalars. */
  ghost predicate SameCalls(a: seq<Action>, b: seq<Action>) {
    |a| == |b| && forall i :: 0 <= i < |a| ==> a[i] == b[i] || (a[i].AppendScalar? && b[i].AppendScalar?)
  }

  function WithScalars(acts: seq<Action>, x: bytes): (r: seq<Action>)
    ensures |r| == |acts|
  {
    seq(|acts|, i requires 0 <= i < |acts| => if acts[i].AppendScalar? then AppendScalar(x) else acts[i])
  }

  /** How much is pending depends on the calls only. */
  lemma {:induction false} SamePending(sh: Shape, a: seq<Action>, b: seq<Action>)
    requires sh.Valid() && SameCalls(a, b) && AllAccepted(sh, a) && AllAccepted(sh, b)
    ensures |Run(sh, EMPTY, a).pending| == |Run(sh, EMPTY, b).pending|
  {
    if a != [] {
      SamePending(sh, a[..|a| - 1], b[..|b| - 1]);
      var s, t := Run(sh, EMPTY, a[..|a| - 1]), Run(sh, EMPTY, b[..|b| - 1]);
      var x, y := a[|a| - 1], b[|b| - 1];
      if x.AppendChunk? {
        CacheAfterTake(sh.chain, sh.pooled, s.pending, x.c, 0);
        CacheAfterTake(sh.chain, sh.pooled, t.pending, x.c, 0);
      }
    }
  }

  /** Scalars that are all the same byte leave only that byte behind. */
  lemma {:induction false} UniformScalars(acts: seq<Action>, x: bytes, v: byte)
    requires forall k :: 0 <= k < |x| ==> x[k] == v
    requires forall i :: 0 <= i < |acts| && acts[i].AppendScalar? ==> acts[i].x == x
    ensures forall k :: 0 <= k < |Scalars(acts)| ==> Scalars(acts)[k] == v
  {
    if acts != [] { UniformScalars(acts[..|acts| - 1], x, v); }
  }

  lemma {:induction false} PendingIsUniform(sh: Shape, acts: seq<Action>, x: bytes, v: byte)
    requires sh.Valid() && Conserved(sh, acts)
    requires forall k :: 0 <= k < |x| ==> x[k] == v
    requires forall i :: 0 <= i < |acts| && acts[i].AppendScalar? ==> acts[i].x == x
    ensures forall k :: 0 <= k < |Run(sh, EMPTY, acts).pending| ==> Run(sh, EMPTY, acts).pending[k] == v
  {
    UniformScalars(acts, x, v);
    var s := Run(sh, EMPTY, acts);
    var front := BufferedBytes(s.blocks);
    forall k | 0 <= k < |s.pending| ensures s.pending[k] == v {
      assert s.pending[k] == (front + s.pending)[|front| + k];
    }
  }

  lemma {:induction false} SameTail(x: bytes, y: bytes, z: bytes)
    requires x + y == x + z
    ensures y == z
  {
    assert (x + y)[|x|..] == y && (x + z)[|x|..] == z;
  }

  /** What a pointer append does to the books: nothing, except for the pending bytes. */
  lemma {:induction false} AfterChunk(sh: Shape, acts: seq<Action>, c: bytes)
    requires sh.Valid()
    ensures var s := Run(sh, EMPTY, acts); var t := Run(sh, EMPTY, acts + [AppendChunk(c)]);
            && BufferedBytes(t.blocks) == BufferedBytes(s.blocks)
            && t.pending == CacheAfter(sh.chain, sh.pooled, s.pending, c)
            && Scalars(acts + [AppendChunk(c)]) == Scalars(acts)
  {
    var all := acts + [AppendChunk(c)];
    assert all[..|acts|] == acts;
    var s, t := Run(sh, EMPTY, acts), Run(sh, EMPTY, all);
    assert t == Step(sh, s, AppendChunk(c));
    assert t.blocks[..|s.blocks|] == s.blocks;
    hide CacheAfter;
    hide Run;
  }

  /** If nothing is lost across a pointer append, it left the pending bytes alone. */
  lemma {:induction false} ConservedPending(sh: Shape, acts: seq<Action>, c: bytes)
    requires sh.Valid() && Conserved(sh, acts) && Conserved(sh, acts + [AppendChunk(c)])
    ensures var p := Run(sh, EMPTY, acts).pending; CacheAfter(sh.chain, sh.pooled, p, c) == p
  {
    var s, t := Run(sh, EMPTY, acts), Run(sh, EMPTY, acts + [AppendChunk(c)]);
    AfterChunk(sh, acts, c);
    hide Run;
    hide BufferedBytes;
    hide CacheAfter;
    hide Scalars;
    SameTail(BufferedBytes(s.blocks), s.pending, t.pending);
  }

  lemma {:induction false} WithScalarsAccepted(sh: Shape, acts: seq<Action>, x: bytes)
    requires AllAccepted(sh, acts) && |x| == sh.size
    ensures SameCalls(acts, WithScalars(acts, x)) && AllAccepted(sh, WithScalars(acts, x))
    ensures forall i :: 0 <= i < |acts| && WithScalars(acts, x)[i].AppendScalar? ==> WithScalars(acts, x)[i].x == x
  {
  }

  /** A pointer append while anything is pending, through a chain that writes to chunk0, loses
      data for all scalars 0 or for all scalars 1. */
  lemma {:induction false} UnsafeAppendLoses(sh: Shape, acts: seq<Action>, c: bytes, zeros: bytes, ones: bytes)
    requires sh.Valid() && AllAccepted(sh, acts) && Accepts(sh, AppendChunk(c)) && c != []
    requires !Spares(sh.chain, sh.pooled, c) && Run(sh, EMPTY, acts).pending != []
    requires |zeros| == |ones| == sh.size
    requires forall k :: 0 <= k < sh.size ==> zeros[k] == 0 && ones[k] == 1
    ensures exists x: bytes :: (x == zeros || x == ones) &&
              !(Conserved(sh, WithScalars(acts, x)) && Conserved(sh, WithScalars(acts, x) + [AppendChunk(c)]))
  {
    var a, b := WithScalars(acts, zeros), WithScalars(acts, ones);
    WithScalarsAccepted(sh, acts, zeros);
    WithScalarsAccepted(sh, acts, ones);
    hide Run;
    hide WithScalars;
    hide Conserved;
    hide CacheAfter;
    if Conserved(sh, a) && Conserved(sh, a + [AppendChunk(c)]) && Conserved(sh, b) && Conserved(sh, b + [AppendChunk(c)]) {
      SamePending(sh, acts, a);
      SamePending(sh, acts, b);
      assert |Run(sh, EMPTY, a).pending| == |Run(sh, EMPTY, b).pending| > 0;
      PendingIsUniform(sh, a, zeros, 0);
      PendingIsUniform(sh, b, ones, 1);
      ConservedPending(sh, a, c);
      ConservedPending(sh, b, c);
      FirstByteOverwritten(sh.chain, Run(sh, EMPTY, a).pending, Run(sh, EMPTY, b).pending, c);
      assert false;
    }
    assert zeros == zeros && ones == ones;
  }

  /** A sequence of calls conserves every scalar at every moment, whatever the scalars are, exactly
      if it is safe. */
  lemma {:induction false} ConservedIff(sh: Shape, acts: seq<Action>)
    requires sh.Valid() && AllAccepted(sh, acts)
    ensures Safe(sh, acts) <==>
            forall b, k :: SameCalls(acts, b) && AllAccepted(sh, b) && 0 <= k <= |b| ==> Conserved(sh, b[..k])
  {
    hide Run;
    hide AllAccepted;
    if Safe(sh, acts) {
      forall b, k | SameCalls(acts, b) && AllAccepted(sh, b) && 0 <= k <= |b| ensures Conserved(sh, b[..k]) {
        SafeCalls(sh, acts, b);
        SafeUpTo(sh, b, k);
        Conservation(sh, b[..k]);
      }
    } else {
      UnsafeLoses(sh, acts);
    }
  }

  lemma {:induction false} UnsafeLoses(sh: Shape, acts: seq<Action>)
    requires sh.Valid() && AllAccepted(sh, acts) && !Safe(sh, acts)
    ensures exists b, k :: SameCalls(acts, b) && AllAccepted(sh, b) && 0 <= k <= |b| && !Conserved(sh, b[..k])
  {
    var i :| 0 <= i < |acts| && acts[i].AppendChunk? && !Spares(sh.chain, sh.pooled, acts[i].c)
          && Run(sh, EMPTY, acts[..i]).pending != [];
    UnsafeAt(sh, acts, i);
  }

  lemma {:induction false} UnsafeAt(sh: Shape, acts: seq<Action>, i: nat)
    requires sh.Valid() && AllAccepted(sh, acts)
    requires i < |acts| && acts[i].AppendChunk? && !Spares(sh.chain, sh.pooled, acts[i].c) && Run(sh, EMPTY, acts[..i]).pending != []
    ensures exists b, k :: SameCalls(acts, b) && AllAccepted(sh, b) && 0 <= k <= |b| && !Conserved(sh, b[..k])
  {
    var zeros: bytes, ones: bytes := seq(sh.size, _ => 0), seq(sh.size, _ => 1);
    assert Accepts(sh, acts[i]);
    TimesLess(0, sh.N, sh.size);
    UnsafeAppendLoses(sh, acts[..i], acts[i].c, zeros, ones);
    hide Conserved;
    hide Run;
    hide Spares;
    var x: bytes :| (x == zeros || x == ones) &&
      !(Conserved(sh, WithScalars(acts[..i], x)) && Conserved(sh, WithScalars(acts[..i], x) + [AppendChunk(acts[i].c)]));
    var b := WithScalars(acts, x);
    WithScalarsUpTo(acts, x, i);
    WithScalarsAccepted(sh, acts, x);
    hide WithScalars;
    hide SameCalls;
    hide AllAccepted;
    assert !Conserved(sh, b[..i]) || !Conserved(sh, b[..i + 1]);
  }

  lemma {:induction false} WithScalarsUpTo(acts: seq<Action>, x: bytes, i: nat)
    requires i < |acts| && acts[i].AppendChunk?
    ensures WithScalars(acts, x)[..i] == WithScalars(acts[..i], x)
    ensures WithScalars(acts, x)[..i + 1] == WithScalars(acts[..i], x) + [AppendChunk(acts[i].c)]
  {
  }

  lemma {:induction false} SafeCalls(sh: Shape, a: seq<Action>, b: seq<Action>)
    requires sh.Valid() && SameCalls(a, b) && AllAccepted(sh, a) && AllAccepted(sh, b) && Safe(sh, a)
    ensures Safe(sh, b)
  {
    forall i | 0 <= i < |b| && b[i].AppendChunk?
      ensures Spares(sh.chain, sh.pooled, b[i].c) || Run(sh, EMPTY, b[..i]).pending == []
    {
      assert a[i] == b[i];
      SamePending(sh, a[..i], b[..i]);
    }
  }

  lemma {:induction false} SafeUpTo(sh: Shape, acts: seq<Action>, k: nat)
    requires sh.Valid() && Safe(sh, acts) && k <= |acts|
    ensures Safe(sh, acts[..k])
    decreases |acts|
  {
    if k < |acts| {
      SafePrefix(sh, acts);
      SafeUpTo(sh, acts[..|acts| - 1], k);
      assert acts[..|acts| - 1][..k] == acts[..k];
    } else {
      assert acts[..k] == acts;
    }
  }

  /** The smallest case: one pending element, one chunk. */
  lemma {:induction false} UnsafeAppendLosesAnElement(sh: Shape, c: bytes)
    requires sh.Valid() && sh.N > 1 && Accepts(sh, AppendChunk(c)) && !Spares(sh.chain, sh.pooled, c)
    ensures exists x: bytes :: |x| == sh.size &&
              Run(sh, EMPTY, [AppendScalar(x), AppendChunk(c)]).pending != x
  {
    TimesLess(1, sh.N, sh.size);
    assert Times(1, sh.size) == sh.size;
    CacheSurvivesIff(sh.chain, sh.pooled, c, sh.size);
    var x: bytes :| |x| == sh.size && CacheAfter(sh.chain, sh.pooled, x, c) != x;
    var acts := [AppendScalar(x), AppendChunk(c)];
    assert acts[..1] == [AppendScalar(x)];
    assert acts[..1][..0] == [];
    assert Run(sh, EMPTY, acts[..1]) == Step(sh, Run(sh, EMPTY, []), AppendScalar(x));
    assert EMPTY.pending + x == x;
  }

  ghost predicate PaddedByFlush(sh: Shape, acts: seq<Action>, b: Block) {
    b.Buffered? && b.pad != [] ==> Flush in acts && exists k: nat :: 0 < k < sh.N && b.pad == Repeat(sh.fill, k)
  }

  /** Only a flush pads, and it pads with whole fill values, fewer than a chunk of them. */
  lemma {:induction false} OnlyFlushPads(sh: Shape, acts: seq<Action>)
    requires sh.Valid() && AllAccepted(sh, acts)
    ensures forall i :: 0 <= i < |Run(sh, EMPTY, acts).blocks| ==>
              PaddedByFlush(sh, acts, Run(sh, EMPTY, acts).blocks[i])
  {
    if acts != [] {
      var front, a := acts[..|acts| - 1], acts[|acts| - 1];
      OnlyFlushPads(sh, front);
      RunKeepsInv(sh, front);
      var s := Run(sh, EMPTY, front);
      forall i | 0 <= i < |s.blocks| ensures PaddedByFlush(sh, acts, s.blocks[i]) {
        assert PaddedByFlush(sh, front, s.blocks[i]);
      }
      if a.Flush? && s.pending != [] {
        var n: nat :| n < sh.N && |s.pending| == Times(n, sh.size);
        TimesDivMod(n, 0, sh.size);
        assert Times(0, sh.size) == 0;
        assert Padding(sh, s.pending) == Repeat(sh.fill, sh.N - n);
        assert acts[|acts| - 1] in acts;
      }
    }
  }

  /** Blocks are only ever added at the end: what a prefix of a run wrote, the whole run wrote
      first.  So a pointer chunk precedes the scalars that were buffered when it came. */
  lemma {:induction false} BlocksOnlyGrow(sh: Shape, s: State, acts: seq<Action>, k: nat)
    requires sh.Valid() && k <= |acts|
    ensures Run(sh, s, acts[..k]).blocks <= Run(sh, s, acts).blocks
    decreases |acts|
  {
    if k < |acts| {
      assert acts[..|acts| - 1][..k] == acts[..k];
      BlocksOnlyGrow(sh, s, acts[..|acts| - 1], k);
    } else {
      assert acts[..k] == acts;
    }
  }

  lemma {:induction false} BufferedBytesConcat(a: seq<Block>, b: seq<Block>)
    ensures BufferedBytes(a + b) == BufferedBytes(a) + BufferedBytes(b)
  {
    if b == [] {
      assert a + b == a;
    } else {
      assert (a + b)[..|a + b| - 1] == a + b[..|b| - 1];
      BufferedBytesConcat(a, b[..|b| - 1]);
    }
  }

  lemma {:induction false} ScalarsGrow(acts: seq<Action>, k: nat)
    requires k <= |acts|
    ensures Scalars(acts[..k]) <= Scalars(acts)
    decreases |acts|
  {
    if k < |acts| {
      assert acts[..|acts| - 1][..k] == acts[..k];
      ScalarsGrow(acts[..|acts| - 1], k);
    } else {
      assert acts[..k] == acts;
    }
  }

  lemma {:induction false} PointerChunkPrecedesBuffered(sh: Shape, acts: seq<Action>, k: nat)
    requires sh.Valid() && k < |acts| && acts[k].AppendChunk?
    ensures var before := Run(sh, EMPTY, acts[..k]); var after := Run(sh, EMPTY, acts);
            && before.blocks + [Direct(acts[k].c)] <= after.blocks
            && (Safe(sh, acts) ==>
                  before.pending <= BufferedBytes(after.blocks[|before.blocks| + 1..]) + after.pending)
  {
    assert acts[..k + 1][..k] == acts[..k];
    assert Run(sh, EMPTY, acts[..k + 1]) == Step(sh, Run(sh, EMPTY, acts[..k]), acts[k]);
    BlocksOnlyGrow(sh, EMPTY, acts, k + 1);
    if Safe(sh, acts) {
      PendingFollows(sh, acts, k);
    }
  }

  /** ... and the scalars pending at that moment come behind the pointer chunk. */
  lemma {:induction false} PendingFollows(sh: Shape, acts: seq<Action>, k: nat)
    requires sh.Valid() && k < |acts| && acts[k].AppendChunk? && Safe(sh, acts)
    requires Run(sh, EMPTY, acts[..k]).blocks + [Direct(acts[k].c)] <= Run(sh, EMPTY, acts).blocks
    ensures var before := Run(sh, EMPTY, acts[..k]); var after := Run(sh, EMPTY, acts);
            before.pending <= BufferedBytes(after.blocks[|before.blocks| + 1..]) + after.pending
  {
    SafeUpTo(sh, acts, k);
    Conservation(sh, acts[..k]);
    Conservation(sh, acts);
    ScalarsGrow(acts, k);
    hide *;
    BehindDirect(Run(sh, EMPTY, acts[..k]), Run(sh, EMPTY, acts), acts[k].c);
  }

  lemma {:induction false} BehindDirect(before: State, after: State, c: bytes)
    requires before.blocks + [Direct(c)] <= after.blocks
    requires BufferedBytes(before.blocks) + before.pending <= BufferedBytes(after.blocks) + after.pending
    ensures before.pending <= BufferedBytes(after.blocks[|before.blocks| + 1..]) + after.pending
  {
    var tail := after.blocks[|before.blocks| + 1..];
    DirectAddsNothing(before.blocks, c);
    BufferedBytesConcat(before.blocks + [Direct(c)], tail);
    assert after.blocks == before.blocks + [Direct(c)] + tail;
    hide *;
    CommonFront(BufferedBytes(before.blocks), before.pending, BufferedBytes(tail), after.pending);
  }

  lemma {:induction false} DirectAddsNothing(blocks: seq<Block>, c: bytes)
    ensures BufferedBytes(blocks + [Direct(c)]) == BufferedBytes(blocks)
  {
    assert (blocks + [Direct(c)])[..|blocks|] == blocks;
  }

  lemma {:induction false} CommonFront(x: bytes, y: bytes, t: bytes, p: bytes)
    requires x + y <= x + t + p
    ensures y <= t + p
  {
    assert (x + y)[|x|..] == y && (x + t + p)[|x|..|x| + |y|] == (t + p)[..|y|];
  }

  /** Asynchronous and synchronous pipelines write the same blocks ... */
  lemma {:induction false} PoolRefinesBasic(sh: Shape, acts: seq<Action>)
    requires sh.Valid() && AllAccepted(sh, acts)
    requires Safe(sh.(pooled := false), acts)
    ensures Run(sh.(pooled := true), EMPTY, acts) == Run(sh.(pooled := false), EMPTY, acts)
  {
    if acts != [] {
      var front, a := acts[..|acts| - 1], acts[|acts| - 1];
      var basic := sh.(pooled := false);
      SafePrefix(basic, acts);
      PoolRefinesBasic(sh, front);
      var s := Run(basic, EMPTY, front);
      if a.AppendChunk? {
        if Spares(sh.chain, false, a.c) {
          SparesSound(sh.chain, false, s.pending, a.c);
        } else {
          CacheAfterTake(sh.chain, false, s.pending, a.c, 0);
        }
      }
    }
  }

  // ----- where the blocks land -----

  /** The i-th block written goes to this offset along the first dimension. */
  function Offset(first: nat, rows: nat, i: nat): nat {
    first + Times(i, rows)
  }

  function Jobs(chain: Chain, first: nat, rows: nat, blocks: seq<Block>): seq<Job> {
    seq(|blocks|, i requires 0 <= i < |blocks| => Job(Offset(first, rows, i), Encode(chain, blocks[i].Bytes())))
  }

  /** ... and store the same bytes for them, if no filter minds writing over its input. */
  lemma {:induction false} PoolStoresSame(chain: Chain, first: nat, rows: nat, blocks: seq<Block>)
    requires AliasSafe(chain)
    ensures Jobs(Used(chain, true), first, rows, blocks) == Jobs(Used(chain, false), first, rows, blocks)
  {
    forall i | 0 <= i < |blocks|
      ensures Encode(Used(chain, true), blocks[i].Bytes()) == Encode(Used(chain, false), blocks[i].Bytes())
    {
      AliasSafeEncode(chain, 0, blocks[i].Bytes(), {});
    }
  }

  /** Over every run that is safe for the synchronous pipeline the disk gets the same chunks from the
      pooled one, in the same order and at the same places. */
  lemma {:induction false} PoolWritesSameRun(sh: Shape, acts: seq<Action>, first: nat, rows: nat)
    requires sh.Valid() && AllAccepted(sh, acts) && AliasSafe(sh.chain)
    requires Safe(sh.(pooled := false), acts)
    ensures Jobs(Used(sh.chain, true), first, rows, Run(sh.(pooled := true), EMPTY, acts).blocks) ==
            Jobs(Used(sh.chain, false), first, rows, Run(sh.(pooled := false), EMPTY, acts).blocks)
  {
    PoolRefinesBasic(sh, acts);
    PoolStoresSame(sh.chain, first, rows, Run(sh.(pooled := false), EMPTY, acts).blocks);
    hide Jobs;
  }

  lemma {:induction false} JobsAppend(chain: Chain, first: nat, rows: nat, blocks: seq<Block>, block: Block)
    ensures Jobs(chain, first, rows, blocks + [block]) ==
            Jobs(chain, first, rows, blocks) + [Job(Offset(first, rows, |blocks|), Encode(chain, block.Bytes()))]
    ensures Offset(first, rows, |blocks| + 1) == Offset(first, rows, |blocks|) + rows
  {
  }

  lemma {:induction false} OffsetsIncrease(first: nat, rows: nat, i: nat, j: nat)
    requires rows > 0 && i < j
    ensures Offset(first, rows, i) + rows <= Offset(first, rows, j)
  {
    TimesLess(i, j, rows);
  }

  lemma {:induction false} OffsetAligned(first: nat, rows: nat, i: nat)
    requires rows > 0
    ensures Offset(first, rows, i) % rows == first % rows
    ensures Offset(first, rows, i) / rows == first / rows + i
  {
    TimesDivModDef(first, rows);
    TimesAdd(first / rows, i, rows);
    TimesDivMod(first / rows + i, first % rows, rows);
  }

  /** A chunk is found at its offset, unless the filters left nothing of it. */
  ghost predicate BlockLanded(m: Chunks, base: Chunks, offset: nat, stored: Stored) {
    if stored.data != [] then offset in m && m[offset] == stored
    else (offset in m <==> offset in base) && (offset in m ==> m[offset] == base[offset])
  }

  /** Every block has landed, and nothing else has changed. */
  ghost predicate Landed(m: Chunks, base: Chunks, chain: Chain, first: nat, rows: nat, blocks: seq<Block>) {
    && (forall i {:trigger Offset(first, rows, i)} :: 0 <= i < |blocks| ==>
          BlockLanded(m, base, Offset(first, rows, i), Encode(chain, blocks[i].Bytes())))
    && (forall k :: (forall i :: 0 <= i < |blocks| ==> Offset(first, rows, i) != k) ==>
          (k in m <==> k in base) && (k in m ==> m[k] == base[k]))
  }

  lemma {:induction false} StoreLastJob(base: Chunks, chain: Chain, first: nat, rows: nat, blocks: seq<Block>)
    requires rows > 0 && blocks != []
    ensures var jobs := Jobs(chain, first, rows, blocks); var n := |blocks| - 1;
            StoreAll(base, rows, jobs) ==
            Store(StoreAll(base, rows, Jobs(chain, first, rows, blocks[..n])), rows, jobs[n])
  {
    var jobs, n := Jobs(chain, first, rows, blocks), |blocks| - 1;
    var fjobs := Jobs(chain, first, rows, blocks[..n]);
    assert jobs == fjobs + [jobs[n]];
    StoreAllConcat(base, rows, fjobs, [jobs[n]]);
    var m := StoreAll(base, rows, fjobs);
    assert StoreAll(m, rows, [jobs[n]]) == StoreAll(Store(m, rows, jobs[n]), rows, []);
  }

  /** From a chunk-aligned extent every block is stored at its own offset, and nothing else changes. */
  lemma {:induction false} AlignedBlocksLand(base: Chunks, chain: Chain, first: nat, rows: nat, blocks: seq<Block>)
    requires rows > 0 && first % rows == 0
    ensures Landed(StoreAll(base, rows, Jobs(chain, first, rows, blocks)), base, chain, first, rows, blocks)
  {
    var jobs := Jobs(chain, first, rows, blocks);
    var m := StoreAll(base, rows, jobs);
    JobsDistinct(chain, first, rows, blocks);
    forall i | 0 <= i < |blocks|
      ensures BlockLanded(m, base, Offset(first, rows, i), Encode(chain, blocks[i].Bytes()))
    {
      BlockLands(base, chain, first, rows, blocks, i);
    }
    forall k: nat | forall i :: 0 <= i < |blocks| ==> Offset(first, rows, i) != k
      ensures (k in m <==> k in base) && (k in m ==> m[k] == base[k])
    {
      StoredAt(base, rows, jobs, k);
    }
  }

  lemma {:induction false} BlockLands(base: Chunks, chain: Chain, first: nat, rows: nat, blocks: seq<Block>, i: nat)
    requires rows > 0 && first % rows == 0 && i < |blocks|
    ensures BlockLanded(StoreAll(base, rows, Jobs(chain, first, rows, blocks)), base,
                        Offset(first, rows, i), Encode(chain, blocks[i].Bytes()))
  {
    var jobs, o := Jobs(chain, first, rows, blocks), Offset(first, rows, i);
    JobsDistinct(chain, first, rows, blocks);
    OffsetAligned(first, rows, i);
    StoredAt(base, rows, jobs, o);
    assert jobs[i] in jobs;
    forall job | job in jobs && job.offset == o ensures job == jobs[i] {
      var j :| 0 <= j < |jobs| && jobs[j] == job;
    }
    hide StoreAll;
    hide Encode;
  }

  lemma {:induction false} JobsDistinct(chain: Chain, first: nat, rows: nat, blocks: seq<Block>)
    requires rows > 0
    ensures DistinctOffsets(Jobs(chain, first, rows, blocks))
  {
    var jobs := Jobs(chain, first, rows, blocks);
    forall i, j | 0 <= i < j < |jobs| ensures jobs[i].offset != jobs[j].offset {
      OffsetsIncrease(first, rows, i, j);
    }
  }

  /** Chunk offsets never repeat, so the writes in flight may complete in any order. */
  lemma {:induction false} AnyCompletionOrder(base: Chunks, chain: Chain, first: nat, rows: nat, blocks: seq<Block>, done: seq<Job>)
    requires rows > 0 && multiset(done) == multiset(Jobs(chain, first, rows, blocks))
    ensures StoreAll(base, rows, done) == StoreAll(base, rows, Jobs(chain, first, rows, blocks))
  {
    JobsDistinct(chain, first, rows, blocks);
    OrderIrrelevant(base, rows, Jobs(chain, first, rows, blocks), done);
  }

  /** From any other extent nothing is ever stored: the extent grows over missing chunks. */
  lemma {:induction false} MisalignedBlocksVanish(base: Chunks, chain: Chain, first: nat, rows: nat, blocks: seq<Block>)
    requires rows > 0 && first % rows != 0
    ensures StoreAll(base, rows, Jobs(chain, first, rows, blocks)) == base
  {
    if blocks != [] {
      var n := |blocks| - 1;
      MisalignedBlocksVanish(base, chain, first, rows, blocks[..n]);
      StoreLastJob(base, chain, first, rows, blocks);
      OffsetAligned(first, rows, n);
    }
  }

  // ----- the object -----

  lemma {:induction false} RepeatPush(s: bytes, x: bytes, k: nat)
    ensures s + Repeat(x, k) + x == s + Repeat(x, k + 1)
  {
  }

  class PacketTable {
    const pipe: Pipe
    const ptr: array<byte>      // the buffer of pending elements: the pipeline's own chunk0
    const N: nat                // elements per chunk
    const elementSize: nat
    const fill: bytes
    const chunkDim: nat         // chunk length along the first dimension
    var n: nat                  // pending elements
    var offset: nat
    var currentDim: nat         // extent along the first dimension
    ghost const first: nat      // the extent when the table was opened
    ghost var state: State

    ghost function TheShape(): Shape
      reads this
    {
      Shape(N, elementSize, fill, pipe.chain, pipe.cap > 0)
    }

    /** Everything but the buffer: the extent and the writes submitted follow from the blocks. */
    ghost predicate Placed()
      reads this, pipe, pipe.ds
    {
      && TheShape().Valid() && pipe.Valid() && pipe.Bounded()
      && ptr == pipe.chunk0 && pipe.blockSize == Times(N, elementSize) && pipe.ds.rows == chunkDim
      && currentDim == pipe.ds.extent == Offset(first, chunkDim, |state.blocks|)
      && pipe.Submitted() == Jobs(pipe.Effective(), first, chunkDim, state.blocks)
    }

    ghost predicate Valid()
      reads this, pipe, pipe.ds, ptr
    {
      Placed() && n < N && Times(n, elementSize) <= ptr.Length && state.pending == ptr[..Times(n, elementSize)]
    }

    constructor (ds: Dataset, chain: Chain, N: nat, elementSize: nat, fill: bytes, scratch: nat, cap: nat)
      requires ds.rows > 0 && Shape(N, elementSize, fill, chain, cap > 0).Valid() && scratch >= Times(N, elementSize)
      requires forall d: bytes :: |d| == Times(N, elementSize) ==> Fits(Used(chain, cap > 0), d, scratch)
      ensures Valid() && state == EMPTY && first == ds.extent && pipe.ds == ds && pipe.base == ds.chunks
      ensures fresh(pipe) && fresh(pipe.chunk0) && fresh(pipe.chunk1)
      ensures TheShape() == Shape(N, elementSize, fill, chain, cap > 0)
    {
      TimesIsMul(N, elementSize);
      var p := new Pipe(ds, chain, N * elementSize, scratch, cap);
      pipe, ptr := p, p.chunk0;
      this.N, this.elementSize, this.fill, chunkDim := N, elementSize, fill, ds.rows;
      n, offset, currentDim := 0, 0, ds.extent;
      first, state := ds.extent, EMPTY;
      new;
      assert Times(0, elementSize) == 0;
    }

    /** Grows the extent by one chunk and hands `src` to the pipeline at the old extent. */
    method WriteBlock(src: array<byte>, ghost block: Block)
      requires Placed() && src != pipe.chunk1 && src.Length >= Times(N, elementSize)
      requires block.Bytes() == src[..Times(N, elementSize)]
      modifies this`offset, this`currentDim, this`state, pipe, pipe.ds, pipe.chunk0, pipe.chunk1
      ensures Placed() && offset == old(currentDim)
      ensures state == old(state).(blocks := old(state.blocks) + [block])
      ensures ptr[..] == CacheAfter(pipe.chain, pipe.cap > 0, old(ptr[..]), old(src[..Times(N, elementSize)]))
    {
      offset := currentDim;
      currentDim := currentDim + chunkDim;
      pipe.ds.SetExtent(currentDim);
      pipe.WriteChunk(offset, src);
      JobsAppend(pipe.Effective(), first, chunkDim, state.blocks, block);
      state := state.(blocks := state.blocks + [block]);
    }

    /** Writes the full buffer and empties it. */
    method WriteBuffer(ghost block: Block)
      requires Placed() && block.Bytes() == ptr[..Times(N, elementSize)]
      modifies this, pipe, pipe.ds, pipe.chunk0, pipe.chunk1
      ensures Valid() && n == 0 && state == State(old(state.blocks) + [block], [])
    {
      WriteBlock(ptr, block);
      assert Times(0, elementSize) == 0;
      n, state := 0, state.(pending := []);
    }

    /** ptr[n++] = x, on the object representation `x` of an element. */
    method PutElement(x: bytes)
      requires n < N && |x| == elementSize && Times(n, elementSize) <= Times(N, elementSize) <= ptr.Length
      modifies this`n, ptr
      ensures n == old(n) + 1 && Times(n, elementSize) <= Times(N, elementSize)
      ensures ptr[..Times(n, elementSize)] == old(ptr[..Times(n, elementSize)]) + x
    {
      var at := n * elementSize;
      TimesIsMul(n, elementSize);
      TimesLess(n, N, elementSize);
      assert Times(n + 1, elementSize) == at + elementSize;
      forall i | 0 <= i < elementSize {
        ptr[at + i] := x[i];
      }
      n := n + 1;
      assert ptr[..at + elementSize] == old(ptr[..at]) + x;
    }

    /** append(const T&) for a scalar whose object representation is `x`. */
    method Append(x: bytes)
      requires Valid() && |x| == elementSize
      modifies this, pipe, pipe.ds, pipe.chunk0, pipe.chunk1
      ensures Valid() && state == Step(TheShape(), old(state), AppendScalar(x))
    {
      ghost var pending := state.pending + x;
      TimesLess(n, N, elementSize);
      PutElement(x);
      assert |pending| == Times(n, elementSize);
      if n != N {
        TimesLess(n, N, elementSize);
        state := state.(pending := pending);
        return;
      }
      WriteBuffer(Buffered(pending, []));
    }

    /** append(const T*): `c` holds one whole chunk. */
    method AppendPtr(c: array<byte>)
      requires Valid() && c != pipe.chunk0 && c != pipe.chunk1 && c.Length == Times(N, elementSize)
      modifies this, pipe, pipe.ds, pipe.chunk0, pipe.chunk1
      ensures Valid() && state == Step(TheShape(), old(state), AppendChunk(c[..]))
    {
      ghost var cache := ptr[..];
      assert c[..Times(N, elementSize)] == c[..];
      WriteBlock(c, Direct(c[..]));
      CacheAfterTake(pipe.chain, pipe.cap > 0, cache, c[..], Times(n, elementSize));
      assert ptr[..][..Times(n, elementSize)] == ptr[..Times(n, elementSize)];
      state := state.(pending := ptr[..Times(n, elementSize)]);
    }

    /** The byte-level loops of flush: the rest of the chunk becomes fill values. */
    method FillRemainder()
      requires n < N && |fill| == elementSize && Times(N, elementSize) <= ptr.Length
      requires Times(n, elementSize) <= ptr.Length
      modifies ptr
      ensures ptr[..Times(N, elementSize)] == old(ptr[..Times(n, elementSize)]) + Repeat(fill, N - n)
    {
      ghost var pending := ptr[..Times(n, elementSize)];
      assert pending + Repeat(fill, 0) == pending;
      hide Repeat;
      hide Times;
      for i := 0 to N - n
        invariant Times(n + i, elementSize) <= ptr.Length
        invariant ptr[..Times(n + i, elementSize)] == pending + Repeat(fill, i)
      {
        TimesLess(n + i, N, elementSize);
        FillElement(i);
        RepeatPush(pending, fill, i);
      }
      assert n + (N - n) == N;
    }

    method FillElement(i: nat)
      requires Times(n + i, elementSize) + elementSize <= ptr.Length && |fill| == elementSize
      modifies ptr
      ensures Times(n + (i + 1), elementSize) <= ptr.Length
      ensures ptr[..Times(n + (i + 1), elementSize)] == old(ptr[..Times(n + i, elementSize)]) + fill
    {
      ghost var at := Times(n + i, elementSize);
      TimesIsMul(n + i, elementSize);
      for j := 0 to elementSize
        invariant ptr[..at + j] == old(ptr[..at]) + fill[..j]
      {
        ptr[(n + i) * elementSize + j] := fill[j];
      }
      assert fill[..elementSize] == fill;
      assert Times(n + (i + 1), elementSize) == at + elementSize;
    }

    /** Pads and writes a partial chunk, then waits for everything in flight. */
    method FlushTable()
      requires Valid()
      modifies this, pipe, pipe.ds, pipe.chunk0, pipe.chunk1
      ensures Valid() && state == Step(TheShape(), old(state), Flush) && n == 0
      ensures pipe.inFlight == [] && pipe.ds.chunks == StoreAll(pipe.base, chunkDim, pipe.Submitted())
    {
      assert Times(0, elementSize) == 0;
      if n != 0 {
        ghost var pending := state.pending;
        FillRemainder();
        TimesDivMod(n, 0, elementSize);
        assert Padding(TheShape(), pending) == Repeat(fill, N - n);
        ghost var block := Buffered(pending, Repeat(fill, N - n));
        assert block.Bytes() == ptr[..Times(N, elementSize)];
        WriteBuffer(block);
      }
      pipe.Drain();
    }
  }
}
