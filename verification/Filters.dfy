/** The filter chain of a chunked dataset: the functions a chunk passes through on its way
    to disk, in order, and back, in reverse order.  A filter that returns length 0 has
    refused its input; the writer then sets that filter's bit in the chunk's mask. */
module Filters {

  newtype byte = i: int | 0 <= i < 256
  type bytes = seq<byte>

  /** A filter id as the writer treats it: what it makes of its input in another buffer, what it
      makes of it when output and input are one buffer, and its reverse.  `inPlace` marks the ids
      that the writer lets run in one buffer. */
  datatype Filter = Filter(inPlace: bool, encode: bytes -> bytes, oneBuffer: bytes -> bytes, decode: bytes -> bytes)

  type Chain = seq<Filter>

  /** A chunk as H5Dwrite_chunk stores it: the mask of refused filters and the bytes. */
  datatype Stored = Stored(mask: set<nat>, data: bytes)

  /** Filters j, j+1, ... applied to `data`. */
  function EncodeFrom(c: Chain, j: nat, data: bytes, mask: set<nat>): Stored
    requires j <= |c|
    decreases |c| - j
  {
    if j == |c| then Stored(mask, data)
    else
      var out := c[j].encode(data);
      EncodeFrom(c, j + 1, out, if out == [] then mask + {j} else mask)
  }

  function Encode(c: Chain, data: bytes): Stored {
    EncodeFrom(c, 0, data, {})
  }

  /** Filters j-1, ..., 0 undone, a masked filter passing its input through. */
  function DecodeFrom(c: Chain, j: nat, data: bytes, mask: set<nat>): bytes
    requires j <= |c|
  {
    if j == 0 then data
    else DecodeFrom(c, j - 1, if j - 1 in mask then data else c[j - 1].decode(data), mask)
  }

  function Decode(c: Chain, s: Stored): bytes {
    DecodeFrom(c, |c|, s.data, s.mask)
  }

  /** The input filter j sees when `data` enters the chain. */
  function Stage(c: Chain, j: nat, data: bytes): bytes
    requires j <= |c|
  {
    if j == 0 then data else c[j - 1].encode(Stage(c, j - 1, data))
  }

  /** Every filter accepts what it is given and can undo what it did. */
  ghost predicate Lossless(c: Chain, data: bytes) {
    forall j {:trigger Restores(c[j], Stage(c, j, data))} :: 0 <= j < |c| ==> Restores(c[j], Stage(c, j, data))
  }

  ghost predicate Restores(f: Filter, x: bytes) {
    f.encode(x) != [] && f.decode(f.encode(x)) == x
  }

  /** No stage outgrows a scratch buffer of `capacity` bytes. */
  ghost predicate Fits(c: Chain, data: bytes, capacity: nat) {
    forall j {:trigger Stage(c, j, data)} :: 0 <= j <= |c| ==> |Stage(c, j, data)| <= capacity
  }

  /** The mask after filters 0 .. j-1. */
  function MaskAt(c: Chain, j: nat, data: bytes): set<nat>
    requires j <= |c|
  {
    if j == 0 then {}
    else if Stage(c, j, data) == [] then MaskAt(c, j - 1, data) + {j - 1}
    else MaskAt(c, j - 1, data)
  }

  // ----- filters that share one buffer -----

  predicate AllInPlace(c: Chain) {
    forall i :: 0 <= i < |c| ==> c[i].inPlace
  }

  /** The chain with every filter writing over its own input. */
  function InOneBuffer(c: Chain): (d: Chain)
    ensures |d| == |c|
  {
    seq(|c|, i requires 0 <= i < |c| => c[i].(encode := c[i].oneBuffer))
  }

  /** The functions a chunk really passes through: the synchronous writer filters in one buffer
      when every filter id is marked for it, a worker never does. */
  function Used(c: Chain, pooled: bool): (d: Chain)
    ensures |d| == |c|
  {
    if pooled || !AllInPlace(c) then c else InOneBuffer(c)
  }

  /** Overwriting its own input makes no difference to any filter that the writer lets do so. */
  ghost predicate AliasSafe(c: Chain) {
    AllInPlace(c) ==> forall i, x :: 0 <= i < |c| ==> c[i].oneBuffer(x) == c[i].encode(x)
  }

  lemma {:induction false} AliasSafeEncode(c: Chain, j: nat, data: bytes, mask: set<nat>)
    requires AliasSafe(c) && j <= |c|
    ensures EncodeFrom(Used(c, false), j, data, mask) == EncodeFrom(c, j, data, mask)
    decreases |c| - j
  {
    if j < |c| {
      var out := c[j].encode(data);
      assert Used(c, false)[j].encode(data) == out;
      AliasSafeEncode(c, j + 1, out, if out == [] then mask + {j} else mask);
    }
  }

  /** Chains that read back alike. */
  ghost predicate SameDecoders(c: Chain, d: Chain) {
    |c| == |d| && forall i :: 0 <= i < |c| ==> c[i].decode == d[i].decode
  }

  lemma {:induction false} SameDecode(c: Chain, d: Chain, j: nat, data: bytes, mask: set<nat>)
    requires SameDecoders(c, d) && j <= |c|
    ensures DecodeFrom(c, j, data, mask) == DecodeFrom(d, j, data, mask)
  {
    if j > 0 { SameDecode(c, d, j - 1, if j - 1 in mask then data else c[j - 1].decode(data), mask); }
  }

  /** Running filters j, j+1, ... on stage j is the same whatever j is. */
  lemma {:induction false} EncodeFromStage(c: Chain, j: nat, data: bytes)
    requires j <= |c|
    ensures EncodeFrom(c, j, Stage(c, j, data), MaskAt(c, j, data)) ==
            Stored(MaskAt(c, |c|, data), Stage(c, |c|, data))
    decreases |c| - j
  {
    if j < |c| {
      assert Stage(c, j + 1, data) == c[j].encode(Stage(c, j, data));
      EncodeFromStage(c, j + 1, data);
    }
  }

  /** Reading back what was written restores the chunk, with an empty mask. */
  lemma {:induction false} DecodeInvertsEncode(c: Chain, data: bytes)
    requires Lossless(c, data)
    ensures Encode(c, data).mask == {}
    ensures Decode(c, Encode(c, data)) == data
  {
    NoRefusalNoMask(c, |c|, data);
    EncodeFromStage(c, 0, data);
    UndoStages(c, |c|, data);
  }

  lemma {:induction false} NoRefusalNoMask(c: Chain, j: nat, data: bytes)
    requires Lossless(c, data) && j <= |c|
    ensures MaskAt(c, j, data) == {}
  {
    if j > 0 {
      NoRefusalNoMask(c, j - 1, data);
      assert Restores(c[j - 1], Stage(c, j - 1, data));
    }
  }

  lemma {:induction false} UndoStages(c: Chain, j: nat, data: bytes)
    requires Lossless(c, data) && j <= |c|
    ensures DecodeFrom(c, j, Stage(c, j, data), {}) == data
  {
    if j > 0 {
      assert Restores(c[j - 1], Stage(c, j - 1, data));
      UndoStages(c, j - 1, data);
    }
  }

  /** A lossless chain never makes nothing of something. */
  lemma {:induction false} LosslessNotEmpty(c: Chain, data: bytes)
    requires Lossless(c, data) && data != []
    ensures Encode(c, data).data != []
  {
    EncodeFromStage(c, 0, data);
    if |c| > 0 { assert Restores(c[|c| - 1], Stage(c, |c| - 1, data)); }
  }

  // ----- which chunks come back -----

  /** Every filter undoes what it makes of its own stage, if it makes anything, and makes nothing of
      nothing on the way back. */
  ghost predicate UndoesStages(c: Chain, data: bytes) {
    forall j {:trigger UndoesOne(c[j], Stage(c, j, data))} :: 0 <= j < |c| ==> UndoesOne(c[j], Stage(c, j, data))
  }

  ghost predicate UndoesOne(f: Filter, x: bytes) {
    (f.encode(x) != [] ==> f.decode(f.encode(x)) == x) && f.decode([]) == []
  }

  /** No filter refuses what it is given of this chunk. */
  ghost predicate NoneRefuses(c: Chain, data: bytes) {
    forall j {:trigger Stage(c, j, data)} :: 0 < j <= |c| ==> Stage(c, j, data) != []
  }

  lemma {:induction false} MaskHolds(c: Chain, j: nat, data: bytes, i: nat)
    requires j <= |c|
    ensures i in MaskAt(c, j, data) <==> i < j && Stage(c, i + 1, data) == []
  {
    if j > 0 { MaskHolds(c, j - 1, data, i); }
  }

  lemma {:induction false} NothingStaysNothing(c: Chain, j: nat, mask: set<nat>, data: bytes)
    requires UndoesStages(c, data) && j <= |c|
    ensures DecodeFrom(c, j, [], mask) == []
  {
    if j > 0 {
      assert UndoesOne(c[j - 1], Stage(c, j - 1, data));
      NothingStaysNothing(c, j - 1, mask, data);
    }
  }

  /** On the way back from stage k there is that stage or nothing at all; from stage j on, which a
      filter refused, nothing. */
  lemma {:induction false} RefusedComesBackEmpty(c: Chain, j: nat, k: nat, x: bytes, data: bytes)
    requires UndoesStages(c, data) && j <= k <= |c| && Stage(c, j, data) == []
    requires x == Stage(c, k, data) || x == []
    ensures DecodeFrom(c, k, x, MaskAt(c, |c|, data)) == []
  {
    var mask := MaskAt(c, |c|, data);
    if j == k {
      NothingStaysNothing(c, k, mask, data);
    } else {
      MaskHolds(c, |c|, data, k - 1);
      assert UndoesOne(c[k - 1], Stage(c, k - 1, data));
      RefusedComesBackEmpty(c, j, k - 1, if k - 1 in mask then x else c[k - 1].decode(x), data);
    }
  }

  /** A chunk comes back from the chain exactly if no filter refuses it; otherwise nothing does. */
  lemma {:induction false} RestoredIff(c: Chain, data: bytes)
    requires UndoesStages(c, data) && data != []
    ensures Decode(c, Encode(c, data)) == data <==> NoneRefuses(c, data)
    ensures !NoneRefuses(c, data) ==> Decode(c, Encode(c, data)) == []
  {
    if NoneRefuses(c, data) {
      forall j | 0 <= j < |c| ensures Restores(c[j], Stage(c, j, data)) {
        assert UndoesOne(c[j], Stage(c, j, data));
        assert Stage(c, j + 1, data) != [];
      }
      DecodeInvertsEncode(c, data);
    } else {
      var j :| 0 < j <= |c| && Stage(c, j, data) == [];
      EncodeFromStage(c, 0, data);
      RefusedComesBackEmpty(c, j, |c|, Stage(c, |c|, data), data);
    }
  }

  /** The same with the writer's functions and the reader's chain. */
  lemma {:induction false} UsedRestoredIff(c: Chain, pooled: bool, data: bytes)
    requires UndoesStages(Used(c, pooled), data) && data != []
    ensures Decode(c, Encode(Used(c, pooled), data)) == data <==> NoneRefuses(Used(c, pooled), data)
  {
    var u := Used(c, pooled);
    RestoredIff(u, data);
    SameDecode(u, c, |c|, Encode(u, data).data, Encode(u, data).mask);
  }

  /** A filter that refuses [1] and passes everything else, and one that appends a byte. */
  const PICKY: Filter := Filter(false, x => if x == [1] then [] else x, x => x, x => x)
  const TRAILER: Filter := Filter(false, x => x + [0], x => x + [0], x => if x == [] then [] else x[..|x| - 1])

  /** Behind the first, [1] is stored by the second as one byte with mask {0}, and nothing comes back. */
  lemma {:induction false} RefusedChunkIsLost()
    ensures UndoesStages([PICKY, TRAILER], [1]) && !NoneRefuses([PICKY, TRAILER], [1])
    ensures Encode([PICKY, TRAILER], [1]) == Stored({0}, [0])
    ensures Decode([PICKY, TRAILER], Stored({0}, [0])) == []
  {
    var c, d: bytes := [PICKY, TRAILER], [1];
    assert Stage(c, 1, d) == [];
    assert Stage(c, 2, d) == [0];
    assert EncodeFrom(c, 2, [0], {0}) == Stored({0}, [0]);
    var none: set<nat> := {};
    assert none + {0} == {0} && c[0].encode(d) == [];
    assert c[1].encode([]) == [0];
    assert EncodeFrom(c, 1, [], {0}) == Stored({0}, [0]);
    assert EncodeFrom(c, 0, d, none) == EncodeFrom(c, 1, [], none + {0});
    RestoredIff(c, d);
  }

  /** The mask does not rescue a refused chunk: two chunks that the same filter is the first
      to refuse are stored as the same bytes under the same mask, so at most one of them can
      be read back. */
  lemma {:induction false} RefusedChunksAreIndistinguishable(c: Chain, j: nat, d1: bytes, d2: bytes)
    requires j < |c|
    requires Stage(c, j + 1, d1) == [] && Stage(c, j + 1, d2) == []
    requires forall i :: 0 < i <= j ==> Stage(c, i, d1) != [] && Stage(c, i, d2) != []
    ensures Encode(c, d1) == Encode(c, d2)
    ensures d1 != d2 ==>
              Decode(c, Encode(c, d1)) != d1 || Decode(c, Encode(c, d2)) != d2
  {
    RefusedIsForgotten(c, j, d1);
    RefusedIsForgotten(c, j, d2);
  }

  lemma {:induction false} RefusedIsForgotten(c: Chain, j: nat, d: bytes)
    requires j < |c| && Stage(c, j + 1, d) == [] && forall i :: 0 < i <= j ==> Stage(c, i, d) != []
    ensures Encode(c, d) == EncodeFrom(c, j + 1, [], {j})
  {
    AcceptedSoFar(c, j, d);
    EncodeFromStage(c, 0, d);
    EncodeFromStage(c, j + 1, d);
    assert MaskAt(c, j + 1, d) == {j};
  }

  lemma {:induction false} AcceptedSoFar(c: Chain, j: nat, d: bytes)
    requires j <= |c| && forall i :: 0 < i <= j ==> Stage(c, i, d) != []
    ensures MaskAt(c, j, d) == {}
  {
    if j > 0 {
      AcceptedSoFar(c, j - 1, d);
    }
  }
}
