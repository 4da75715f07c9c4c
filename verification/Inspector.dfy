/** HighFive's inspectors: nested containers flattened to one row-major buffer and back. */
module Inspector {
  import opened Common
  import opened Arith
  import opened Dims

  /** The static type: a scalar, std::vector<T> or boost::multi_array<T, ndim>. */
  datatype Type = Scalar | Vector(elem: Type) | Multi(ndim: nat, elem: Type)

  /** A value; a multi_array has its shape and its elements in storage (C) order. */
  datatype Value<T> = Leaf(x: T) | Vec(elems: seq<Value>) | Arr(shape: seq<nat>, elems: seq<Value>)

  /** min_ndim == max_ndim for these types. */
  function Rank(ty: Type): nat {
    match ty
    case Scalar => 0
    case Vector(elem) => 1 + Rank(elem)
    case Multi(ndim, elem) => ndim + Rank(elem)
  }

  ghost predicate Typed<T>(ty: Type, v: Value<T>)
    decreases ty
  {
    match ty
    case Scalar => v.Leaf?
    case Vector(elem) => v.Vec? && forall i :: 0 <= i < |v.elems| ==> Typed(elem, v.elems[i])
    case Multi(ndim, elem) =>
      v.Arr? && |v.shape| == ndim && |v.elems| == Product(v.shape)
      && forall i :: 0 <= i < |v.elems| ==> Typed(elem, v.elems[i])
  }

  /** The value has exactly these dimensions at every place: nothing is ragged. */
  ghost predicate HasDims<T>(ty: Type, v: Value<T>, dims: seq<nat>)
    decreases ty
  {
    |dims| == Rank(ty) &&
    match ty
    case Scalar => v.Leaf?
    case Vector(elem) =>
      v.Vec? && |v.elems| == dims[0] && forall i :: 0 <= i < |v.elems| ==> HasDims(elem, v.elems[i], dims[1..])
    case Multi(ndim, elem) =>
      v.Arr? && v.shape == dims[..ndim] && |v.elems| == Product(v.shape)
      && forall i :: 0 <= i < |v.elems| ==> HasDims(elem, v.elems[i], dims[ndim..])
  }

  // ----- getRank / getDimensions -----

  function Ones(n: nat): seq<nat> {
    seq(n, _ => 1)
  }

  /** getDimensions; None where the source reads element 0 of an empty multi_array, which it does
      through getRank even before it looks at the size.  Scalars never look at their argument. */
  function Dimensions<T>(ty: Type, v: Value<T>): Option<seq<nat>>
    decreases ty
  {
    match ty
    case Scalar => Some([])
    case Vector(elem) =>
      if !v.Vec? then None
      else if v.elems == [] then Some([0] + Ones(Rank(elem)))
      else
        var inner := Dimensions(elem, v.elems[0]);
        if inner.None? then None else Some([|v.elems|] + inner.value)
    case Multi(ndim, elem) =>
      if !v.Arr? then None
      else if elem.Scalar? then Some(v.shape)
      else if v.elems == [] then None
      else
        var inner := Dimensions(elem, v.elems[0]);
        if inner.None? then None else Some(v.shape + inner.value)
  }

  // ----- the flat stream -----

  function Flat<T>(v: Value<T>): seq<T> {
    match v
    case Leaf(x) => [x]
    case Vec(elems) => FlatAll(elems)
    case Arr(_, elems) => FlatAll(elems)
  }

  function FlatAll<T>(vs: seq<Value<T>>): seq<T> {
    if vs == [] then [] else FlatAll(vs[..|vs| - 1]) + Flat(vs[|vs| - 1])
  }

  /** The dimensions of the elements, and how many of them there are. */
  function ElemDims(ty: Type, dims: seq<nat>): seq<nat>
    requires |dims| == Rank(ty) && !ty.Scalar?
  {
    if ty.Vector? then dims[1..] else dims[ty.ndim..]
  }

  lemma {:induction false} ElemCount<T>(ty: Type, v: Value<T>, dims: seq<nat>)
    requires !ty.Scalar? && HasDims(ty, v, dims)
    ensures Product(dims) == Times(|v.elems|, Product(ElemDims(ty, dims)))
    ensures forall i :: 0 <= i < |v.elems| ==> HasDims(ty.elem, v.elems[i], ElemDims(ty, dims))
  {
    if ty.Multi? {
      assert dims == dims[..ty.ndim] + dims[ty.ndim..];
      ProductAppend(dims[..ty.ndim], dims[ty.ndim..]);
    }
  }

  lemma {:induction false} FlatAllSize<T>(ty: Type, vs: seq<Value<T>>, dims: seq<nat>)
    requires forall i :: 0 <= i < |vs| ==> HasDims(ty, vs[i], dims)
    ensures |FlatAll(vs)| == Times(|vs|, Product(dims))
    ensures forall i :: 0 <= i < |vs| ==> |Flat(vs[i])| == Product(dims)
    decreases ty, 1, |vs|
  {
    if vs != [] {
      FlatAllSize(ty, vs[..|vs| - 1], dims);
      FlatSize(ty, vs[|vs| - 1], dims);
    }
  }

  /** The stream of a value with dimensions dims has product(dims) entries. */
  lemma {:induction false} FlatSize<T>(ty: Type, v: Value<T>, dims: seq<nat>)
    requires HasDims(ty, v, dims)
    ensures |Flat(v)| == Product(dims)
    decreases ty, 0
  {
    if ty.Scalar? {
      assert dims == [];
    } else {
      ElemCount(ty, v, dims);
      FlatAllSize(ty.elem, v.elems, ElemDims(ty, dims));
    }
  }

  /** Element i occupies the i-th run of the stream. */
  lemma {:induction false} FlatAllPiece<T>(ty: Type, vs: seq<Value<T>>, dims: seq<nat>, i: nat)
    requires i < |vs| && forall j :: 0 <= j < |vs| ==> HasDims(ty, vs[j], dims)
    ensures IsPiece(FlatAll(vs), Flat(vs[i]), Times(i, Product(dims)))
    decreases |vs|
  {
    var front := vs[..|vs| - 1];
    FlatAllSize(ty, front, dims);
    if i < |front| {
      FlatAllPiece(ty, front, dims, i);
    }
  }

  // ----- every element has one place -----

  /** How many coordinates the outermost container takes. */
  function OwnDims(ty: Type): nat
    requires !ty.Scalar?
  {
    if ty.Vector? then 1 else ty.ndim
  }

  /** The place, in storage order, of the outermost container's element with the coordinates c. */
  function ElemIndex(ty: Type, c: seq<nat>, dims: seq<nat>): nat
    requires !ty.Scalar? && |c| == |dims| == Rank(ty)
  {
    if ty.Vector? then c[0] else RowMajor(dims[..ty.ndim], c[..ty.ndim])
  }

  lemma {:induction false} ElemPlace(ty: Type, dims: seq<nat>, c: seq<nat>)
    requires !ty.Scalar? && |dims| == Rank(ty) && InRange(dims, c)
    ensures var n := OwnDims(ty);
            && ElemIndex(ty, c, dims) < (if ty.Vector? then dims[0] else Product(dims[..ty.ndim]))
            && InRange(dims[n..], c[n..])
            && RowMajor(dims, c) == Times(ElemIndex(ty, c, dims), Product(dims[n..])) + RowMajor(dims[n..], c[n..])
  {
    if ty.Multi? {
      var n := ty.ndim;
      assert dims == dims[..n] + dims[n..] && c == c[..n] + c[n..];
      RowMajorAppend(dims[..n], dims[n..], c[..n], c[n..]);
      RowMajorBelow(dims[..n], c[..n]);
    }
  }

  /** v[c0][c1]...: a multi_array takes as many coordinates as it has dimensions. */
  ghost function ElementAt<T>(ty: Type, v: Value<T>, dims: seq<nat>, c: seq<nat>): T
    requires HasDims(ty, v, dims) && InRange(dims, c)
    decreases ty
  {
    if ty.Scalar? then v.x
    else
      ElemPlace(ty, dims, c);
      ElementAt(ty.elem, v.elems[ElemIndex(ty, c, dims)], dims[OwnDims(ty)..], c[OwnDims(ty)..])
  }

  lemma {:induction false} ElemInside<T>(ty: Type, v: Value<T>, dims: seq<nat>, c: seq<nat>)
    requires !ty.Scalar? && HasDims(ty, v, dims) && InRange(dims, c)
    ensures var i := ElemIndex(ty, c, dims); var n := OwnDims(ty);
            && i < |v.elems| && HasDims(ty.elem, v.elems[i], dims[n..]) && InRange(dims[n..], c[n..])
            && ElementAt(ty, v, dims, c) == ElementAt(ty.elem, v.elems[i], dims[n..], c[n..])
  {
    ElemPlace(ty, dims, c);
  }

  /** Entry j of element i, in the stream of all elements. */
  lemma {:induction false} ElemEntry<T>(ty: Type, vs: seq<Value<T>>, dims: seq<nat>, i: nat, j: nat)
    requires i < |vs| && (forall k :: 0 <= k < |vs| ==> HasDims(ty, vs[k], dims)) && j < |Flat(vs[i])|
    ensures var p := Times(i, Product(dims)) + j; p < |FlatAll(vs)| && FlatAll(vs)[p] == Flat(vs[i])[j]
  {
    FlatAllPiece(ty, vs, dims, i);
  }

  lemma {:induction false} ElemEntryOf<T>(ty: Type, v: Value<T>, dims: seq<nat>, i: nat, j: nat)
    requires !ty.Scalar? && HasDims(ty, v, dims) && i < |v.elems| && j < |Flat(v.elems[i])|
    ensures var p := Times(i, Product(dims[OwnDims(ty)..])) + j;
            p < |Flat(v)| && Flat(v)[p] == Flat(v.elems[i])[j]
  {
    ElemCount(ty, v, dims);
    ElemEntry(ty.elem, v.elems, dims[OwnDims(ty)..], i, j);
  }

  /** c are coordinates of an element of v. */
  ghost predicate Indexes<T>(ty: Type, v: Value<T>, dims: seq<nat>, c: seq<nat>) {
    HasDims(ty, v, dims) && InRange(dims, c)
  }

  /** The stream has the element with coordinates c at row-major position. */
  ghost predicate StreamsAt<T>(ty: Type, v: Value<T>, dims: seq<nat>, c: seq<nat>) {
    Indexes(ty, v, dims, c) && RowMajor(dims, c) < |Flat(v)| && Flat(v)[RowMajor(dims, c)] == ElementAt(ty, v, dims, c)
  }

  /** The stream is row-major in all coordinates, whatever the nesting. */
  lemma {:induction false} StreamIsRowMajor<T>(ty: Type, v: Value<T>, dims: seq<nat>, c: seq<nat>)
    requires Indexes(ty, v, dims, c)
    ensures StreamsAt(ty, v, dims, c)
    decreases ty
  {
    if ty.Scalar? {
      ScalarStream(ty, v, dims, c);
    } else {
      ElemInside(ty, v, dims, c);
      StreamIsRowMajor(ty.elem, v.elems[ElemIndex(ty, c, dims)], dims[OwnDims(ty)..], c[OwnDims(ty)..]);
      StreamOfElem(ty, v, dims, c);
    }
  }

  lemma {:induction false} StreamOfElem<T>(ty: Type, v: Value<T>, dims: seq<nat>, c: seq<nat>)
    requires !ty.Scalar? && Indexes(ty, v, dims, c) && ElemIndex(ty, c, dims) < |v.elems|
    requires StreamsAt(ty.elem, v.elems[ElemIndex(ty, c, dims)], dims[OwnDims(ty)..], c[OwnDims(ty)..])
    ensures StreamsAt(ty, v, dims, c)
  {
    var n, i := OwnDims(ty), ElemIndex(ty, c, dims);
    ElemPlace(ty, dims, c);
    ElemInside(ty, v, dims, c);
    ElemEntryOf(ty, v, dims, i, RowMajor(dims[n..], c[n..]));
    hide HasDims;
    hide InRange;
    hide RowMajor;
    hide Flat;
    hide ElementAt;
    hide ElemIndex;
    hide OwnDims;
  }

  lemma {:induction false} ScalarStream<T>(ty: Type, v: Value<T>, dims: seq<nat>, c: seq<nat>)
    requires ty.Scalar? && HasDims(ty, v, dims) && InRange(dims, c)
    ensures RowMajor(dims, c) < |Flat(v)| && Flat(v)[RowMajor(dims, c)] == ElementAt(ty, v, dims, c)
  {
  }

  // ----- the loops -----

  /** serialize: a vector advances the output pointer, a multi_array writes at m + i * subsize. */
  method Serialize<T>(ty: Type, v: Value<T>, dims: seq<nat>, m: array<T>, at: nat)
    requires HasDims(ty, v, dims) && at + Product(dims) <= m.Length
    modifies m
    ensures IsPiece(m[..], Flat(v), at) && |Flat(v)| == Product(dims)
    ensures forall j :: 0 <= j < m.Length && !(at <= j < at + Product(dims)) ==> m[j] == old(m[j])
    decreases ty, 1
  {
    FlatSize(ty, v, dims);
    if ty.Scalar? {
      m[at] := v.x;
    } else {
      ElemCount(ty, v, dims);
      FlatAllSize(ty.elem, v.elems, ElemDims(ty, dims));
      SerializeElems(ty, v.elems, ElemDims(ty, dims), m, at);
    }
  }

  method SerializeElems<T>(ty: Type, elems: seq<Value<T>>, subdims: seq<nat>, m: array<T>, at: nat)
    requires !ty.Scalar? && at + Times(|elems|, Product(subdims)) <= m.Length
    requires forall i :: 0 <= i < |elems| ==> HasDims(ty.elem, elems[i], subdims)
    modifies m
    ensures IsPiece(m[..], FlatAll(elems), at)
    ensures forall j :: 0 <= j < m.Length && !(at <= j < at + Times(|elems|, Product(subdims))) ==> m[j] == old(m[j])
    decreases ty, 0
  {
    hide HasDims;
    var subsize := Product(subdims);
    var out := at;
    for i := 0 to |elems|
      invariant out == at + Times(i, subsize) <= at + Times(|elems|, subsize)
      invariant IsPiece(m[..], FlatAll(elems[..i]), at)
      invariant |FlatAll(elems[..i])| == Times(i, subsize)
      invariant forall j :: 0 <= j < m.Length && !(at <= j < out) ==> m[j] == old(m[j])
    {
      TimesLess(i, |elems|, subsize);
      TimesIsMul(i, subsize);
      ghost var before := m[..];
      if ty.Vector? {
        Serialize(ty.elem, elems[i], subdims, m, out);
      } else {
        Serialize(ty.elem, elems[i], subdims, m, at + i * subsize);
      }
      PieceGrows(before, m[..], FlatAll(elems[..i]), Flat(elems[i]), at);
      assert elems[..i + 1][..i] == elems[..i];
      out := out + subsize;
    }
    assert elems[..|elems|] == elems;
  }

  lemma {:induction false} PieceGrows<T>(before: seq<T>, after: seq<T>, x: seq<T>, y: seq<T>, at: nat)
    requires |before| == |after| && IsPiece(before, x, at) && IsPiece(after, y, at + |x|)
    requires forall j :: 0 <= j < |before| && !(at + |x| <= j < at + |x| + |y|) ==> after[j] == before[j]
    ensures IsPiece(after, x + y, at)
  {
  }

  /** prepare: a value with room for dims; None where a multi_array is given too few dimensions
      (an exception) or a vector none at all. */
  function Prepare<T>(ty: Type, dims: seq<nat>, blank: T): Option<Value<T>>
    decreases ty
  {
    match ty
    case Scalar => Some(Leaf(blank))
    case Vector(elem) =>
      if dims == [] then None
      else
        var inner := Prepare(elem, dims[1..], blank);
        if inner.None? then None else Some(Vec(seq(dims[0], _ => inner.value)))
    case Multi(ndim, elem) =>
      if |dims| < ndim then None
      else
        var inner := Prepare(elem, dims[ndim..], blank);
        if inner.None? then None
        else Some(Arr(dims[..ndim], seq(Product(dims[..ndim]), _ => inner.value)))
  }

  lemma {:induction false} PrepareFits<T>(ty: Type, dims: seq<nat>, blank: T)
    requires |dims| == Rank(ty)
    ensures Prepare(ty, dims, blank).Some? && HasDims(ty, Prepare(ty, dims, blank).value, dims)
    decreases ty
  {
    if !ty.Scalar? {
      PrepareFits(ty.elem, ElemDims(ty, dims), blank);
      var v := Prepare(ty, dims, blank).value;
      var inner := Prepare(ty.elem, ElemDims(ty, dims), blank).value;
      assert forall i :: 0 <= i < |v.elems| ==> v.elems[i] == inner;
    }
  }

  /** unserialize: refills a prepared value from the stream. */
  method Unserialize<T>(ty: Type, m: seq<T>, at: nat, dims: seq<nat>, v: Value<T>) returns (w: Value<T>)
    requires HasDims(ty, v, dims) && at + Product(dims) <= |m|
    ensures HasDims(ty, w, dims) && IsPiece(m, Flat(w), at) && |Flat(w)| == Product(dims)
    decreases ty, 1
  {
    if ty.Scalar? {
      assert dims == [];
      w := Leaf(m[at]);
    } else {
      ElemCount(ty, v, dims);
      var elems := UnserializeElems(ty, m, at, ElemDims(ty, dims), v.elems);
      w := if ty.Vector? then Vec(elems) else Arr(v.shape, elems);
      FlatSize(ty, w, dims);
    }
  }

  method UnserializeElems<T>(ty: Type, m: seq<T>, at: nat, nextDims: seq<nat>, prepared: seq<Value<T>>)
    returns (elems: seq<Value<T>>)
    requires !ty.Scalar? && at + Times(|prepared|, Product(nextDims)) <= |m|
    requires forall i :: 0 <= i < |prepared| ==> HasDims(ty.elem, prepared[i], nextDims)
    ensures |elems| == |prepared| && forall i :: 0 <= i < |elems| ==> HasDims(ty.elem, elems[i], nextDims)
    ensures IsPiece(m, FlatAll(elems), at)
    decreases ty, 0
  {
    hide HasDims;
    var subsize := Product(nextDims);
    elems := [];
    for i := 0 to |prepared|
      invariant |elems| == i && forall j :: 0 <= j < i ==> HasDims(ty.elem, elems[j], nextDims)
      invariant IsPiece(m, FlatAll(elems), at) && |FlatAll(elems)| == Times(i, subsize)
      invariant at + Times(i, subsize) <= |m|
    {
      TimesLess(i, |prepared|, subsize);
      TimesIsMul(i, subsize);
      var w := Unserialize(ty.elem, m, at + i * subsize, nextDims, prepared[i]);
      PieceGrows(m, m, FlatAll(elems), Flat(w), at);
      assert (elems + [w])[..i] == elems;
      elems := elems + [w];
      if i + 1 < |prepared| { TimesLess(i + 1, |prepared|, subsize); }
    }
  }

  // ----- round trip -----

  lemma {:induction false} FlatAllDecides<T>(ty: Type, vs: seq<Value<T>>, ws: seq<Value<T>>, dims: seq<nat>)
    requires |vs| == |ws| && FlatAll(vs) == FlatAll(ws)
    requires forall i :: 0 <= i < |vs| ==> HasDims(ty, vs[i], dims) && HasDims(ty, ws[i], dims)
    ensures vs == ws
    decreases ty, 1
  {
    forall i | 0 <= i < |vs| ensures vs[i] == ws[i] {
      FlatAllPiece(ty, vs, dims, i);
      FlatAllPiece(ty, ws, dims, i);
      FlatSize(ty, vs[i], dims);
      FlatSize(ty, ws[i], dims);
      PiecesEqual(FlatAll(vs), Flat(vs[i]), Flat(ws[i]), Times(i, Product(dims)));
      FlatDecides(ty, vs[i], ws[i], dims);
    }
  }

  /** Dimensions and stream determine the value. */
  lemma {:induction false} FlatDecides<T>(ty: Type, v: Value<T>, w: Value<T>, dims: seq<nat>)
    requires HasDims(ty, v, dims) && HasDims(ty, w, dims) && Flat(v) == Flat(w)
    ensures v == w
    decreases ty, 0
  {
    if ty.Scalar? {
      assert Flat(v)[0] == Flat(w)[0];
    } else {
      ElemCount(ty, v, dims);
      ElemCount(ty, w, dims);
      FlatAllDecides(ty.elem, v.elems, w.elems, ElemDims(ty, dims));
    }
  }

  ghost predicate Rectangular<T>(ty: Type, v: Value<T>) {
    exists dims :: HasDims(ty, v, dims)
  }

  lemma {:induction false} DimensionsRank<T>(ty: Type, v: Value<T>)
    requires Typed(ty, v) && Dimensions(ty, v).Some?
    ensures |Dimensions(ty, v).value| == Rank(ty)
    decreases ty
  {
    if !ty.Scalar? && v.elems != [] && !(ty.Multi? && ty.elem.Scalar?) {
      DimensionsRank(ty.elem, v.elems[0]);
    }
  }

  /** Two values of the same dimensions have all dimensions in common, even where an empty
      container leaves the inner ones open. */
  lemma {:induction false} SameShape<T>(ty: Type, v: Value<T>, w: Value<T>, dims: seq<nat>, other: seq<nat>)
    requires HasDims(ty, v, dims) && HasDims(ty, w, dims) && HasDims(ty, v, other)
    ensures HasDims(ty, w, other)
    decreases ty
  {
    if !ty.Scalar? {
      forall i | 0 <= i < |w.elems| ensures HasDims(ty.elem, w.elems[i], ElemDims(ty, other)) {
        SameShape(ty.elem, v.elems[i], w.elems[i], ElemDims(ty, dims), ElemDims(ty, other));
      }
    }
  }

  /** What getDimensions reports fits a rectangular value. */
  lemma {:induction false} DimensionsFit<T>(ty: Type, v: Value<T>, dims: seq<nat>)
    requires HasDims(ty, v, dims) && Dimensions(ty, v).Some?
    ensures HasDims(ty, v, Dimensions(ty, v).value)
    decreases ty
  {
    var d := Dimensions(ty, v).value;
    if !ty.Scalar? && v.elems != [] && !(ty.Multi? && ty.elem.Scalar?) {
      DimensionsFit(ty.elem, v.elems[0], ElemDims(ty, dims));
      var inner := Dimensions(ty.elem, v.elems[0]).value;
      assert |inner| == Rank(ty.elem);
      assert ElemDims(ty, d) == inner;
      forall i | 0 <= i < |v.elems| ensures HasDims(ty.elem, v.elems[i], inner) {
        SameShape(ty.elem, v.elems[0], v.elems[i], ElemDims(ty, dims), inner);
      }
      if ty.Multi? { assert d[..ty.ndim] == v.shape; }
    } else if ty.Multi? {
      assert d[..ty.ndim] == v.shape && d[ty.ndim..] == dims[ty.ndim..];
    }
  }

  /** Writing a value and reading it into a fresh one gives the value back, for every nesting and
      every rectangular value whose dimensions the source can determine. */
  method WriteThenRead<T(0)>(ty: Type, v: Value<T>, blank: T) returns (w: Option<Value<T>>)
    requires Rectangular(ty, v)
    ensures w.Some? <==> Dimensions(ty, v).Some?
    ensures w.Some? ==> w.value == v
  {
    var d := Dimensions(ty, v);
    if d.None? {
      return None;
    }
    ghost var dims :| HasDims(ty, v, dims);
    DimensionsFit(ty, v, dims);
    var m := new T[Product(d.value)];
    Serialize(ty, v, d.value, m, 0);
    var prepared := Prepare(ty, d.value, blank);
    PrepareFits(ty, d.value, blank);
    var r := Unserialize(ty, m[..], 0, d.value, prepared.value);
    PiecesEqual(m[..], Flat(v), Flat(r), 0);
    FlatDecides(ty, v, r, d.value);
    w := Some(r);
  }

  // ----- where getDimensions is defined -----

  /** Going down along first elements, a multi_array of containers turns up that is empty. */
  ghost predicate MeetsEmptyArray<T>(ty: Type, v: Value<T>)
    requires Typed(ty, v)
    decreases ty
  {
    !ty.Scalar? &&
    if v.elems == [] then ty.Multi? && !ty.elem.Scalar? else MeetsEmptyArray(ty.elem, v.elems[0])
  }

  /** Exactly then getDimensions reads an element that is not there. */
  lemma {:induction false} DimensionsUndefinedIff<T>(ty: Type, v: Value<T>)
    requires Typed(ty, v)
    ensures Dimensions(ty, v).None? <==> MeetsEmptyArray(ty, v)
    decreases ty
  {
    if !ty.Scalar? && v.elems != [] {
      DimensionsUndefinedIff(ty.elem, v.elems[0]);
    }
  }
}
