/** h5cpp's pointer write and read: which coordinates they select, and when the two agree. */
module Hyperslab {
  import opened Common
  import opened Arith
  import opened Dims

  datatype Slab = Slab(offset: seq<nat>, stride: seq<nat>, count: seq<nat>, block: seq<nat>)

  // ----- HDF5's meaning of a selection -----

  /** Position t of blocks of b positions, s apart, from o on. */
  function Position(o: nat, s: nat, b: nat, t: nat): nat
    requires b > 0
  {
    o + Times(t / b, s) + t % b
  }

  /** One dimension: count blocks of block positions, stride apart. */
  function Axis(o: nat, s: nat, c: nat, b: nat): (a: seq<nat>)
    ensures |a| == Times(c, b)
  {
    seq(Times(c, b), t requires 0 <= t < Times(c, b) =>
      BlockIsNotEmpty(c, b);
      Position(o, s, b, t))
  }

  lemma {:induction false} BlockIsNotEmpty(c: nat, b: nat)
    ensures Times(c, b) > 0 ==> b > 0
  {
    TimesIsMul(c, b);
  }

  /** The positions of every dimension. */
  function Axes(h: Slab): (axes: seq<seq<nat>>)
    requires SameRank(h)
  {
    seq(|h.count|, d requires 0 <= d < |h.count| => Axis(h.offset[d], h.stride[d], h.count[d], h.block[d]))
  }

  predicate SameRank(h: Slab) {
    |h.offset| == |h.stride| == |h.block| == |h.count|
  }

  function Size(axes: seq<seq<nat>>): nat {
    if axes == [] then 1 else Times(|axes[0]|, Size(axes[1..]))
  }

  /** The i-th coordinates of the grid, the last dimension running fastest. */
  function CoordinatesAt(axes: seq<seq<nat>>, i: nat): (c: seq<nat>)
    requires i < Size(axes)
    ensures |c| == |axes|
  {
    if axes == [] then []
    else
      var rest := Size(axes[1..]);
      SplitIndex(i, |axes[0]|, rest);
      [axes[0][i / rest]] + CoordinatesAt(axes[1..], i % rest)
  }

  lemma {:induction false} SplitIndex(i: nat, n: nat, m: nat)
    requires i < Times(n, m)
    ensures m > 0 && i / m < n && i % m < m && i == Times(i / m, m) + i % m
  {
    TimesIsMul(n, m);
    TimesDivModDef(i, m);
    if n < i / m { TimesLess(n, i / m, m); }
  }

  function Grid(axes: seq<seq<nat>>): (g: seq<seq<nat>>)
    ensures |g| == Size(axes)
  {
    seq(Size(axes), i requires 0 <= i < Size(axes) => CoordinatesAt(axes, i))
  }

  /** The selected coordinates, in the order in which elements are transferred. */
  function Selected(h: Slab): seq<seq<nat>>
    requires SameRank(h)
  {
    Grid(Axes(h))
  }

  /** Selections HDF5 accepts: strides of at least 1 and no overlapping blocks. */
  predicate Legal(h: Slab) {
    SameRank(h) && forall d :: 0 <= d < |h.count| ==>
      h.stride[d] >= 1 && (h.count[d] > 1 ==> h.stride[d] >= h.block[d])
  }

  // ----- what a grid holds, and in which order -----

  ghost predicate OnAxes(axes: seq<seq<nat>>, c: seq<nat>) {
    |c| == |axes| && forall d :: 0 <= d < |c| ==> c[d] in axes[d]
  }

  lemma {:induction false} GridHolds(axes: seq<seq<nat>>, c: seq<nat>)
    ensures c in Grid(axes) <==> OnAxes(axes, c)
  {
    if c in Grid(axes) {
      var i :| 0 <= i < Size(axes) && CoordinatesAt(axes, i) == c;
      CoordinatesOnAxes(axes, i);
    }
    if OnAxes(axes, c) {
      var i := IndexOf(axes, c);
      assert Grid(axes)[i] == c;
    }
  }

  lemma {:induction false} CoordinatesOnAxes(axes: seq<seq<nat>>, i: nat)
    requires i < Size(axes)
    ensures OnAxes(axes, CoordinatesAt(axes, i))
  {
    if axes != [] {
      var rest := Size(axes[1..]);
      SplitIndex(i, |axes[0]|, rest);
      CoordinatesOnAxes(axes[1..], i % rest);
    }
  }

  lemma {:induction false} IndexOf(axes: seq<seq<nat>>, c: seq<nat>) returns (i: nat)
    requires OnAxes(axes, c)
    ensures i < Size(axes) && CoordinatesAt(axes, i) == c
  {
    if axes == [] {
      i := 0;
    } else {
      var rest := Size(axes[1..]);
      var j := IndexOf(axes[1..], c[1..]);
      var t :| 0 <= t < |axes[0]| && axes[0][t] == c[0];
      i := GridStep(axes, t, j);
    }
  }

  /** Where the grid of the inner dimensions appears under position t of the outermost one. */
  lemma {:induction false} GridStep(axes: seq<seq<nat>>, t: nat, j: nat) returns (i: nat)
    requires axes != [] && t < |axes[0]| && j < Size(axes[1..])
    ensures i == Times(t, Size(axes[1..])) + j && i < Size(axes)
    ensures CoordinatesAt(axes, i) == [axes[0][t]] + CoordinatesAt(axes[1..], j)
  {
    var rest := Size(axes[1..]);
    i := Times(t, rest) + j;
    TimesLess(t, |axes[0]|, rest);
    TimesDivMod(t, j, rest);
  }

  ghost predicate Increasing(a: seq<nat>) {
    forall t, u :: 0 <= t < u < |a| ==> a[t] < a[u]
  }

  lemma {:induction false} AxisIncreasing(o: nat, s: nat, c: nat, b: nat)
    requires c > 1 ==> s >= b
    ensures Increasing(Axis(o, s, c, b))
  {
    forall t, u | 0 <= t < u < Times(c, b) ensures Axis(o, s, c, b)[t] < Axis(o, s, c, b)[u] {
      SplitIndex(t, c, b);
      SplitIndex(u, c, b);
      if t / b < u / b {
        TimesLess(t / b, u / b, s);
      } else if u / b < t / b {
        TimesLess(u / b, t / b, b);
      }
    }
  }

  /** With increasing axes inside the extent, the grid runs through strictly increasing row-major
      positions: nothing is selected twice, and the transfer order is the order of storage. */
  lemma {:induction false} GridInOrder(axes: seq<seq<nat>>, dims: seq<nat>, i: nat, j: nat)
    requires i < j < Size(axes) && |dims| == |axes|
    requires forall d :: 0 <= d < |axes| ==> Increasing(axes[d])
    requires forall d, t :: 0 <= d < |axes| && 0 <= t < |axes[d]| ==> axes[d][t] < dims[d]
    ensures RowMajor(dims, CoordinatesAt(axes, i)) < RowMajor(dims, CoordinatesAt(axes, j))
  {
    if axes != [] {
      var rest := Size(axes[1..]);
      SplitIndex(i, |axes[0]|, rest);
      SplitIndex(j, |axes[0]|, rest);
      var x, y := CoordinatesAt(axes[1..], i % rest), CoordinatesAt(axes[1..], j % rest);
      if i / rest == j / rest {
        GridInOrder(axes[1..], dims[1..], i % rest, j % rest);
      } else {
        if j / rest < i / rest { TimesLess(j / rest, i / rest, rest); }
        GridInside(axes[1..], dims[1..], i % rest);
        RowMajorBelow(dims[1..], x);
        TimesLess(axes[0][i / rest], axes[0][j / rest], Product(dims[1..]));
      }
    }
  }

  lemma {:induction false} GridInside(axes: seq<seq<nat>>, dims: seq<nat>, i: nat)
    requires i < Size(axes) && |dims| == |axes|
    requires forall d, t :: 0 <= d < |axes| && 0 <= t < |axes[d]| ==> axes[d][t] < dims[d]
    ensures InRange(dims, CoordinatesAt(axes, i))
  {
    CoordinatesOnAxes(axes, i);
    var c := CoordinatesAt(axes, i);
    forall d | 0 <= d < |c| ensures c[d] < dims[d] {
      var t :| 0 <= t < |axes[d]| && axes[d][t] == c[d];
    }
  }

  /** A grid without an empty axis determines its axes. */
  lemma {:induction false} GridDecidesAxes(a: seq<seq<nat>>, b: seq<seq<nat>>)
    requires |a| == |b| && Grid(a) == Grid(b)
    requires forall d :: 0 <= d < |a| ==> |a[d]| == |b[d]| > 0
    ensures a == b
  {
    if a != [] {
      SameSizes(a[1..], b[1..]);
      forall t | 0 <= t < |a[0]| ensures a[0][t] == b[0][t] {
        GridEntry(a, b, t, 0);
      }
      assert a[0] == b[0];
      GridTail(a, b);
      GridDecidesAxes(a[1..], b[1..]);
      assert a == [a[0]] + a[1..] && b == [b[0]] + b[1..];
    }
  }

  lemma {:induction false} GridEntry(a: seq<seq<nat>>, b: seq<seq<nat>>, t: nat, j: nat)
    requires |a| == |b| > 0 && Grid(a) == Grid(b)
    requires t < |a[0]| == |b[0]| && j < Size(a[1..]) == Size(b[1..])
    ensures a[0][t] == b[0][t] && CoordinatesAt(a[1..], j) == CoordinatesAt(b[1..], j)
  {
    var i := GridStep(a, t, j);
    var k := GridStep(b, t, j);
    assert CoordinatesAt(a, i) == Grid(a)[i] == Grid(b)[i] == CoordinatesAt(b, i);
    assert CoordinatesAt(a, i)[1..] == CoordinatesAt(a[1..], j);
    assert CoordinatesAt(b, i)[1..] == CoordinatesAt(b[1..], j);
  }

  lemma {:induction false} GridTail(a: seq<seq<nat>>, b: seq<seq<nat>>)
    requires |a| == |b| > 0 && Grid(a) == Grid(b)
    requires |a[0]| == |b[0]| > 0 && Size(a[1..]) == Size(b[1..])
    ensures Grid(a[1..]) == Grid(b[1..])
  {
    forall j | 0 <= j < Size(a[1..]) ensures Grid(a[1..])[j] == Grid(b[1..])[j] {
      GridEntry(a, b, 0, j);
    }
  }

  lemma {:induction false} SameSizes(a: seq<seq<nat>>, b: seq<seq<nat>>)
    requires |a| == |b| && forall d :: 0 <= d < |a| ==> |a[d]| == |b[d]| > 0
    ensures Size(a) == Size(b) > 0
  {
    if a != [] {
      SameSizes(a[1..], b[1..]);
      TimesLess(0, |a[0]|, Size(a[1..]));
    }
  }

  // ----- what write and read ask HDF5 for -----

  /** The optional arguments; absent ones take zeros for offset and ones for stride and block. */
  datatype Args = Args(offset: Option<seq<nat>>, stride: Option<seq<nat>>, block: Option<seq<nat>>)

  function Fill(x: nat, n: nat): seq<nat> {
    seq(n, _ => x)
  }

  function Or(a: Option<seq<nat>>, x: nat, rank: nat): (r: seq<nat>)
    requires a.Some? ==> |a.value| >= rank
    ensures |r| == rank
  {
    if a.Some? then a.value[..rank] else Fill(x, rank)
  }

  /** Arrays shorter than the dataset's rank would be read past what the caller set. */
  predicate LongEnough(rank: nat, args: Args) {
    && (args.offset.Some? ==> |args.offset.value| >= rank)
    && (args.stride.Some? ==> |args.stride.value| >= rank)
    && (args.block.Some? ==> |args.block.value| >= rank)
  }

  predicate WriteArgs(rank: nat, count: seq<nat>, args: Args) {
    && LongEnough(rank, args)
    && (args.block.Some? ==> |count| >= rank && forall d :: 0 <= d < rank ==> args.block.value[d] > 0)
  }

  /** static_cast<block_t>(count) with the dataset's rank: ones behind the caller's own. */
  function Padded(count: seq<nat>, rank: nat): (p: seq<nat>)
    ensures |p| == rank
  {
    if |count| >= rank then count[..rank] else count + Fill(1, rank - |count|)
  }

  function Quotients(count: seq<nat>, block: seq<nat>, rank: nat): (q: seq<nat>)
    requires |count| >= rank && |block| >= rank && forall d :: 0 <= d < rank ==> block[d] > 0
    ensures |q| == rank
  {
    seq(rank, d requires 0 <= d < rank => count[d] / block[d])
  }

  function WriteSlab(rank: nat, count: seq<nat>, args: Args): (h: Slab)
    requires WriteArgs(rank, count, args)
    ensures SameRank(h) && |h.count| == rank
  {
    var offset, stride := Or(args.offset, 0, rank), Or(args.stride, 1, rank);
    if args.block.Some? then
      Slab(offset, stride, Quotients(count, args.block.value, rank), args.block.value[..rank])
    else
      Slab(offset, stride, Fill(1, rank), Padded(count, rank))
  }

  /** select_hyperslab hands HDF5 the block where it expects the count, and the count as the block. */
  function ReadSlab(count: seq<nat>, args: Args): (h: Slab)
    requires LongEnough(|count|, args)
    ensures SameRank(h) && |h.count| == |count|
  {
    Slab(Or(args.offset, 0, |count|), Or(args.stride, 1, |count|), Or(args.block, 1, |count|), count)
  }

  /** H5Sselect_all. */
  function All(dims: seq<nat>): seq<seq<nat>> {
    Selected(Slab(Fill(0, |dims|), Fill(1, |dims|), dims, Fill(1, |dims|)))
  }

  predicate SelectsAll(args: Args) {
    args.offset.None? && args.stride.None? && args.block.None?
  }

  function WriteSelection(dims: seq<nat>, count: seq<nat>, args: Args): seq<seq<nat>>
    requires WriteArgs(|dims|, count, args)
  {
    if SelectsAll(args) then All(dims) else Selected(WriteSlab(|dims|, count, args))
  }

  predicate Within(dims: seq<nat>, coords: seq<seq<nat>>) {
    forall i :: 0 <= i < |coords| ==> InRange(dims, coords[i])
  }

  /** HDF5 takes the transfer: a legal selection inside the extent, as large as the caller's memory. */
  predicate WriteAccepted(dims: seq<nat>, count: seq<nat>, args: Args)
    requires WriteArgs(|dims|, count, args)
  {
    var coords := WriteSelection(dims, count, args);
    && (SelectsAll(args) || Legal(WriteSlab(|dims|, count, args)))
    && Within(dims, coords) && |coords| == Product(count)
  }

  predicate ReadAccepted(dims: seq<nat>, count: seq<nat>, args: Args)
    requires LongEnough(|count|, args)
  {
    |count| == |dims| && Legal(ReadSlab(count, args)) && Within(dims, Selected(ReadSlab(count, args)))
  }

  /** The dataset after the first n elements of data went to their coordinates. */
  function Scatter<T>(cells: map<seq<nat>, T>, coords: seq<seq<nat>>, data: seq<T>, n: nat): map<seq<nat>, T>
    requires n <= |coords| && n <= |data|
  {
    if n == 0 then cells else Scatter(cells, coords, data, n - 1)[coords[n - 1] := data[n - 1]]
  }

  function Gather<T>(cells: map<seq<nat>, T>, coords: seq<seq<nat>>): seq<T>
    requires forall i :: 0 <= i < |coords| ==> coords[i] in cells
  {
    seq(|coords|, i requires 0 <= i < |coords| => cells[coords[i]])
  }

  // ----- the calls -----

  /** count[i] /= block[i] for every dimension of the dataset. */
  method Normalize(count: array<nat>, block: seq<nat>, rank: nat)
    requires count.Length >= rank && |block| >= rank && forall d :: 0 <= d < rank ==> block[d] > 0
    modifies count
    ensures count[..rank] == Quotients(old(count[..]), block, rank)
    ensures forall d :: rank <= d < count.Length ==> count[d] == old(count[d])
  {
    for i := 0 to rank
      invariant forall d :: 0 <= d < i ==> count[d] == old(count[d]) / block[d]
      invariant forall d :: i <= d < count.Length ==> count[d] == old(count[d])
    {
      count[i] := count[i] / block[i];
    }
  }

  function Products(count: seq<nat>, block: seq<nat>): (p: seq<nat>)
    requires |block| >= |count|
  {
    seq(|count|, d requires 0 <= d < |count| => Times(count[d], block[d]))
  }

  /** size[i] = count[i] * block[i]. */
  method MemorySize(count: seq<nat>, block: seq<nat>) returns (size: array<nat>)
    requires |block| >= |count|
    ensures fresh(size) && size.Length == |count|
    ensures size[..] == Products(count, block)
  {
    size := new nat[|count|];
    for i := 0 to |count|
      invariant forall d :: 0 <= d < i ==> size[d] == Times(count[d], block[d])
    {
      TimesIsMul(count[i], block[i]);
      size[i] := count[i] * block[i];
    }
  }

  datatype ReadResult<T> = Elements(data: seq<T>) | RankMismatch | BadSelection

  class Dataset<T(!new)> {
    const dims: seq<nat>
    var cells: map<seq<nat>, T>

    ghost predicate Valid()
      reads this
    {
      forall c :: c in cells <==> InRange(dims, c)
    }

    constructor (dims: seq<nat>, cells: map<seq<nat>, T>)
      requires forall c :: c in cells <==> InRange(dims, c)
      ensures Valid() && this.dims == dims && this.cells == cells
    {
      this.dims := dims;
      this.cells := cells;
    }

    method Write(data: seq<T>, count: seq<nat>, args: Args) returns (ok: bool)
      requires Valid() && WriteArgs(|dims|, count, args) && |data| == Product(count)
      modifies this
      ensures Valid()
      ensures ok <==> WriteAccepted(dims, count, args)
      ensures ok ==> cells == Scatter(old(cells), WriteSelection(dims, count, args), data, |data|)
      ensures !ok ==> cells == old(cells)
    {
      var rank := |dims|;
      var coords;
      if SelectsAll(args) {
        coords := All(dims);
      } else {
        var offset, stride := Or(args.offset, 0, rank), Or(args.stride, 1, rank);
        var h;
        if args.block.Some? {
          var normalized := new nat[|count|](i requires 0 <= i < |count| => count[i]);
          assert normalized[..] == count;
          Normalize(normalized, args.block.value, rank);
          h := Slab(offset, stride, normalized[..rank], args.block.value[..rank]);
        } else {
          h := Slab(offset, stride, Fill(1, rank), Padded(count, rank));
        }
        if !Legal(h) { return false; }
        coords := Selected(h);
      }
      if !Within(dims, coords) || |coords| != |data| { return false; }
      ScatterKeepsCells(dims, cells, coords, data, |data|);
      cells := Scatter(cells, coords, data, |data|);
      ok := true;
    }

    method Read(count: seq<nat>, args: Args) returns (r: ReadResult<T>)
      requires Valid() && LongEnough(|count|, args)
      ensures r.Elements? <==> ReadAccepted(dims, count, args)
      ensures r.RankMismatch? <==> |count| != |dims|
      ensures r.Elements? ==>
          r.data == Gather(cells, Selected(ReadSlab(count, args))) && |r.data| == Product(Products(count, Or(args.block, 1, |count|)))
    {
      var h := ReadSlab(count, args);
      var size := MemorySize(count, Or(args.block, 1, |count|));
      if |count| != |dims| { return RankMismatch; }
      if !Legal(h) || !Within(dims, Selected(h)) { return BadSelection; }
      SizeSwapped(count, Or(args.block, 1, |count|), size[..], h);
      SelectionSize(h);
      r := Elements(Gather(cells, Selected(h)));
    }
  }

  lemma {:induction false} SizeSwapped(count: seq<nat>, block: seq<nat>, size: seq<nat>, h: Slab)
    requires SameRank(h) && h.count == block && h.block == count && size == Products(count, block)
    ensures SizeOf(h) == size
  {
    forall d | 0 <= d < |count| ensures SizeOf(h)[d] == size[d] {
      TimesIsMul(count[d], block[d]);
      TimesIsMul(block[d], count[d]);
    }
  }

  /** The memory a selection needs. */
  function SizeOf(h: Slab): (size: seq<nat>)
    requires SameRank(h)
    ensures |size| == |h.count|
  {
    seq(|h.count|, d requires 0 <= d < |h.count| => Times(h.count[d], h.block[d]))
  }

  /** A selection has as many elements as that memory. */
  lemma {:induction false} SelectionSize(h: Slab)
    requires SameRank(h)
    ensures |Selected(h)| == Product(SizeOf(h))
  {
    SizeIsProduct(Axes(h), SizeOf(h));
  }

  lemma {:induction false} SizeIsProduct(axes: seq<seq<nat>>, sizes: seq<nat>)
    requires |sizes| == |axes| && forall d :: 0 <= d < |axes| ==> |axes[d]| == sizes[d]
    ensures Size(axes) == Product(sizes)
  {
    if axes != [] { SizeIsProduct(axes[1..], sizes[1..]); }
  }

  lemma {:induction false} ScatterKeepsCells<T>(dims: seq<nat>, cells: map<seq<nat>, T>, coords: seq<seq<nat>>, data: seq<T>, n: nat)
    requires n <= |coords| && n <= |data| && Within(dims, coords)
    requires forall c :: c in cells <==> InRange(dims, c)
    ensures forall c :: c in Scatter(cells, coords, data, n) <==> InRange(dims, c)
  {
    if n > 0 { ScatterKeepsCells(dims, cells, coords, data, n - 1); }
  }

  // ----- selections in order -----

  /** A coordinate is selected exactly when in each dimension it lies in one of the count blocks. */
  lemma {:induction false} SelectedIff(h: Slab, c: seq<nat>)
    requires SameRank(h)
    ensures c in Selected(h) <==>
        |c| == |h.count| && forall d :: 0 <= d < |c| ==> InBlocks(h.offset[d], h.stride[d], h.count[d], h.block[d], c[d])
  {
    GridHolds(Axes(h), c);
    if |c| == |h.count| {
      forall d | 0 <= d < |c|
        ensures c[d] in Axes(h)[d] <==> InBlocks(h.offset[d], h.stride[d], h.count[d], h.block[d], c[d])
      {
        AxisHolds(h.offset[d], h.stride[d], h.count[d], h.block[d], c[d]);
      }
    }
  }

  ghost predicate InBlocks(o: nat, s: nat, c: nat, b: nat, x: nat) {
    exists k :: 0 <= k < c && InBlock(o, s, b, x, k)
  }

  ghost predicate InBlock(o: nat, s: nat, b: nat, x: nat, k: nat) {
    o + Times(k, s) <= x < o + Times(k, s) + b
  }

  lemma {:induction false} AxisHolds(o: nat, s: nat, c: nat, b: nat, x: nat)
    ensures x in Axis(o, s, c, b) <==> InBlocks(o, s, c, b, x)
  {
    if x in Axis(o, s, c, b) {
      var t :| 0 <= t < Times(c, b) && Axis(o, s, c, b)[t] == x;
      SplitIndex(t, c, b);
      assert InBlock(o, s, b, x, t / b);
    }
    if InBlocks(o, s, c, b, x) {
      var k :| 0 <= k < c && InBlock(o, s, b, x, k);
      AxisAt(o, s, c, b, k, x - o - Times(k, s));
    }
  }

  lemma {:induction false} AxisAt(o: nat, s: nat, c: nat, b: nat, k: nat, j: nat)
    requires k < c && j < b
    ensures Times(k, b) + j < |Axis(o, s, c, b)| && Axis(o, s, c, b)[Times(k, b) + j] == o + Times(k, s) + j
  {
    TimesLess(k, c, b);
    TimesDivMod(k, j, b);
  }

  lemma {:induction false} WithinAxes(axes: seq<seq<nat>>, dims: seq<nat>, d: nat, t: nat)
    requires |dims| == |axes| && Size(axes) > 0 && Within(dims, Grid(axes))
    requires d < |axes| && t < |axes[d]|
    ensures axes[d][t] < dims[d]
  {
    var first := CoordinatesAt(axes, 0);
    CoordinatesOnAxes(axes, 0);
    var c := first[d := axes[d][t]];
    assert OnAxes(axes, c);
    GridHolds(axes, c);
    assert InRange(dims, c);
  }

  /** Elements are transferred in the order of their places in the dataset, none of them twice. */
  lemma {:induction false} SelectedInOrder(h: Slab, dims: seq<nat>, i: nat, j: nat)
    requires Legal(h) && |dims| == |h.count| && Within(dims, Selected(h)) && i < j < |Selected(h)|
    ensures RowMajor(dims, Selected(h)[i]) < RowMajor(dims, Selected(h)[j])
  {
    var axes := Axes(h);
    forall d | 0 <= d < |axes| ensures Increasing(axes[d]) {
      AxisIncreasing(h.offset[d], h.stride[d], h.count[d], h.block[d]);
    }
    forall d, t | 0 <= d < |axes| && 0 <= t < |axes[d]| ensures axes[d][t] < dims[d] {
      WithinAxes(axes, dims, d, t);
    }
    GridInOrder(axes, dims, i, j);
  }

  /** Selecting everything takes element k from row-major place k. */
  lemma {:induction false} AllInOrder(dims: seq<nat>, k: nat)
    requires k < Product(dims)
    ensures |All(dims)| == Product(dims)
    ensures InRange(dims, All(dims)[k]) && RowMajor(dims, All(dims)[k]) == k
  {
    var h := Slab(Fill(0, |dims|), Fill(1, |dims|), dims, Fill(1, |dims|));
    AllSize(dims);
    forall d | 0 <= d < |dims| ensures |Axes(h)[d]| == dims[d] && forall t :: 0 <= t < dims[d] ==> Axes(h)[d][t] == t {
      UnitAxis(0, dims[d]);
    }
    FullGrid(Axes(h), dims, k);
  }

  lemma {:induction false} AllSize(dims: seq<nat>)
    ensures |All(dims)| == Product(dims)
  {
    var h := Slab(Fill(0, |dims|), Fill(1, |dims|), dims, Fill(1, |dims|));
    SelectionSize(h);
    forall d | 0 <= d < |dims| ensures SizeOf(h)[d] == dims[d] { TimesIsMul(dims[d], 1); }
    assert SizeOf(h) == dims;
  }

  lemma {:induction false} UnitAxis(o: nat, n: nat)
    ensures |Axis(o, 1, n, 1)| == n && forall t :: 0 <= t < n ==> Axis(o, 1, n, 1)[t] == o + t
  {
    TimesIsMul(n, 1);
    forall t | 0 <= t < n ensures Axis(o, 1, n, 1)[t] == o + t { TimesIsMul(t, 1); }
  }

  lemma {:induction false} FullGrid(axes: seq<seq<nat>>, dims: seq<nat>, k: nat)
    requires |axes| == |dims| && k < Product(dims)
    requires forall d :: 0 <= d < |dims| ==> |axes[d]| == dims[d] && forall t :: 0 <= t < dims[d] ==> axes[d][t] == t
    ensures Size(axes) == Product(dims) && InRange(dims, CoordinatesAt(axes, k))
    ensures RowMajor(dims, CoordinatesAt(axes, k)) == k
  {
    SizeIsProduct(axes, dims);
    if axes != [] {
      var rest := Size(axes[1..]);
      SizeIsProduct(axes[1..], dims[1..]);
      SplitIndex(k, |axes[0]|, rest);
      FullGrid(axes[1..], dims[1..], k % rest);
    }
  }

  // ----- when write and read agree -----

  /** The count with which a read asks for what a write with `count` wrote. */
  function ReadCount(rank: nat, count: seq<nat>, args: Args): (r: seq<nat>)
    requires WriteArgs(rank, count, args)
    ensures |r| == rank
  {
    if args.block.Some? then Quotients(count, args.block.value, rank) else Padded(count, rank)
  }

  /** k blocks of b positions, and b blocks of k positions. */
  predicate SwapAgrees(s: nat, k: nat, b: nat) {
    k == b || ((k == 1 || b == 1) && s == 1)
  }

  /** With blocks of several positions in both, the strides would have to be both block lengths. */
  lemma {:induction false} SwapDiffers(o: nat, s: nat, k: nat, b: nat)
    requires 2 <= k < b
    ensures Axis(o, s, k, b) != Axis(o, s, b, k)
  {
    var x, y := Axis(o, s, k, b), Axis(o, s, b, k);
    AxisAt(o, s, k, b, 0, k);
    AxisAt(o, s, b, k, 1, 0);
    TimesIsMul(1, s);
    TimesIsMul(1, k);
    TimesIsMul(1, b);
    assert x[k] == o + k && y[k] == o + s;
    if s == k {
      AxisAt(o, s, k, b, 1, 0);
      assert x[b] == o + s;
      TimesIsMul(b, k);
      TimesIsMul(k, b);
      TimesLess(1, k, b);
      BlocksTouch(o, k, b, b);
      assert y[b] == o + b;
    }
  }

  /** Blocks that touch are one run of positions. */
  lemma {:induction false} BlocksTouch(o: nat, k: nat, c: nat, t: nat)
    requires k > 0 && t < Times(c, k)
    ensures Axis(o, k, c, k)[t] == o + t
  {
    SplitIndex(t, c, k);
  }

  lemma {:induction false} AxisSwaps(o: nat, s: nat, k: nat, b: nat)
    requires k > 0 && b > 0
    ensures |Axis(o, s, k, b)| == |Axis(o, s, b, k)| > 0
    ensures Axis(o, s, k, b) == Axis(o, s, b, k) <==> SwapAgrees(s, k, b)
  {
    TimesIsMul(k, b);
    TimesIsMul(b, k);
    TimesLess(0, k, b);
    if k == b {
    } else if k == 1 {
      AxisForms(o, s, b);
    } else if b == 1 {
      AxisForms(o, s, k);
    } else if k < b {
      SwapDiffers(o, s, k, b);
    } else {
      SwapDiffers(o, s, b, k);
    }
  }

  /** The same arguments select the same: nothing at all, or alike in every dimension. */
  ghost predicate SwapHarmless(stride: seq<nat>, count: seq<nat>, block: seq<nat>)
    requires |stride| == |count| == |block|
  {
    (exists d :: 0 <= d < |count| && count[d] == 0) || forall d :: 0 <= d < |count| ==> SwapAgrees(stride[d], count[d], block[d])
  }

  function Swapped(h: Slab): Slab {
    h.(count := h.block, block := h.count)
  }

  lemma {:induction false} SelectedSwapsIff(h: Slab)
    requires SameRank(h) && forall d :: 0 <= d < |h.block| ==> h.block[d] > 0
    ensures Selected(h) == Selected(Swapped(h)) <==> SwapHarmless(h.stride, h.count, h.block)
  {
    var a, b := Axes(h), Axes(Swapped(h));
    if d :| 0 <= d < |h.count| && h.count[d] == 0 {
      TimesIsMul(h.block[d], 0);
      EmptyAxis(a, d);
      EmptyAxis(b, d);
      assert Grid(a) == Grid(b);
    } else {
      forall d | 0 <= d < |a|
        ensures |a[d]| == |b[d]| > 0 && (a[d] == b[d] <==> SwapAgrees(h.stride[d], h.count[d], h.block[d]))
      {
        AxisSwaps(h.offset[d], h.stride[d], h.count[d], h.block[d]);
      }
      hide Axis;
      hide SwapAgrees;
      if Grid(a) == Grid(b) { GridDecidesAxes(a, b); } else { assert a != b; }
    }
  }

  /** A write without a block and the read with its count select the same, since both ask for one
      block; with blocks of b, a write of k blocks and the read of count k select the same exactly if
      the swap is harmless. */
  lemma {:induction false} SelectionsAgreeIff(rank: nat, count: seq<nat>, args: Args)
    requires WriteArgs(rank, count, args)
    ensures Selected(WriteSlab(rank, count, args)) == Selected(ReadSlab(ReadCount(rank, count, args), args))
        <==> args.block.None? ||
             SwapHarmless(Or(args.stride, 1, rank), Quotients(count, args.block.value, rank), args.block.value[..rank])
  {
    var h := WriteSlab(rank, count, args);
    if args.block.Some? {
      SelectedSwapsIff(h);
      assert ReadSlab(ReadCount(rank, count, args), args) == Swapped(h);
    } else {
      assert ReadSlab(ReadCount(rank, count, args), args) == h;
    }
  }

  lemma {:induction false} AxisForms(o: nat, s: nat, n: nat)
    ensures |Axis(o, s, 1, n)| == n && |Axis(o, s, n, 1)| == n
    ensures Axis(o, s, 1, n) == Axis(o, s, n, 1) <==> n <= 1 || s == 1
  {
    TimesIsMul(1, n);
    TimesIsMul(n, 1);
    var a, b := Axis(o, s, 1, n), Axis(o, s, n, 1);
    forall t | 0 <= t < n ensures a[t] == o + t && b[t] == o + Times(t, s) {
      DivModUnique(0, t, n);
    }
    if n > 1 && s != 1 {
      TimesIsMul(1, s);
      assert a[1] != b[1];
    }
    if s == 1 {
      forall t | 0 <= t < n ensures a[t] == b[t] { TimesIsMul(t, 1); }
    }
  }

  lemma {:induction false} EmptyAxis(axes: seq<seq<nat>>, d: nat)
    requires d < |axes| && axes[d] == []
    ensures Size(axes) == 0
  {
    if d > 0 {
      EmptyAxis(axes[1..], d - 1);
      TimesIsMul(|axes[0]|, 0);
    }
  }

  // ----- the size HDF5 compares -----

  /** A write of the dataset's rank with a block passes HDF5's size check exactly when every block
      divides its count, or nothing is written at all; without a block it always does. */
  lemma {:induction false} WriteSizeIff(rank: nat, count: seq<nat>, args: Args)
    requires WriteArgs(rank, count, args) && |count| == rank
    ensures |Selected(WriteSlab(rank, count, args))| == Product(count)
        <==> args.block.None? || Product(count) == 0 || forall d :: 0 <= d < rank ==> count[d] % args.block.value[d] == 0
  {
    var h := WriteSlab(rank, count, args);
    SelectionSize(h);
    if args.block.None? {
      forall d | 0 <= d < rank ensures SizeOf(h)[d] == count[d] { TimesIsMul(1, count[d]); }
      assert SizeOf(h) == count;
    } else {
      forall d | 0 <= d < rank
        ensures SizeOf(h)[d] <= count[d] && (SizeOf(h)[d] == count[d] <==> count[d] % args.block.value[d] == 0)
      {
        TimesDivModDef(count[d], args.block.value[d]);
      }
      SmallerSizes(SizeOf(h), count);
    }
  }

  lemma {:induction false} SmallerSizes(a: seq<nat>, b: seq<nat>)
    requires |a| == |b| && forall d :: 0 <= d < |a| ==> a[d] <= b[d]
    ensures Product(a) <= Product(b)
    ensures Product(a) == Product(b) <==> a == b || Product(b) == 0
  {
    if a != [] {
      SmallerSizes(a[1..], b[1..]);
      var p, q := Product(a[1..]), Product(b[1..]);
      TimesIsMul(a[0], p);
      TimesIsMul(b[0], q);
      TimesIsMul(a[0], q);
      TimesGrows(a[0], p, q);
      if a[0] < b[0] { TimesLess(a[0], b[0], q); }
      assert a == [a[0]] + a[1..] && b == [b[0]] + b[1..];
    }
  }

  lemma {:induction false} TimesGrows(k: nat, p: nat, q: nat)
    requires p <= q
    ensures Times(k, p) <= Times(k, q)
    ensures Times(k, p) == Times(k, q) <==> p == q || k == 0
  {
    if k > 0 { TimesGrows(k - 1, p, q); }
  }

  // ----- round trip -----

  ghost predicate Distinct(coords: seq<seq<nat>>) {
    forall i, j :: 0 <= i < j < |coords| ==> coords[i] != coords[j]
  }

  lemma {:induction false} ScatterAt<T>(cells: map<seq<nat>, T>, coords: seq<seq<nat>>, data: seq<T>, n: nat)
    requires Distinct(coords) && n <= |coords| == |data|
    ensures forall i :: 0 <= i < n ==> coords[i] in Scatter(cells, coords, data, n)
    ensures forall i :: 0 <= i < n ==> Scatter(cells, coords, data, n)[coords[i]] == data[i]
  {
    if n > 0 { ScatterAt(cells, coords, data, n - 1); }
  }

  lemma {:induction false} ScatterElsewhere<T>(cells: map<seq<nat>, T>, coords: seq<seq<nat>>, data: seq<T>, n: nat, c: seq<nat>)
    requires n <= |coords| == |data| && c in cells && c !in coords
    ensures c in Scatter(cells, coords, data, n) && Scatter(cells, coords, data, n)[c] == cells[c]
  {
    if n > 0 { ScatterElsewhere(cells, coords, data, n - 1, c); }
  }

  lemma {:induction false} SelectionDistinct(h: Slab, dims: seq<nat>)
    requires Legal(h) && |dims| == |h.count| && Within(dims, Selected(h))
    ensures Distinct(Selected(h))
  {
    forall i, j | 0 <= i < j < |Selected(h)| ensures Selected(h)[i] != Selected(h)[j] {
      SelectedInOrder(h, dims, i, j);
    }
  }

  lemma {:induction false} AllWithin(dims: seq<nat>)
    ensures Within(dims, All(dims)) && Distinct(All(dims))
  {
    AllSize(dims);
    forall k | 0 <= k < |All(dims)| ensures InRange(dims, All(dims)[k]) { AllInOrder(dims, k); }
    SelectionDistinct(Slab(Fill(0, |dims|), Fill(1, |dims|), dims, Fill(1, |dims|)), dims);
  }

  // ----- what the matching read returns -----

  ghost predicate Full<T>(dims: seq<nat>, cells: map<seq<nat>, T>) {
    forall c :: c in cells <==> InRange(dims, c)
  }

  function Written<T>(dims: seq<nat>, cells: map<seq<nat>, T>, data: seq<T>, count: seq<nat>, args: Args): map<seq<nat>, T>
    requires WriteArgs(|dims|, count, args) && WriteAccepted(dims, count, args) && |data| == Product(count)
  {
    Scatter(cells, WriteSelection(dims, count, args), data, |data|)
  }

  /** The matching read is accepted and returns what was written. */
  ghost predicate ReadsBack<T>(dims: seq<nat>, cells: map<seq<nat>, T>, data: seq<T>, count: seq<nat>, args: Args)
    requires WriteArgs(|dims|, count, args) && WriteAccepted(dims, count, args) && |data| == Product(count)
  {
    var n := ReadCount(|dims|, count, args);
    var after := Written(dims, cells, data, count, args);
    && ReadAccepted(dims, n, args)
    && (forall i :: 0 <= i < |Selected(ReadSlab(n, args))| ==> Selected(ReadSlab(n, args))[i] in after)
    && Gather(after, Selected(ReadSlab(n, args))) == data
  }

  /** What the caller has to check before a write to be able to read it back with the same arguments. */
  ghost predicate ReadableBack(dims: seq<nat>, count: seq<nat>, args: Args)
    requires WriteArgs(|dims|, count, args)
  {
    var n, rank := ReadCount(|dims|, count, args), |dims|;
    if SelectsAll(args) then n == dims || Product(n) == Product(dims) == 0
    else args.block.None? ||
         (Legal(ReadSlab(n, args)) && SwapHarmless(Or(args.stride, 1, rank), n, args.block.value[..rank]))
  }

  lemma {:induction false} AllHolds(dims: seq<nat>, c: seq<nat>)
    ensures c in All(dims) <==> InRange(dims, c)
  {
    var h := Slab(Fill(0, |dims|), Fill(1, |dims|), dims, Fill(1, |dims|));
    GridHolds(Axes(h), c);
    forall d | 0 <= d < |dims| && d < |c| ensures c[d] in Axes(h)[d] <==> c[d] < dims[d] {
      UnitAxis(0, dims[d]);
      if c[d] < dims[d] { assert Axis(0, 1, dims[d], 1)[c[d]] == c[d]; }
    }
  }

  /** Reading n from the origin reads everything in an array of dimensions n. */
  lemma {:induction false} ReadFromOrigin(n: seq<nat>, args: Args)
    requires SelectsAll(args)
    ensures Selected(ReadSlab(n, args)) == All(n) && Legal(ReadSlab(n, args))
  {
    var h := Slab(Fill(0, |n|), Fill(1, |n|), n, Fill(1, |n|));
    assert ReadSlab(n, args) == Swapped(h);
    forall d | 0 <= d < |n| ensures Axes(h)[d] == Axes(Swapped(h))[d] { AxisForms(0, 1, n[d]); }
    assert Axes(h) == Axes(Swapped(h));
  }

  /** All of n lies within dims: then n is no larger, unless it is empty. */
  lemma {:induction false} AllInside(n: seq<nat>, dims: seq<nat>)
    requires |n| == |dims| && Within(dims, All(n)) && Product(n) > 0
    ensures forall d :: 0 <= d < |n| ==> n[d] <= dims[d]
  {
    AllSize(n);
    var h := Slab(Fill(0, |n|), Fill(1, |n|), n, Fill(1, |n|));
    forall d | 0 <= d < |n| ensures n[d] <= dims[d] {
      UnitAxis(0, n[d]);
      if n[d] > 0 { WithinAxes(Axes(h), dims, d, n[d] - 1); }
    }
  }

  /** Of a write that names no selection, the matching read selects the same exactly if it reads all. */
  lemma {:induction false} WholeReadIff(dims: seq<nat>, count: seq<nat>, args: Args)
    requires WriteArgs(|dims|, count, args) && WriteAccepted(dims, count, args) && SelectsAll(args)
    ensures (ReadAccepted(dims, Padded(count, |dims|), args) && Selected(ReadSlab(Padded(count, |dims|), args)) == All(dims))
        <==> ReadableBack(dims, count, args)
  {
    var n := Padded(count, |dims|);
    ReadFromOrigin(n, args);
    AllSize(n);
    AllSize(dims);
    if n == dims {
      AllWithin(dims);
    } else if Product(n) == Product(dims) == 0 {
      assert All(n) == [] == All(dims);
    } else if Within(dims, All(n)) && All(n) == All(dims) {
      AllInside(n, dims);
      SmallerSizes(n, dims);
      assert false;
    }
  }

  /** Of any other accepted write the matching read is accepted and selects the same exactly then. */
  lemma {:induction false} PartReadIff(dims: seq<nat>, count: seq<nat>, args: Args)
    requires WriteArgs(|dims|, count, args) && WriteAccepted(dims, count, args) && !SelectsAll(args)
    ensures var n := ReadCount(|dims|, count, args);
            (ReadAccepted(dims, n, args) && Selected(ReadSlab(n, args)) == WriteSelection(dims, count, args)
             <==> ReadableBack(dims, count, args))
  {
    SelectionsAgreeIff(|dims|, count, args);
    if args.block.None? {
      assert ReadSlab(ReadCount(|dims|, count, args), args) == WriteSlab(|dims|, count, args);
    }
    hide Selected;
    hide Legal;
    hide SwapHarmless;
  }

  /** A harmless swap of a legal selection that is not empty is legal. */
  lemma {:induction false} HarmlessIsLegal(h: Slab)
    requires Legal(h) && SwapHarmless(h.stride, h.count, h.block) && forall d :: 0 <= d < |h.count| ==> h.count[d] > 0
    ensures Legal(Swapped(h))
  {
  }

  lemma {:induction false} WriteSelectionDistinct(dims: seq<nat>, count: seq<nat>, args: Args)
    requires WriteArgs(|dims|, count, args) && WriteAccepted(dims, count, args)
    ensures Distinct(WriteSelection(dims, count, args))
  {
    if SelectsAll(args) { AllWithin(dims); } else { SelectionDistinct(WriteSlab(|dims|, count, args), dims); }
  }

  lemma {:induction false} SameSelectionIff(dims: seq<nat>, count: seq<nat>, args: Args)
    requires WriteArgs(|dims|, count, args) && WriteAccepted(dims, count, args)
    ensures var n := ReadCount(|dims|, count, args);
            (ReadAccepted(dims, n, args) && Selected(ReadSlab(n, args)) == WriteSelection(dims, count, args)
             <==> ReadableBack(dims, count, args))
  {
    if SelectsAll(args) { WholeReadIff(dims, count, args); } else { PartReadIff(dims, count, args); }
  }

  /** The matching read finds what an accepted write wrote, and everything else is as it was. */
  lemma {:induction false} ReadBack<T>(dims: seq<nat>, cells: map<seq<nat>, T>, data: seq<T>, count: seq<nat>, args: Args)
    requires WriteArgs(|dims|, count, args) && WriteAccepted(dims, count, args) && |data| == Product(count)
    requires ReadableBack(dims, count, args)
    ensures ReadsBack(dims, cells, data, count, args)
    ensures var after := Written(dims, cells, data, count, args);
            forall c :: c in cells && c !in WriteSelection(dims, count, args) ==> c in after && after[c] == cells[c]
  {
    SameSelectionIff(dims, count, args);
    WriteSelectionDistinct(dims, count, args);
    var coords := WriteSelection(dims, count, args);
    assert |coords| == |data|;
    hide Selected;
    hide Scatter;
    hide ReadableBack;
    Restored(cells, coords, data);
  }

  lemma {:induction false} Restored<T>(cells: map<seq<nat>, T>, coords: seq<seq<nat>>, data: seq<T>)
    requires Distinct(coords) && |coords| == |data|
    ensures var after := Scatter(cells, coords, data, |data|);
            && (forall i :: 0 <= i < |coords| ==> coords[i] in after) && Gather(after, coords) == data
            && forall c :: c in cells && c !in coords ==> c in after && after[c] == cells[c]
  {
    ScatterAt(cells, coords, data, |data|);
    forall c | c in cells && c !in coords
      ensures c in Scatter(cells, coords, data, |data|) && Scatter(cells, coords, data, |data|)[c] == cells[c]
    {
      ScatterElsewhere(cells, coords, data, |data|, c);
    }
  }

  /** Gathering from other places than those scattered to misses some data. */
  lemma {:induction false} OtherPlacesMiss(dims: seq<nat>, coords: seq<seq<nat>>, places: seq<seq<nat>>)
    returns (cells: map<seq<nat>, bool>, data: seq<bool>)
    requires Distinct(coords) && Within(dims, coords) && Within(dims, places) && coords != places
    ensures Full(dims, cells) && |data| == |coords|
    ensures var after := Scatter(cells, coords, data, |data|);
            (forall i :: 0 <= i < |places| ==> places[i] in after) && Gather(after, places) != data
  {
    cells := map c | c in All(dims) :: false;
    forall c ensures c in cells <==> InRange(dims, c) { AllHolds(dims, c); }
    var i: nat := 0;
    if |coords| == |places| {
      i :| 0 <= i < |coords| && coords[i] != places[i];
    }
    data := seq(|coords|, j => j == i);
    ScatterKeepsCells(dims, cells, coords, data, |data|);
    if |coords| == |places| {
      ScatterAt(cells, coords, data, |data|);
      if j :| 0 <= j < |coords| && coords[j] == places[i] {
        assert Scatter(cells, coords, data, |data|)[places[i]] == data[j];
      } else {
        ScatterElsewhere(cells, coords, data, |data|, places[i]);
      }
      assert Gather(Scatter(cells, coords, data, |data|), places)[i] != data[i];
    }
  }

  lemma {:induction false} NotReadableBack(dims: seq<nat>, count: seq<nat>, args: Args)
    returns (cells: map<seq<nat>, bool>, data: seq<bool>)
    requires WriteArgs(|dims|, count, args) && WriteAccepted(dims, count, args) && !ReadableBack(dims, count, args)
    ensures Full(dims, cells) && |data| == Product(count) && !ReadsBack(dims, cells, data, count, args)
  {
    var n, coords := ReadCount(|dims|, count, args), WriteSelection(dims, count, args);
    SameSelectionIff(dims, count, args);
    WriteSelectionDistinct(dims, count, args);
    hide Selected;
    hide ReadableBack;
    if ReadAccepted(dims, n, args) {
      cells, data := OtherPlacesMiss(dims, coords, Selected(ReadSlab(n, args)));
    } else {
      cells := map c | c in All(dims) :: false;
      forall c ensures c in cells <==> InRange(dims, c) { AllHolds(dims, c); }
      data := seq(|coords|, _ => false);
    }
  }

  /** An accepted write can be read back with the same arguments, whatever was written over whatever,
      exactly under a condition on these arguments. */
  lemma {:induction false} ReadBackIff(dims: seq<nat>, count: seq<nat>, args: Args)
    requires WriteArgs(|dims|, count, args) && WriteAccepted(dims, count, args)
    ensures (forall cells: map<seq<nat>, bool>, data: seq<bool> :: Full(dims, cells) && |data| == Product(count) ==>
               ReadsBack(dims, cells, data, count, args))
        <==> ReadableBack(dims, count, args)
  {
    if ReadableBack(dims, count, args) {
      forall cells: map<seq<nat>, bool>, data: seq<bool> | Full(dims, cells) && |data| == Product(count)
        ensures ReadsBack(dims, cells, data, count, args)
      {
        ReadBack(dims, cells, data, count, args);
      }
    } else {
      var cells, data := NotReadableBack(dims, count, args);
    }
  }

  // ----- strides without blocks -----

  /** Without a block the stride is ignored, in the write and in the read. */
  lemma {:induction false} StrideIgnored(rank: nat, count: seq<nat>, args: Args)
    requires WriteArgs(rank, count, args) && args.block.None?
    ensures WriteSlab(rank, count, args) == ReadSlab(Padded(count, rank), args)
    ensures Selected(WriteSlab(rank, count, args)) == Selected(WriteSlab(rank, count, args.(stride := None)))
  {
    var a, b := Axes(WriteSlab(rank, count, args)), Axes(WriteSlab(rank, count, args.(stride := None)));
    forall d | 0 <= d < rank ensures a[d] == b[d] {
      TimesIsMul(1, Padded(count, rank)[d]);
      forall t | 0 <= t < |a[d]| ensures a[d][t] == b[d][t] { DivModUnique(0, t, Padded(count, rank)[d]); }
    }
    assert a == b;
  }

  /** What a stride would mean without a block: single elements, that far apart. */
  function Strided(rank: nat, count: seq<nat>, args: Args): (h: Slab)
    requires WriteArgs(rank, count, args)
    ensures SameRank(h)
  {
    Slab(Or(args.offset, 0, rank), Or(args.stride, 1, rank), Padded(count, rank), Fill(1, rank))
  }

  /** Ignoring the stride makes no difference exactly if nothing is selected, or every dimension has
      a single element or stride 1. */
  lemma {:induction false} IgnoredStrideIff(rank: nat, count: seq<nat>, args: Args)
    requires WriteArgs(rank, count, args) && args.block.None?
    ensures var n, stride := Padded(count, rank), Or(args.stride, 1, rank);
            Selected(WriteSlab(rank, count, args)) == Selected(Strided(rank, count, args)) <==>
            || (exists d :: 0 <= d < rank && n[d] == 0)
            || forall d :: 0 <= d < rank ==> n[d] == 1 || stride[d] == 1
  {
    var h := Strided(rank, count, args);
    assert Swapped(h) == WriteSlab(rank, count, args);
    SelectedSwapsIff(h);
    assert forall d :: 0 <= d < rank ==> (SwapAgrees(h.stride[d], h.count[d], h.block[d]) <==> h.count[d] == 1 || h.stride[d] == 1);
    hide Selected;
    hide SwapAgrees;
  }

  /** Two elements, two apart: places 0 and 1 are written and read, 0 and 2 were asked for. */
  lemma {:induction false} StrideOfTwoIgnored()
    ensures var args := Args(None, Some([2]), None);
            && [1] in Selected(WriteSlab(1, [2], args)) && [1] in Selected(ReadSlab([2], args))
            && [2] !in Selected(WriteSlab(1, [2], args)) && [2] in Selected(Strided(1, [2], args))
  {
    var args := Args(None, Some([2]), None);
    assert WriteSlab(1, [2], args) == Slab([0], [2], [1], [2]) == ReadSlab([2], args);
    assert Strided(1, [2], args) == Slab([0], [2], [2], [1]);
    OneDimension(0, 2, 1, 2, 1);
    OneDimension(0, 2, 1, 2, 2);
    OneDimension(0, 2, 2, 1, 2);
    TimesIsMul(1, 2);
    assert InBlock(0, 2, 2, 1, 0);
    assert InBlock(0, 2, 1, 2, 1);
  }

  // ----- two calls in one dimension -----

  function InOneDimension(stride: nat, block: nat): Args {
    Args(None, Some([stride]), Some([block]))
  }

  /** Four blocks of two, three apart, can be written; the same arguments ask the read for two
      overlapping blocks of four. */
  lemma {:induction false} WriteLegalReadIllegal()
    ensures Legal(WriteSlab(1, [8], InOneDimension(3, 2)))
    ensures ReadCount(1, [8], InOneDimension(3, 2)) == [4]
    ensures !Legal(ReadSlab([4], InOneDimension(3, 2)))
  {
    assert ReadSlab([4], InOneDimension(3, 2)).stride[0] == 3;
  }

  lemma {:induction false} FiveApart(k: nat, x: nat)
    requires k < 4
    ensures InBlock(0, 5, 2, x, k) <==> x == 5 * k || x == 5 * k + 1
    ensures InBlock(0, 5, 4, x, k) <==> 5 * k <= x < 5 * k + 4
  {
    TimesIsMul(k, 5);
  }

  /** Five apart both are legal, and the read selects a place that was not written. */
  lemma {:induction false} ReadSelectsOther()
    ensures Legal(WriteSlab(1, [8], InOneDimension(5, 2))) && Legal(ReadSlab([4], InOneDimension(5, 2)))
    ensures [2] in Selected(ReadSlab([4], InOneDimension(5, 2)))
    ensures [2] !in Selected(WriteSlab(1, [8], InOneDimension(5, 2)))
  {
    var r, w := ReadSlab([4], InOneDimension(5, 2)), WriteSlab(1, [8], InOneDimension(5, 2));
    assert r == Slab([0], [5], [2], [4]);
    assert w == Slab([0], [5], [4], [2]);
    FiveApart(0, 2);
    forall k: nat | k < 4 ensures !InBlock(0, 5, 2, 2, k) { FiveApart(k, 2); }
    hide InBlock;
    OneDimension(0, 5, 2, 4, 2);
    OneDimension(0, 5, 4, 2, 2);
  }

  lemma {:induction false} OneDimension(o: nat, s: nat, c: nat, b: nat, x: nat)
    ensures [x] in Selected(Slab([o], [s], [c], [b])) <==> InBlocks(o, s, c, b, x)
  {
    SelectedIff(Slab([o], [s], [c], [b]), [x]);
    assert [x][0] == x;
    hide InBlocks;
  }

  // ----- which places the arguments ask for -----

  /** Entry d of an argument, or what stands for it where it is not given. */
  function Given(a: Option<seq<nat>>, d: nat, otherwise: nat): nat {
    if a.Some? && d < |a.value| then a.value[d] else otherwise
  }

  lemma {:induction false} OneBlock(o: nat, s: nat, b: nat, x: nat)
    ensures InBlocks(o, s, 1, b, x) <==> o <= x < o + b
  {
    assert Times(0, s) == 0;
    assert InBlock(o, s, b, x, 0) <==> o <= x < o + b;
  }

  /** A write without a block goes to the box of `count` elements that begins at the offset; one with a
      block to count / block blocks, from the offset on, `stride` apart. */
  lemma {:induction false} WriteSelectsIff(rank: nat, count: seq<nat>, args: Args, c: seq<nat>)
    requires WriteArgs(rank, count, args)
    ensures args.block.None? ==>
              (c in Selected(WriteSlab(rank, count, args)) <==>
               |c| == rank && forall d :: 0 <= d < rank ==>
                 Given(args.offset, d, 0) <= c[d] < Given(args.offset, d, 0) + if d < |count| then count[d] else 1)
    ensures args.block.Some? ==>
              (c in Selected(WriteSlab(rank, count, args)) <==>
               |c| == rank && forall d :: 0 <= d < rank ==>
                 InBlocks(Given(args.offset, d, 0), Given(args.stride, d, 1), count[d] / args.block.value[d], args.block.value[d], c[d]))
  {
    var h := WriteSlab(rank, count, args);
    SelectedIff(h, c);
    hide Selected;
    hide InBlocks;
    if args.block.None? && |c| == rank {
      forall d | 0 <= d < rank
        ensures InBlocks(h.offset[d], h.stride[d], h.count[d], h.block[d], c[d]) <==>
                Given(args.offset, d, 0) <= c[d] < Given(args.offset, d, 0) + if d < |count| then count[d] else 1
      {
        OneBlock(h.offset[d], h.stride[d], h.block[d], c[d]);
      }
    }
  }

  /** A read goes, in each dimension, to as many blocks of `count` elements as a block has. */
  lemma {:induction false} ReadSelectsIff(count: seq<nat>, args: Args, c: seq<nat>)
    requires LongEnough(|count|, args)
    ensures c in Selected(ReadSlab(count, args)) <==>
            |c| == |count| && forall d :: 0 <= d < |count| ==>
              InBlocks(Given(args.offset, d, 0), Given(args.stride, d, 1), Given(args.block, d, 1), count[d], c[d])
  {
    SelectedIff(ReadSlab(count, args), c);
    hide Selected;
    hide InBlocks;
  }
}
