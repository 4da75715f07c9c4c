/** Dimensions of an array: how many elements they make, and where coordinates stand in row-major order. */
module Dims {
  import opened Arith

  /** The number of elements of an array with these dimensions. */
  function Product(dims: seq<nat>): nat {
    if dims == [] then 1 else Times(dims[0], Product(dims[1..]))
  }

  lemma {:induction false} ProductAppend(a: seq<nat>, b: seq<nat>)
    ensures Product(a + b) == Times(Product(a), Product(b))
  {
    if a == [] {
      assert a + b == b;
      assert Times(1, Product(b)) == Times(0, Product(b)) + Product(b);
    } else {
      assert (a + b)[1..] == a[1..] + b;
      ProductAppend(a[1..], b);
      TimesNest(a[0], Product(a[1..]), Product(b));
    }
  }

  /** Row-major position of the coordinates c in an array with dimensions dims. */
  function RowMajor(dims: seq<nat>, c: seq<nat>): nat
    requires |dims| == |c|
  {
    if dims == [] then 0 else Times(c[0], Product(dims[1..])) + RowMajor(dims[1..], c[1..])
  }

  predicate InRange(dims: seq<nat>, c: seq<nat>) {
    |c| == |dims| && forall k :: 0 <= k < |c| ==> c[k] < dims[k]
  }

  lemma {:induction false} RowMajorBelow(dims: seq<nat>, c: seq<nat>)
    requires InRange(dims, c)
    ensures RowMajor(dims, c) < Product(dims)
  {
    if dims != [] {
      RowMajorBelow(dims[1..], c[1..]);
      TimesLess(c[0], dims[0], Product(dims[1..]));
    }
  }

  lemma {:induction false} RowMajorAppend(a: seq<nat>, b: seq<nat>, c: seq<nat>, d: seq<nat>)
    requires |a| == |c| && |b| == |d|
    ensures RowMajor(a + b, c + d) == Times(RowMajor(a, c), Product(b)) + RowMajor(b, d)
  {
    if a == [] {
      assert a + b == b && c + d == d;
    } else {
      assert (a + b)[1..] == a[1..] + b && (c + d)[1..] == c[1..] + d;
      RowMajorAppend(a[1..], b, c[1..], d);
      ProductAppend(a[1..], b);
      TimesNest(c[0], Product(a[1..]), Product(b));
      TimesAdd(Times(c[0], Product(a[1..])), RowMajor(a[1..], c[1..]), Product(b));
    }
  }
}
