/** HighFive's inspector for Eigen matrices of scalars: storage of either order, a row-major stream. */
module EigenInspector {
  import opened Arith
  import opened Dims

  /** Where Eigen keeps entry (i, j) of a rows x cols matrix. */
  function Place(rows: nat, cols: nat, rowMajor: bool, i: nat, j: nat): nat {
    if rowMajor then Times(i, cols) + j else Times(j, rows) + i
  }

  lemma {:induction false} PlaceInside(rows: nat, cols: nat, rowMajor: bool, i: nat, j: nat)
    requires i < rows && j < cols
    ensures Place(rows, cols, rowMajor, i, j) < Times(rows, cols)
  {
    TimesIsMul(rows, cols);
    TimesIsMul(cols, rows);
    TimesLess(i, rows, cols);
    TimesLess(j, cols, rows);
  }

  /** No two entries share a place. */
  lemma {:induction false} PlaceInjective(rows: nat, cols: nat, rowMajor: bool, i: nat, j: nat, p: nat, q: nat)
    requires i < rows && j < cols && p < rows && q < cols
    requires Place(rows, cols, rowMajor, i, j) == Place(rows, cols, rowMajor, p, q)
    ensures i == p && j == q
  {
    if rowMajor {
      TimesDivMod(i, j, cols);
      TimesDivMod(p, q, cols);
    } else {
      TimesDivMod(j, i, rows);
      TimesDivMod(q, p, rows);
    }
  }

  lemma {:induction false} RowAndColumn(rows: nat, cols: nat, k: nat)
    requires k < Times(rows, cols)
    ensures cols > 0 && k / cols < rows && k % cols < cols && k == Times(k / cols, cols) + k % cols
  {
    TimesIsMul(rows, cols);
    TimesDivModDef(k, cols);
    if rows < k / cols { TimesLess(rows, k / cols, cols); }
  }

  /** Every place holds some entry. */
  lemma {:induction false} PlaceReached(rows: nat, cols: nat, rowMajor: bool, k: nat) returns (i: nat, j: nat)
    requires k < Times(rows, cols)
    ensures i < rows && j < cols && Place(rows, cols, rowMajor, i, j) == k
  {
    TimesIsMul(rows, cols);
    TimesIsMul(cols, rows);
    if rowMajor {
      RowAndColumn(rows, cols, k);
      i, j := k / cols, k % cols;
    } else {
      RowAndColumn(cols, rows, k);
      i, j := k % rows, k / rows;
    }
  }

  /** The stream position of (i, j) is its row-major position, the same for both storage orders. */
  lemma {:induction false} StreamPlace(rows: nat, cols: nat, i: nat, j: nat)
    ensures RowMajor([rows, cols], [i, j]) == Times(i, cols) + j
  {
    assert [rows, cols][1..] == [cols] && [i, j][1..] == [j] && [cols][1..] == [];
    TimesIsMul(cols, 1);
    TimesIsMul(j, 1);
    assert Product([cols]) == cols;
    assert RowMajor([cols], [j]) == j;
  }

  // ----- the two storage orders -----

  /** The storage of a column-major matrix, read row by row. */
  function ByRows<T>(storage: seq<T>, rows: nat, cols: nat): (s: seq<T>)
    requires |storage| == Times(rows, cols)
    ensures |s| == |storage|
  {
    seq(|storage|, k requires 0 <= k < |storage| =>
      RowAndColumn(rows, cols, k);
      ColumnInside(rows, cols, k / cols, k % cols);
      storage[k % cols * rows + k / cols])
  }

  lemma {:induction false} ColumnInside(rows: nat, cols: nat, i: nat, j: nat)
    requires i < rows && j < cols
    ensures j * rows + i == Times(j, rows) + i < Times(rows, cols)
  {
    TimesIsMul(j, rows);
    PlaceInside(rows, cols, false, i, j);
  }

  lemma {:induction false} RowInside(rows: nat, cols: nat, i: nat, j: nat)
    requires i < rows && j < cols
    ensures i * cols + j == Times(i, cols) + j < Times(rows, cols)
  {
    TimesIsMul(i, cols);
    PlaceInside(rows, cols, true, i, j);
  }

  /** Entry (i, j), kept at j * rows + i, is read at i * cols + j. */
  lemma {:induction false} ByRowsAt<T>(storage: seq<T>, rows: nat, cols: nat, i: nat, j: nat)
    requires |storage| == Times(rows, cols) && i < rows && j < cols
    ensures i * cols + j < |storage| && j * rows + i < |storage|
    ensures ByRows(storage, rows, cols)[i * cols + j] == storage[j * rows + i]
  {
    RowInside(rows, cols, i, j);
    ColumnInside(rows, cols, i, j);
    TimesDivMod(i, j, cols);
  }

  /** Reading it as cols x rows again undoes that. */
  lemma {:induction false} ByRowsBack<T>(storage: seq<T>, rows: nat, cols: nat)
    requires |storage| == Times(rows, cols)
    ensures Times(cols, rows) == Times(rows, cols)
    ensures ByRows(ByRows(storage, rows, cols), cols, rows) == storage
  {
    TimesCommutes(rows, cols);
    var once := ByRows(storage, rows, cols);
    forall k | 0 <= k < |storage| ensures ByRows(once, cols, rows)[k] == storage[k] {
      RowAndColumn(cols, rows, k);
      var i, j := k % rows, k / rows;
      ByRowsAt(once, cols, rows, j, i);
      ByRowsAt(storage, rows, cols, i, j);
      ColumnInside(rows, cols, i, j);
    }
  }

  lemma {:induction false} VectorAsItLies(d: seq<nat>, rows: nat, cols: nat, k: nat)
    requires (rows <= 1 || cols <= 1) && |d| == Times(rows, cols) && k < |d|
    ensures ByRows(d, rows, cols)[k] == d[k]
  {
    RowAndColumn(rows, cols, k);
    var i, j := k / cols, k % cols;
    ByRowsAt(d, rows, cols, i, j);
    RowInside(rows, cols, i, j);
    ColumnInside(rows, cols, i, j);
    hide ByRows;
    if i == 0 { assert i * cols == 0; }
    if j == 0 { assert j * rows == 0; }
  }

  lemma {:induction false} SecondEntryMoves(d: seq<nat>, rows: nat, cols: nat)
    requires rows > 1 && cols > 1 && |d| == Times(rows, cols) && forall k :: 0 <= k < |d| ==> d[k] == k
    ensures ByRows(d, rows, cols) != d
  {
    ByRowsAt(d, rows, cols, 0, 1);
    hide ByRows;
  }

  /** A column-major storage can be handed over as it lies exactly if the matrix is a vector, or empty. */
  lemma {:induction false} StorageIsStreamIff(rows: nat, cols: nat)
    ensures (forall d: seq<nat> :: |d| == Times(rows, cols) ==> ByRows(d, rows, cols) == d) <==> rows <= 1 || cols <= 1
  {
    hide ByRows;
    hide Times;
    if rows <= 1 || cols <= 1 {
      forall d: seq<nat> | |d| == Times(rows, cols) ensures ByRows(d, rows, cols) == d {
        forall k | 0 <= k < |d| ensures ByRows(d, rows, cols)[k] == d[k] { VectorAsItLies(d, rows, cols, k); }
      }
    } else {
      SecondEntryMoves(seq(Times(rows, cols), k => k), rows, cols);
    }
  }

  /** Columns 0 1, 2 3 and 4 5 are the rows 0 2 4 and 1 3 5. */
  lemma {:induction false} TwoByThree()
    ensures Times(2, 3) == 6 && ByRows([0, 1, 2, 3, 4, 5], 2, 3) == [0, 2, 4, 1, 3, 5]
  {
  }

  class Matrix<T(0)> {
    const rowMajor: bool   // IsRowMajor
    const mapped: bool     // an Eigen::Map, whose shape cannot change
    var rows: nat
    var cols: nat
    var data: array<T>

    ghost predicate Valid()
      reads this
    {
      data.Length == Times(rows, cols)
    }

    /** val(i, j) */
    function Entry(i: nat, j: nat): T
      reads this, data
      requires Valid() && i < rows && j < cols
    {
      PlaceInside(rows, cols, rowMajor, i, j);
      data[Place(rows, cols, rowMajor, i, j)]
    }

    /** The entries in row-major order, whatever the storage order. */
    ghost function Stream(): (s: seq<T>)
      reads this, data
      requires Valid()
      ensures |s| == Times(rows, cols)
    {
      seq(Times(rows, cols), k requires 0 <= k < Times(rows, cols) reads this, data requires Valid() =>
        RowAndColumn(rows, cols, k);
        Entry(k / cols, k % cols))
    }

    constructor (rowMajor: bool, mapped: bool, rows: nat, cols: nat)
      ensures Valid() && fresh(data)
      ensures this.rowMajor == rowMajor && this.mapped == mapped && this.rows == rows && this.cols == cols
    {
      this.rowMajor := rowMajor;
      this.mapped := mapped;
      this.rows := rows;
      this.cols := cols;
      TimesIsMul(rows, cols);
      data := new T[rows * cols];
    }

    /** prepare: resize to the dataset's shape; a mapped matrix of another shape refuses. */
    method Prepare(dims: seq<nat>) returns (ok: bool)
      requires Valid() && |dims| >= 2
      modifies this
      ensures Valid()
      ensures ok <==> !mapped || (old(rows) == dims[0] && old(cols) == dims[1])
      ensures ok ==> rows == dims[0] && cols == dims[1]
      ensures data == old(data) || fresh(data)
      ensures !ok || (old(rows) == dims[0] && old(cols) == dims[1]) ==> unchanged(this)
    {
      if dims[0] != rows || dims[1] != cols {
        if mapped { return false; }
        rows, cols := dims[0], dims[1];
        TimesIsMul(rows, cols);
        data := new T[rows * cols];
      }
      return true;
    }

    /** serialize: two loops over the entries, the output pointer moving one scalar at a time. */
    method Serialize(m: array<T>, at: nat)
      requires Valid() && m != data && at + Times(rows, cols) <= m.Length
      modifies m
      ensures IsPiece(m[..], Stream(), at)
      ensures m[at..at + Times(rows, cols)] == if rowMajor then data[..] else ByRows(data[..], rows, cols)
      ensures forall k :: 0 <= k < m.Length && !(at <= k < at + Times(rows, cols)) ==> m[k] == old(m[k])
    {
      var out := at;
      ghost var stream := Stream();
      for i := 0 to rows
        invariant out == at + Times(i, cols) <= at + |stream|
        invariant forall k :: 0 <= k < out - at ==> m[at + k] == stream[k]
        invariant forall k :: 0 <= k < m.Length && !(at <= k < out) ==> m[k] == old(m[k])
      {
        TimesLess(i, rows, cols);
        for j := 0 to cols
          invariant out == at + Times(i, cols) + j
          invariant forall k :: 0 <= k < out - at ==> m[at + k] == stream[k]
          invariant forall k :: 0 <= k < m.Length && !(at <= k < out) ==> m[k] == old(m[k])
        {
          TimesDivMod(i, j, cols);
          assert stream[out - at] == Entry(i, j);
          m[out] := Entry(i, j);
          out := out + 1;
        }
        assert out == at + Times(i + 1, cols);
      }
      StreamOfStorage();
    }

    /** unserialize: fails for fewer than two dimensions, and otherwise fills the prepared matrix. */
    method Unserialize(m: seq<T>, at: nat, dims: seq<nat>) returns (ok: bool)
      requires Valid() && (|dims| >= 2 ==> rows == dims[0] && cols == dims[1] && at + Times(rows, cols) <= |m|)
      modifies data
      ensures ok <==> |dims| >= 2
      ensures ok ==> IsPiece(m, Stream(), at)
      ensures ok ==> Times(cols, rows) == Times(rows, cols)
      ensures ok ==> var stream := m[at..at + Times(rows, cols)];
                     data[..] == if rowMajor then stream else ByRows(stream, cols, rows)
      ensures !ok ==> data[..] == old(data[..])
    {
      if |dims| < 2 { return false; }
      var from := at;
      for i := 0 to rows
        invariant from == at + Times(i, cols) <= at + Times(rows, cols)
        invariant forall k :: 0 <= k < from - at ==> Stream()[k] == m[at + k]
      {
        TimesLess(i, rows, cols);
        for j := 0 to cols
          invariant from == at + Times(i, cols) + j
          invariant forall k :: 0 <= k < from - at ==> Stream()[k] == m[at + k]
        {
          SetEntry(i, j, m[from]);
          from := from + 1;
        }
        assert from == at + Times(i + 1, cols);
      }
      StreamOfStorage();
      ByRowsBack(data[..], rows, cols);
      assert m[at..at + Times(rows, cols)] == Stream();
      ok := true;
    }

    method SetEntry(i: nat, j: nat, x: T)
      requires Valid() && i < rows && j < cols
      modifies data
      ensures Times(i, cols) + j < |Stream()| && Stream() == old(Stream())[Times(i, cols) + j := x]
    {
      PlaceInside(rows, cols, rowMajor, i, j);
      PlaceInside(rows, cols, true, i, j);
      data[Place(rows, cols, rowMajor, i, j)] := x;
      TimesDivMod(i, j, cols);
      forall k | 0 <= k < Times(rows, cols) && k != Times(i, cols) + j
        ensures Stream()[k] == old(Stream()[k])
      {
        RowAndColumn(rows, cols, k);
        PlaceInside(rows, cols, rowMajor, k / cols, k % cols);
        if Place(rows, cols, rowMajor, k / cols, k % cols) == Place(rows, cols, rowMajor, i, j) {
          PlaceInjective(rows, cols, rowMajor, i, j, k / cols, k % cols);
        }
      }
    }

    /** Row-major storage is the stream; column-major storage is the stream of the rows. */
    lemma StreamOfStorage()
      requires Valid()
      ensures Stream() == if rowMajor then data[..] else ByRows(data[..], rows, cols)
    {
      forall k | 0 <= k < Times(rows, cols)
        ensures Stream()[k] == (if rowMajor then data[..] else ByRows(data[..], rows, cols))[k]
      {
        RowAndColumn(rows, cols, k);
        ColumnInside(rows, cols, k / cols, k % cols);
      }
    }

    /** Entry (i, j) stands in the stream at its row-major position. */
    lemma StreamEntry(i: nat, j: nat)
      requires Valid() && i < rows && j < cols
      ensures RowMajor([rows, cols], [i, j]) < |Stream()|
      ensures Stream()[RowMajor([rows, cols], [i, j])] == Entry(i, j)
    {
      StreamPlace(rows, cols, i, j);
      PlaceInside(rows, cols, true, i, j);
      TimesDivMod(i, j, cols);
    }
  }

  /** Writing one matrix and reading it into another of any storage order and any previous shape
      copies every entry; a mapped target takes it exactly when its shape agrees. */
  method WriteThenRead<T(0)>(a: Matrix<T>, b: Matrix<T>) returns (ok: bool)
    requires a.Valid() && b.Valid() && a != b && a.data != b.data
    modifies b, b.data
    ensures b.Valid()
    ensures ok <==> !b.mapped || (old(b.rows) == a.rows && old(b.cols) == a.cols)
    ensures ok ==> b.rows == a.rows && b.cols == a.cols
    ensures ok ==> forall i, j :: 0 <= i < a.rows && 0 <= j < a.cols ==> b.Entry(i, j) == a.Entry(i, j)
    ensures ok && a.rowMajor == b.rowMajor ==> b.data[..] == a.data[..]
  {
    TimesIsMul(a.rows, a.cols);
    var dims := [a.rows, a.cols];
    var m := new T[a.rows * a.cols];
    a.Serialize(m, 0);
    ok := b.Prepare(dims);
    if !ok { return; }
    ok := b.Unserialize(m[..], 0, dims);
    PiecesEqual(m[..], a.Stream(), b.Stream(), 0);
    forall i, j | 0 <= i < a.rows && 0 <= j < a.cols ensures b.Entry(i, j) == a.Entry(i, j) {
      a.StreamEntry(i, j);
      b.StreamEntry(i, j);
    }
    if a.rowMajor == b.rowMajor {
      forall k | 0 <= k < b.data.Length ensures b.data[k] == a.data[k] {
        var i, j := PlaceReached(a.rows, a.cols, a.rowMajor, k);
        assert b.Entry(i, j) == a.Entry(i, j);
      }
    }
  }
}
