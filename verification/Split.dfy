/** How the pipelines cut a block of data into chunks: the last piece of each row. */
module Split {
  import opened Common
  import opened Arith

  // The row runs along the fastest dimension: n elements in chunks of b.  `o` is chunk_offset[0], the
  // offset in the slowest dimension, which is the same dimension only in rank 1; there aligned data
  // take a path of their own, which needs no residual.

  /** Rx: what would be left of a chunk that holds element o. */
  function Leading(o: nat, b: nat): (r: nat)
    requires b > 0
    ensures 0 < r <= b
  {
    b - o % b
  }

  /** Ry as split_to_chunk_write computes it, the difference modulo 2^64. */
  function WriteResidual(n: nat, o: nat, b: nat): (r: nat)
    requires 0 < b < U64
    ensures r < b
  {
    (n + U64 - Leading(o, b)) % U64 % b
  }

  /** Ry as split_to_chunk_read computes it. */
  function ReadResidual(n: nat, b: nat): nat
    requires b > 0
  {
    n % b
  }

  /** How many elements of a row go into the piece at j: a whole chunk's unless it is the last. */
  function Piece(n: nat, ry: nat, b: nat, j: nat): nat
    requires ry <= U64
  {
    if j != (n + U64 - ry) % U64 then b else ry
  }

  /** Every piece is what is left of the row, or a chunk's. */
  ghost predicate CutsRows(n: nat, ry: nat, b: nat)
    requires ry <= U64 && b > 0
  {
    forall j {:trigger Piece(n, ry, b, j)} :: 0 <= j < n && j % b == 0 ==> Piece(n, ry, b, j) == if j + b <= n then b else n - j
  }

  /** When the writer computes the reader's residual. */
  predicate Agrees(n: nat, o: nat, b: nat)
    requires b > 0
  {
    if n >= Leading(o, b) then o % b == 0 else (U64 + o) % b == 0
  }

  lemma {:induction false} SameRemainder(x: nat, d: nat, b: nat)
    requires b > 0
    ensures (x + d) % b == x % b <==> d % b == 0
  {
    TimesDivModDef(x, b);
    TimesDivModDef(d, b);
    var r, s, q := x % b, d % b, x / b + d / b;
    TimesAdd(x / b, d / b, b);
    if r + s < b {
      TimesDivMod(q, r + s, b);
    } else {
      TimesDivMod(q + 1, r + s - b, b);
    }
    hide Times;
  }

  lemma {:induction false} LeadingWhole(o: nat, b: nat)
    requires b > 0
    ensures (o + Leading(o, b)) % b == 0 && (Leading(o, b) % b == 0 <==> o % b == 0)
  {
    TimesDivModDef(o, b);
    TimesDivMod(o / b + 1, 0, b);
  }

  /** The two residuals are the same exactly if the data fill the leading piece and o is a multiple of
      b, or they do not and 2^64 + o is one. */
  lemma {:induction false} ResidualsAgreeIff(n: nat, o: nat, b: nat)
    requires 0 < b < U64 && n < U64
    ensures WriteResidual(n, o, b) == ReadResidual(n, b) <==> Agrees(n, o, b)
  {
    var l := Leading(o, b);
    LeadingWhole(o, b);
    hide Leading;
    if n >= l {
      Reduces(n - l);
      SameRemainder(n - l, l, b);
    } else {
      Reduces(n + U64 - l);
      SameRemainder(n, U64 - l, b);
      SameRemainder(U64 - l, o + l, b);
    }
  }

  lemma {:induction false} Reduces(x: nat)
    requires x < U64
    ensures x % U64 == x && (x + U64) % U64 == x
  {
  }

  /** The last multiple of b below n. */
  lemma {:induction false} LastPiece(n: nat, b: nat, j: nat)
    requires b > 0 && j % b == 0 && j < n
    ensures n % b != 0 ==> (j + b <= n <==> j != n - n % b) && (j + b > n ==> n - j == n % b)
    ensures n % b == 0 ==> j + b <= n
  {
    TimesDivModDef(n, b);
    TimesDivModDef(j, b);
    if j / b < n / b {
      TimesLess(j / b, n / b, b);
    } else if n / b < j / b {
      TimesLess(n / b, j / b, b);
    }
    hide Times;
  }

  lemma {:induction false} NotAMultiple(n: nat, b: nat, j: nat, r: nat)
    requires 0 < r < b && n % b == 0 && j % b == 0
    ensures n != j + r
  {
    SameRemainder(j, r, b);
  }

  /** A residual cuts the rows right exactly if it is the remainder, or there is none. */
  lemma {:induction false} CutsRowsIff(n: nat, ry: nat, b: nat)
    requires 0 < b < U64 && n < U64 && ry < b
    ensures CutsRows(n, ry, b) <==> n % b == 0 || ry == n % b
  {
    if n % b != 0 && CutsRows(n, ry, b) {
      var j := n - n % b;
      TimesDivModDef(n, b);
      TimesDivMod(n / b, 0, b);
      assert Piece(n, ry, b, j) == if j + b <= n then b else n - j;
    }
    if n % b == 0 || ry == n % b {
      forall j | 0 <= j < n && j % b == 0
        ensures Piece(n, ry, b, j) == if j + b <= n then b else n - j
      {
        PieceRight(n, ry, b, j);
      }
    }
  }

  lemma {:induction false} PieceRight(n: nat, ry: nat, b: nat, j: nat)
    requires 0 < b < U64 && n < U64 && ry < b && (n % b == 0 || ry == n % b) && j < n && j % b == 0
    ensures Piece(n, ry, b, j) == if j + b <= n then b else n - j
  {
    LastPiece(n, b, j);
    TimesDivModDef(n, b);
    assert ry <= n;
    Reduces(n - ry);
    if n % b == 0 && ry > 0 { NotAMultiple(n, b, j, ry); }
  }

  /** The reader cuts all rows right; the writer exactly those that are whole chunks or for which it
      computes the reader's residual. */
  lemma {:induction false} WriterCutsRowsIff(n: nat, o: nat, b: nat)
    requires 0 < b < U64 && n < U64
    ensures CutsRows(n, ReadResidual(n, b), b)
    ensures CutsRows(n, WriteResidual(n, o, b), b) <==> n % b == 0 || Agrees(n, o, b)
  {
    CutsRowsIff(n, ReadResidual(n, b), b);
    CutsRowsIff(n, WriteResidual(n, o, b), b);
    ResidualsAgreeIff(n, o, b);
  }

  /** Two elements into chunks of three, and rows of six into chunks of 3 x 4 from row 3 on: the writer
      takes a whole chunk's width where two elements are left. */
  lemma {:induction false} TakesTooMuch()
    ensures Piece(2, WriteResidual(2, 0, 3), 3, 0) == 3
    ensures Piece(6, WriteResidual(6, 3, 4), 4, 4) == 4
  {
    assert Leading(0, 3) == 3 && (2 + U64 - 3) % U64 == 2 + U64 - 3 && (2 + U64 - 3) % 3 == 0;
    assert Leading(3, 4) == 1 && (6 + U64 - 1) % U64 == 5;
    hide Leading;
  }
}
