/** Facts about products, quotients and remainders that the solver does not find by itself. */
module Arith {

  lemma {:induction false} MulLess(a: nat, b: nat, m: nat)
    requires a < b
    ensures a * m + m <= b * m
    decreases b
  {
    if a + 1 < b {
      MulLess(a, b - 1, m);
      assert b * m == (b - 1) * m + m;
    } else {
      assert b * m == a * m + m;
    }
  }

  /** q * m + r is the only way to split a number into a quotient and a remainder. */
  lemma {:induction false} DivModUnique(q: nat, r: nat, m: nat)
    requires r < m
    ensures (q * m + r) / m == q && (q * m + r) % m == r
  {
    var x := q * m + r;
    var q', r' := x / m, x % m;
    DivModDef(x, m);
    if q < q' {
      MulLess(q, q', m);
    } else if q' < q {
      MulLess(q', q, m);
    }
  }

  lemma {:induction false} DivModDef(x: nat, m: nat)
    requires m > 0
    ensures x == (x / m) * m + x % m && x % m < m
  {
    assert x == m * (x / m) + x % m;
  }

  /** The product as repeated addition: index arithmetic over it stays linear for the solver. */
  function Times(k: nat, m: nat): nat {
    if k == 0 then 0 else Times(k - 1, m) + m
  }

  lemma {:induction false} TimesIsMul(k: nat, m: nat)
    ensures Times(k, m) == k * m
  {
    if k > 0 {
      TimesIsMul(k - 1, m);
      assert k * m == (k - 1) * m + m;
    }
  }

  lemma {:induction false} TimesAdd(a: nat, b: nat, m: nat)
    ensures Times(a + b, m) == Times(a, m) + Times(b, m)
  {
    if b > 0 { TimesAdd(a, b - 1, m); }
  }

  lemma {:induction false} TimesNest(i: nat, n: nat, m: nat)
    ensures Times(Times(i, n), m) == Times(i, Times(n, m))
  {
    if i > 0 {
      TimesNest(i - 1, n, m);
      TimesAdd(Times(i - 1, n), n, m);
    }
  }

  lemma {:induction false} TimesLess(a: nat, b: nat, m: nat)
    requires a < b
    ensures Times(a, m) + m <= Times(b, m)
  {
    if a + 1 < b { TimesLess(a, b - 1, m); }
  }

  lemma {:induction false} TimesCommutes(a: nat, b: nat)
    ensures Times(a, b) == Times(b, a)
  {
    TimesIsMul(a, b);
    TimesIsMul(b, a);
  }

  lemma {:induction false} TimesMonotone(a: nat, b: nat, m: nat)
    requires a <= b
    ensures Times(a, m) <= Times(b, m)
  {
    if a < b { TimesLess(a, b, m); }
  }

  lemma {:induction false} TimesInjective(a: nat, b: nat, m: nat)
    requires m > 0 && Times(a, m) == Times(b, m)
    ensures a == b
  {
    if a < b { TimesLess(a, b, m); }
    if b < a { TimesLess(b, a, m); }
  }

  /** Times(q, m) + r is the only way to split a number into a quotient and a remainder. */
  lemma {:induction false} TimesDivMod(q: nat, r: nat, m: nat)
    requires r < m
    ensures (Times(q, m) + r) / m == q && (Times(q, m) + r) % m == r
  {
    TimesIsMul(q, m);
    DivModUnique(q, r, m);
  }

  lemma {:induction false} TimesDivModDef(x: nat, m: nat)
    requires m > 0
    ensures x == Times(x / m, m) + x % m && x % m < m
  {
    TimesIsMul(x / m, m);
    DivModDef(x, m);
  }

  /** x stands in s at position `at`; index by index, which the solver prefers to nested slices. */
  ghost predicate IsPiece<T>(s: seq<T>, x: seq<T>, at: nat) {
    at + |x| <= |s| && forall j :: 0 <= j < |x| ==> x[j] == s[at + j]
  }

  /** A piece of a piece. */
  lemma {:induction false} PieceOfPiece<T>(s: seq<T>, b: seq<T>, x: seq<T>, at: nat, c: nat)
    requires IsPiece(s, b, at) && IsPiece(s, x, at + c) && c + |x| <= |b|
    ensures b[c..c + |x|] == x
  {
    forall j | 0 <= j < |x| ensures b[c + j] == x[j] {
      assert b[c + j] == s[at + (c + j)];
      assert x[j] == s[(at + c) + j];
    }
  }

  lemma {:induction false} PiecesEqual<T>(s: seq<T>, x: seq<T>, y: seq<T>, at: nat)
    requires IsPiece(s, x, at) && IsPiece(s, y, at) && |x| == |y|
    ensures x == y
  {
    forall j | 0 <= j < |x| ensures x[j] == y[j] {
      assert x[j] == s[at + j];
    }
  }
}
