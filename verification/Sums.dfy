/**
  Finite sums and counts over an index range, and the few laws about them that
  the other modules need: pointwise comparison, change of one term, exchange of
  two summations.
 */
module Sums {

  /** f(0) + ... + f(n-1) over the integers. */
  ghost function Total(n: nat, f: nat --> int): int
    requires forall i: nat :: i < n ==> f.requires(i)
  {
    if n == 0 then 0 else Total(n - 1, f) + f(n - 1)
  }

  lemma {:induction false} TotalEq(n: nat, f: nat --> int, g: nat --> int)
    requires forall i: nat :: i < n ==> f.requires(i) && g.requires(i) && f(i) == g(i)
    ensures Total(n, f) == Total(n, g)
  {
    if n > 0 {
      TotalEq(n - 1, f, g);
    }
  }

  lemma {:induction false} TotalConst(n: nat, f: nat --> int, c: int)
    requires forall i: nat :: i < n ==> f.requires(i) && f(i) == c
    ensures Total(n, f) == n * c
  {
    if n > 0 {
      TotalConst(n - 1, f, c);
      assert n * c == (n - 1) * c + c;
    }
  }

  lemma {:induction false} TotalAdd(n: nat, f: nat --> int, g: nat --> int, h: nat --> int)
    requires forall i: nat :: i < n ==> f.requires(i) && g.requires(i) && h.requires(i) && h(i) == f(i) + g(i)
    ensures Total(n, h) == Total(n, f) + Total(n, g)
  {
    if n > 0 {
      TotalAdd(n - 1, f, g, h);
    }
  }

  /** Two sums whose terms differ only at index k differ by that term. */
  lemma {:induction false} TotalChange(n: nat, f: nat --> int, g: nat --> int, k: nat)
    requires k < n
    requires forall i: nat :: i < n ==> f.requires(i) && g.requires(i) && (i != k ==> f(i) == g(i))
    ensures Total(n, g) == Total(n, f) - f(k) + g(k)
  {
    if k == n - 1 {
      TotalEq(n - 1, f, g);
    } else {
      TotalChange(n - 1, f, g, k);
    }
  }

  /** A term of a sum of non-negative terms is at most the sum. */
  lemma {:induction false} TotalTerm(n: nat, f: nat --> int, k: nat)
    requires k < n
    requires forall i: nat :: i < n ==> f.requires(i) && 0 <= f(i)
    ensures 0 <= f(k) <= Total(n, f)
  {
    TotalNonneg(n - 1, f);
    if k != n - 1 {
      TotalTerm(n - 1, f, k);
    }
  }

  lemma {:induction false} TotalNonneg(n: nat, f: nat --> int)
    requires forall i: nat :: i < n ==> f.requires(i) && 0 <= f(i)
    ensures 0 <= Total(n, f)
  {
    if n > 0 {
      TotalNonneg(n - 1, f);
    }
  }

  /** A sum with at most one non-zero term. */
  lemma {:induction false} TotalSingle(n: nat, f: nat --> int, k: nat)
    requires forall i: nat :: i < n ==> f.requires(i) && (i != k ==> f(i) == 0)
    ensures Total(n, f) == if k < n then f(k) else 0
  {
    if n > 0 {
      TotalSingle(n - 1, f, k);
    }
  }

  // ---------- The same over the reals ----------

  ghost function Sum(n: nat, f: nat --> real): real
    requires forall i: nat :: i < n ==> f.requires(i)
  {
    if n == 0 then 0.0 else Sum(n - 1, f) + f(n - 1)
  }

  lemma {:induction false} SumEq(n: nat, f: nat --> real, g: nat --> real)
    requires forall i: nat :: i < n ==> f.requires(i) && g.requires(i) && f(i) == g(i)
    ensures Sum(n, f) == Sum(n, g)
  {
    if n > 0 {
      SumEq(n - 1, f, g);
    }
  }

  lemma {:induction false} SumLe(n: nat, f: nat --> real, g: nat --> real)
    requires forall i: nat :: i < n ==> f.requires(i) && g.requires(i) && f(i) <= g(i)
    ensures Sum(n, f) <= Sum(n, g)
  {
    if n > 0 {
      SumLe(n - 1, f, g);
    }
  }

  lemma {:induction false} SumConst(n: nat, f: nat --> real, c: real)
    requires forall i: nat :: i < n ==> f.requires(i) && f(i) == c
    ensures Sum(n, f) == n as real * c
  {
    if n > 0 {
      SumConst(n - 1, f, c);
      assert n as real == (n - 1) as real + 1.0;
      assert n as real * c == (n - 1) as real * c + c;
    }
  }

  lemma {:induction false} SumZero(n: nat, f: nat --> real)
    requires forall i: nat :: i < n ==> f.requires(i) && f(i) == 0.0
    ensures Sum(n, f) == 0.0
  {
    if n > 0 {
      SumZero(n - 1, f);
    }
  }

  lemma {:induction false} SumAdd(n: nat, f: nat --> real, g: nat --> real, h: nat --> real)
    requires forall i: nat :: i < n ==> f.requires(i) && g.requires(i) && h.requires(i) && h(i) == f(i) + g(i)
    ensures Sum(n, h) == Sum(n, f) + Sum(n, g)
  {
    if n > 0 {
      SumAdd(n - 1, f, g, h);
    }
  }

  lemma {:induction false} SumScale(n: nat, f: nat --> real, g: nat --> real, c: real)
    requires forall i: nat :: i < n ==> f.requires(i) && g.requires(i) && g(i) == f(i) * c
    ensures Sum(n, g) == Sum(n, f) * c
  {
    if n > 0 {
      SumScale(n - 1, f, g, c);
      assert (Sum(n - 1, f) + f(n - 1)) * c == Sum(n - 1, f) * c + f(n - 1) * c;
    }
  }

  /** x taken n times. */
  ghost function Scaled(x: real, n: nat): real {
    x * n as real
  }

  lemma ScaledNext(x: real, n: nat)
    ensures Scaled(x, n + 1) == Scaled(x, n) + x
    ensures Scaled(x, 0) == 0.0
  {
  }

  lemma ScaledSum(n: nat, f: nat -> real, h: nat -> real, k: nat)
    requires forall i: nat :: i < n ==> h(i) == Scaled(f(i), k)
    ensures Sum(n, h) == Scaled(Sum(n, f), k)
  {
    SumScale(n, f, h, k as real);
  }

  lemma {:induction false} SumSingle(n: nat, f: nat --> real, k: nat)
    requires forall i: nat :: i < n ==> f.requires(i) && (i != k ==> f(i) == 0.0)
    ensures Sum(n, f) == if k < n then f(k) else 0.0
  {
    if n > 0 {
      SumSingle(n - 1, f, k);
    }
  }

  lemma {:induction false} SumChange(n: nat, f: nat --> real, g: nat --> real, k: nat)
    requires k < n
    requires forall i: nat :: i < n ==> f.requires(i) && g.requires(i) && (i != k ==> f(i) == g(i))
    ensures Sum(n, g) == Sum(n, f) - f(k) + g(k)
  {
    if k == n - 1 {
      SumEq(n - 1, f, g);
    } else {
      SumChange(n - 1, f, g, k);
    }
  }

  // ---------- Sums over a table ----------

  ghost function RowOf(f: (nat, nat) -> real, i: nat): nat -> real {
    (j: nat) => f(i, j)
  }

  ghost function ColumnOf(f: (nat, nat) -> real, j: nat): nat -> real {
    (i: nat) => f(i, j)
  }

  ghost function RowSums(m: nat, f: (nat, nat) -> real): nat -> real {
    (i: nat) => Sum(m, RowOf(f, i))
  }

  ghost function ColumnSums(n: nat, f: (nat, nat) -> real): nat -> real {
    (j: nat) => Sum(n, ColumnOf(f, j))
  }

  /** A table adds up the same by rows or by columns. */
  lemma {:induction false} SumExchange(n: nat, m: nat, f: (nat, nat) -> real)
    ensures Sum(n, RowSums(m, f)) == Sum(m, ColumnSums(n, f))
  {
    if n == 0 {
      SumZero(m, ColumnSums(n, f));
    } else {
      SumExchange(n - 1, m, f);
      SumAdd(m, ColumnSums(n - 1, f), RowOf(f, n - 1), ColumnSums(n, f));
    }
  }
}
