/** Finite sums of reals, the vocabulary of every averaging result in this project. */
module RealSums {

  function Sum(n: nat, f: int -> real): real {
    if n == 0 then 0.0 else Sum(n - 1, f) + f(n - 1)
  }

  lemma {:induction false} SumCong(n: nat, f: int -> real, g: int -> real)
    requires forall i :: 0 <= i < n ==> f(i) == g(i)
    ensures Sum(n, f) == Sum(n, g)
  {
    if n > 0 { SumCong(n - 1, f, g); }
  }

  lemma {:induction false} SumScale(n: nat, c: real, f: int -> real, g: int -> real)
    requires forall i :: 0 <= i < n ==> g(i) == c * f(i)
    ensures Sum(n, g) == c * Sum(n, f)
  {
    if n > 0 { SumScale(n - 1, c, f, g); }
  }

  lemma {:induction false} SumAdd(n: nat, f: int -> real, g: int -> real, h: int -> real)
    requires forall i :: 0 <= i < n ==> h(i) == f(i) + g(i)
    ensures Sum(n, h) == Sum(n, f) + Sum(n, g)
  {
    if n > 0 { SumAdd(n - 1, f, g, h); }
  }

  lemma OneMore(k: real, c: real)
    ensures (k + 1.0) * c == k * c + c
  {
  }

  lemma {:induction false} SumConst(n: nat, c: real, f: int -> real)
    requires forall i :: 0 <= i < n ==> f(i) == c
    ensures Sum(n, f) == n as real * c
  {
    if n > 0 {
      SumConst(n - 1, c, f);
      OneMore((n - 1) as real, c);
    }
  }

  lemma {:induction false} SumMono(n: nat, f: int -> real, g: int -> real)
    requires forall i :: 0 <= i < n ==> f(i) <= g(i)
    ensures Sum(n, f) <= Sum(n, g)
  {
    if n > 0 { SumMono(n - 1, f, g); }
  }

  /** Terms that vanish from index `m` on contribute nothing. */
  lemma {:induction false} SumTail(m: nat, n: nat, f: int -> real)
    requires m <= n
    requires forall i :: m <= i < n ==> f(i) == 0.0
    ensures Sum(n, f) == Sum(m, f)
  {
    if m < n { SumTail(m, n - 1, f); }
  }

  /** A sum whose terms vanish below `lo` may be re-indexed to start there. */
  lemma {:induction false} SumShift(lo: nat, n: nat, f: int -> real, g: int -> real)
    requires forall i :: 0 <= i < lo ==> f(i) == 0.0
    requires forall i :: 0 <= i < n ==> g(i) == f(lo + i)
    ensures Sum(lo + n, f) == Sum(n, g)
  {
    if n == 0 {
      SumTail(0, lo, f);
    } else {
      SumShift(lo, n - 1, f, g);
      assert f(lo + n - 1) == g(n - 1);
    }
  }

  /** The order of a double sum does not matter. */
  lemma {:induction false} SumSwap(n: nat, m: nat, f: (int, int) -> real)
    ensures Sum(n, i => Sum(m, j => f(i, j))) == Sum(m, j => Sum(n, i => f(i, j)))
  {
    var inner := i => Sum(m, j => f(i, j));
    if n == 0 {
      SumConst(m, 0.0, j => Sum(n, i => f(i, j)));
    } else {
      SumSwap(n - 1, m, f);
      var last := j => f(n - 1, j);
      var rest := j => Sum(n - 1, i => f(i, j));
      var whole := j => Sum(n, i => f(i, j));
      forall j | 0 <= j < m ensures whole(j) == rest(j) + last(j) {
        var col := i => f(i, j);
        assert whole(j) == Sum(n, col) == Sum(n - 1, col) + col(n - 1);
      }
      SumAdd(m, rest, last, whole);
      assert inner(n - 1) == Sum(m, last);
    }
  }
}
