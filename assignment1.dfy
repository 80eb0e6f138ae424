/** Model of the `nbonacci` in the first assignment's program. Its text is the same
    as the one in the n-bonacci module; here its `sum +=` loop is read literally, as
    an accumulator running from i = 1 to `series`, and the two are proved to agree.
 */
module Assignment1 {
  import N = Nbonacci

  /** The n-th term, for valid arguments. */
  function Nth(series: nat, n: nat): (r: nat)
    requires series >= 2 && n >= 1
    ensures r >= 1
    decreases n, series + 2
  {
    if n <= series then 1 else Accumulate(series, n, 1, 0)
  }

  /** The loop from round i on, with `sum` the total of the rounds before it. Each
      remaining round adds a term of at least 1. */
  function Accumulate(series: nat, n: nat, i: nat, sum: nat): (r: nat)
    requires 2 <= series < n && 1 <= i <= series + 1
    ensures r >= sum + (series + 1 - i)
    decreases n, series + 1 - i
  {
    if i > series then sum else Accumulate(series, n, i + 1, sum + Nth(series, n - i))
  }

  /** `nbonacci`: rejects a series below 2 and an index below 1, and otherwise gives
      the n-th term. */
  function Nbonacci(series: nat, n: nat): (r: N.Result<nat>)
    ensures r.Failure? <==> series < 2 || n < 1
    ensures series < 2 ==> r == N.Failure(N.SeriesBelowTwo)
    ensures series >= 2 && n < 1 ==> r == N.Failure(N.IndexBelowOne)
    ensures r.Success? && n <= series ==> r.value == 1
  {
    if series < 2 then N.Failure(N.SeriesBelowTwo)
    else if n < 1 then N.Failure(N.IndexBelowOne)
    else N.Success(Nth(series, n))
  }

  /** Both programs' terms agree. */
  lemma {:induction false} NthAgrees(series: nat, n: nat)
    requires series >= 2 && n >= 1
    ensures Nth(series, n) == N.Nth(series, n)
    decreases n, series + 2
  {
    if n > series {
      AccumulateAgrees(series, n, 1, 0);
    }
  }

  /** Finishing the loop from round i adds the terms the other model sums from
      round i on. */
  lemma {:induction false} AccumulateAgrees(series: nat, n: nat, i: nat, sum: nat)
    requires 2 <= series < n && 1 <= i <= series + 1
    ensures Accumulate(series, n, i, sum) + N.PreviousSum(series, n, i - 1) == sum + N.PreviousSum(series, n, series)
    decreases n, series + 1 - i
  {
    if i <= series {
      NthAgrees(series, n - i);
      AccumulateAgrees(series, n, i + 1, sum + Nth(series, n - i));
    }
  }

  /** The two `nbonacci` functions give the same result on every input. */
  lemma SameAsNbonacci(series: nat, n: nat)
    ensures Nbonacci(series, n) == N.Nbonacci(series, n)
  {
    if series >= 2 && n >= 1 {
      NthAgrees(series, n);
    }
  }

  /** Series 2 is the Fibonacci sequence here too. */
  lemma SeriesTwoIsFibonacci(n: nat)
    requires n >= 1
    ensures Nth(2, n) == N.Fib(n)
  {
    NthAgrees(2, n);
    N.SeriesTwoIsFibonacci(n);
  }
}
