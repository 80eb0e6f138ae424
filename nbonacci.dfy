/** Model of `nbonacci(series, n)`: the n-th term of the sequence whose first
    `series` terms are 1 and whose every later term is the sum of the `series` terms
    before it (series 2 is Fibonacci). Invalid arguments end the program in the
    source; here they are failures.
 */
module Nbonacci {

  /** Why `nbonacci` refuses its arguments. */
  datatype NbonacciError = SeriesBelowTwo | IndexBelowOne

  datatype Result<T> = Success(value: T) | Failure(error: NbonacciError)

  /** The n-th term, for valid arguments. */
  function Nth(series: nat, n: nat): (r: nat)
    requires series >= 2 && n >= 1
    ensures r >= 1
    decreases n, series + 1
  {
    if n <= series then 1 else PreviousSum(series, n, series)
  }

  /** The `sum +=` loop after its k-th round: terms n - 1 down to n - k, added in the
      source's order. Each is at least 1, so the sum is at least k. */
  function PreviousSum(series: nat, n: nat, k: nat): (r: nat)
    requires 2 <= series < n && k <= series
    ensures r >= k
    decreases n, k
  {
    if k == 0 then 0 else PreviousSum(series, n, k - 1) + Nth(series, n - k)
  }

  /** `nbonacci`: rejects a series below 2 and an index below 1, and otherwise gives
      the n-th term. */
  function Nbonacci(series: nat, n: nat): (r: Result<nat>)
    ensures r.Failure? <==> series < 2 || n < 1
    ensures series < 2 ==> r == Failure(SeriesBelowTwo)
    ensures series >= 2 && n < 1 ==> r == Failure(IndexBelowOne)
    ensures r.Success? ==> r.value >= 1
    ensures r.Success? && n <= series ==> r.value == 1
  {
    if series < 2 then Failure(SeriesBelowTwo)
    else if n < 1 then Failure(IndexBelowOne)
    else Success(Nth(series, n))
  }

  /** Past the first `series` terms, each term adds the one before it to at least
      `series - 1` more, so the sequence grows by at least `series - 1` per step. */
  lemma {:induction false} PreviousSumBound(series: nat, n: nat, k: nat)
    requires 2 <= series < n && 1 <= k <= series
    ensures PreviousSum(series, n, k) >= Nth(series, n - 1) + (k - 1)
    decreases k
  {
    if k > 1 {
      PreviousSumBound(series, n, k - 1);
    }
  }

  /** Each term is at least the one before it, and from term `series + 1` on, strictly
      greater. */
  lemma Growth(series: nat, n: nat)
    requires series >= 2 && n >= 1
    ensures Nth(series, n) <= Nth(series, n + 1)
    ensures n >= series ==> Nth(series, n) + series - 1 <= Nth(series, n + 1)
  {
    if n + 1 > series {
      PreviousSumBound(series, n + 1, series);
    }
  }

  /** Later terms are never smaller. */
  lemma {:induction false} Monotone(series: nat, m: nat, n: nat)
    requires series >= 2 && 1 <= m <= n
    ensures Nth(series, m) <= Nth(series, n)
    decreases n - m
  {
    if m < n {
      Growth(series, m);
      Monotone(series, m + 1, n);
    }
  }

  /** A sum of k terms that all lie in the leading run of ones is k. */
  lemma {:induction false} SumOfOnes(series: nat, n: nat, k: nat)
    requires 2 <= series < n && k <= series && n - 1 <= series
    ensures PreviousSum(series, n, k) == k
    decreases k
  {
    if k > 0 {
      SumOfOnes(series, n, k - 1);
    }
  }

  /** The first term after the run of ones is `series`. */
  lemma FirstSum(series: nat)
    requires series >= 2
    ensures Nth(series, series + 1) == series
  {
    SumOfOnes(series, series + 1, series);
  }

  /** The Fibonacci numbers, 1, 1, 2, 3, 5, 8, ... */
  function Fib(n: nat): nat
    requires n >= 1
  {
    if n <= 2 then 1 else Fib(n - 1) + Fib(n - 2)
  }

  /** Series 2 is the Fibonacci sequence. */
  lemma {:induction false} SeriesTwoIsFibonacci(n: nat)
    requires n >= 1
    ensures Nth(2, n) == Fib(n)
  {
    if n > 2 {
      assert PreviousSum(2, n, 1) == Nth(2, n - 1);
      SeriesTwoIsFibonacci(n - 1);
      SeriesTwoIsFibonacci(n - 2);
    }
  }

  /** The opening terms of the Fibonacci and Tribonacci rows the program prints. */
  lemma OpeningTerms()
    ensures [Nth(2, 1), Nth(2, 2), Nth(2, 3), Nth(2, 4), Nth(2, 5), Nth(2, 6)] == [1, 1, 2, 3, 5, 8]
    ensures [Nth(3, 1), Nth(3, 2), Nth(3, 3), Nth(3, 4), Nth(3, 5), Nth(3, 6), Nth(3, 7)] == [1, 1, 1, 3, 5, 9, 17]
  {
  }
}
