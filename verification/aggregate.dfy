/** Aggregation of the worker table: the sums `main` forms over the records
    of the clients it started. */
module Aggregate {
  import opened Stats

  /** The sum, field by field, of the records of clients 0 .. n-1. */
  function Sum(tld: seq<Counters>, n: nat): Counters
    requires n <= |tld|
  {
    if n == 0 then Zero else Plus(Sum(tld, n - 1), tld[n - 1])
  }

  /** The summing loop of `main`, one client after the other. */
  method Aggregate(tld: seq<Counters>, n: nat) returns (total: Counters)
    requires n <= |tld|
    ensures total == Sum(tld, n)
  {
    var data: nat, pages: nat, errors: nat, respTime: nat := 0, 0, 0, 0;
    var i := 0;
    while i < n
      invariant i <= n
      invariant Counters(pages, data, errors, respTime) == Sum(tld, i)
    {
      data := data + tld[i].bytes;
      pages := pages + tld[i].pages;
      errors := errors + tld[i].errors;
      respTime := respTime + tld[i].respTimeUs;
      i := i + 1;
    }
    total := Counters(pages, data, errors, respTime);
  }

  /** Only the first n records matter: slots of clients that were never
      started do not reach the sum. */
  lemma {:induction false} SumOnlyFirst(a: seq<Counters>, b: seq<Counters>, n: nat)
    requires n <= |a| && n <= |b|
    requires forall i :: 0 <= i < n ==> a[i] == b[i]
    ensures Sum(a, n) == Sum(b, n)
  {
    if n > 0 {
      SumOnlyFirst(a, b, n - 1);
    }
  }

  /** Zeroed slots from k on add nothing: every sum reaching past k equals
      the sum of the first k records. */
  lemma {:induction false} SumZeroTail(tld: seq<Counters>, k: nat, m: nat)
    requires k <= m <= |tld|
    requires forall i :: k <= i < m ==> tld[i] == Zero
    ensures Sum(tld, m) == Sum(tld, k)
  {
    if k < m {
      SumZeroTail(tld, k, m - 1);
      assert tld[m - 1] == Zero;
    }
  }

  /** Counters that only grow give sums that only grow. */
  lemma {:induction false} SumMonotone(a: seq<Counters>, b: seq<Counters>, n: nat)
    requires n <= |a| && n <= |b|
    requires forall i :: 0 <= i < n ==> LessEq(a[i], b[i])
    ensures LessEq(Sum(a, n), Sum(b, n))
  {
    if n > 0 {
      SumMonotone(a, b, n - 1);
      assert LessEq(a[n - 1], b[n - 1]);
    }
  }

  /** When every client ended with k finished iterations, pages and errors
      of the aggregate together count n * k requests. */
  lemma {:induction false} SumPagesPlusErrors(tld: seq<Counters>, n: nat, k: nat)
    requires n <= |tld|
    requires forall i :: 0 <= i < n ==> tld[i].pages + tld[i].errors == k
    ensures Sum(tld, n).pages + Sum(tld, n).errors == n * k
  {
    if n > 0 {
      SumPagesPlusErrors(tld, n - 1, k);
      assert tld[n - 1].pages + tld[n - 1].errors == k;
      assert (n - 1) * k + k == n * k;
    }
  }

  /** When all clients got the same page and error counts, the aggregate
      holds n times each. */
  lemma {:induction false} SumUniform(tld: seq<Counters>, n: nat, pages: nat, errors: nat)
    requires n <= |tld|
    requires forall i :: 0 <= i < n ==> tld[i].pages == pages && tld[i].errors == errors
    ensures Sum(tld, n).pages == n * pages && Sum(tld, n).errors == n * errors
  {
    if n > 0 {
      SumUniform(tld, n - 1, pages, errors);
      assert tld[n - 1].pages == pages && tld[n - 1].errors == errors;
      assert (n - 1) * pages + pages == n * pages;
      assert (n - 1) * errors + errors == n * errors;
    }
  }
}
