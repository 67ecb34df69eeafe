/** The whole program as `main` drives it: validation, one worker per
    client, the final aggregate, the closing report and the exit status.
    Each client's requests are given as a trace of attempts, indexed by the
    client's slot in the worker table. */
module Program {
  import opened Config
  import opened Stats
  import opened Worker
  import opened Aggregate

  datatype Option<T> = None | Some(value: T)

  /** How the process ends: with an exit status, or killed by a division by zero. */
  datatype ProcessEnd = Exited(status: int) | Crashed

  /** The outcome of the unsigned division `cummRespTime / totalPages`. */
  datatype Quotient = Quotient(q: nat) | DivideByZero

  /** The average response time as the closing report computes it: the
      division is not guarded, so a run without a single page divides by zero. */
  function AverageAsWritten(total: Counters): (r: Quotient)
    ensures r == DivideByZero <==> total.pages == 0
    ensures r.Quotient? ==> r.q * total.pages <= total.respTimeUs < (r.q + 1) * total.pages
  {
    if total.pages == 0 then DivideByZero else Quotient(total.respTimeUs / total.pages)
  }

  /** The average response time with the guard the report needs: none
      when no page was received, otherwise the truncated mean. */
  function AverageLatency(total: Counters): (r: Option<nat>)
    ensures r.None? <==> total.pages == 0
    ensures r.Some? ==> r.value * total.pages <= total.respTimeUs < (r.value + 1) * total.pages
  {
    if total.pages == 0 then None else Some(total.respTimeUs / total.pages)
  }

  /** Where both are defined, the guarded average is the one the code computes. */
  lemma AverageAgrees(total: Counters)
    ensures AverageAsWritten(total).Quotient? <==> AverageLatency(total).Some?
    ensures AverageLatency(total).Some? ==> AverageAsWritten(total).q == AverageLatency(total).value
  {
  }

  /** The figures of the closing report that are not timings. */
  datatype Summary = Summary(pages: nat, kilobytes: nat, errors: nat, averageUs: Option<nat>)

  /** The closing report with the guarded average: data in whole kilobytes
      (1024 bytes, rounded down). */
  function FinalSummary(total: Counters): (r: Summary)
    ensures r.pages == total.pages && r.errors == total.errors
    ensures r.kilobytes * 1024 <= total.bytes < (r.kilobytes + 1) * 1024
    ensures r.averageUs.None? <==> total.pages == 0
    ensures r.averageUs.Some? ==>
              r.averageUs.value * total.pages <= total.respTimeUs < (r.averageUs.value + 1) * total.pages
  {
    Summary(total.pages, total.bytes / 1024, total.errors, AverageLatency(total))
  }

  /** How the worker in slot i ends: it starts from zeroed counters and
      runs the configured number of iterations. */
  function ClientEnd(o: Options, traces: nat -> seq<Attempt>, i: nat): WorkerEnd {
    Run(o.numIter, o.maxErrorsPerClient, Zero, traces(i))
  }

  /** The worker table once every started client has ended. The slots of
      clients that were never started keep their zeroed record, so summing
      further than `num_threads` slots changes nothing. */
  function FinalTable(o: Options, traces: nat -> seq<Attempt>): (tld: Table)
    ensures forall i :: 0 <= i < o.numThreads && i < MaxThreads ==> tld[i] == ClientEnd(o, traces, i).counters
    ensures 0 <= o.numThreads <= MaxThreads ==>
              forall m: nat :: o.numThreads <= m <= MaxThreads ==> Sum(tld, m) == Sum(tld, o.numThreads as nat)
  {
    var tld: Table := seq(MaxThreads, i => if 0 <= i < o.numThreads then ClientEnd(o, traces, i).counters else Zero);
    assert 0 <= o.numThreads <= MaxThreads ==>
             forall m: nat :: o.numThreads <= m <= MaxThreads ==> Sum(tld, m) == Sum(tld, o.numThreads as nat) by {
      if 0 <= o.numThreads <= MaxThreads {
        forall m: nat | o.numThreads <= m <= MaxThreads
          ensures Sum(tld, m) == Sum(tld, o.numThreads as nat)
        {
          SumZeroTail(tld, o.numThreads as nat, m);
        }
      }
    }
    tld
  }

  /** The totals of the closing report. */
  function Total(o: Options, traces: nat -> seq<Attempt>): Counters
    requires Valid(o)
  {
    Sum(FinalTable(o, traces), o.numThreads as nat)
  }

  /** The traces describe the run up to its end: some client's breaker
      ends the process, or no started client runs out of attempts before its
      loop ends on the iteration limit or the stop flag. */
  predicate Covered(o: Options, traces: nat -> seq<Attempt>) {
    || Tripped(o, traces)
    || forall i: nat :: i < o.numThreads ==> ClientEnd(o, traces, i).reason != TraceExhausted
  }

  /** Some started client hit its error allowance and called `exit(-1)`. */
  predicate Tripped(o: Options, traces: nat -> seq<Attempt>) {
    exists i: nat :: i < o.numThreads && ClientEnd(o, traces, i).reason == TooManyErrors
  }

  /** How `main` ends, as the code is written. A refused configuration
      makes `main` call the usage printer, which itself exits with status 0
      before `main` reaches its own `exit(-1)`. A worker that exceeds its
      error allowance ends the process with status -1. Otherwise the
      closing report divides by the page count, with no guard. */
  function ProgramEndAsWritten(o: Options, traces: nat -> seq<Attempt>): (r: ProcessEnd)
    requires Valid(o) ==> Covered(o, traces)
    ensures !Valid(o) ==> r == Exited(0)
    ensures Valid(o) && Tripped(o, traces) ==> r == Exited(-1)
    ensures r == Crashed <==> Valid(o) && !Tripped(o, traces) && Total(o, traces).pages == 0
  {
    match Validate(o)
    case Rejected(_) => Exited(0)
    case Accepted =>
      if Tripped(o, traces) then Exited(-1)
      else
        match AverageAsWritten(Total(o, traces))
        case DivideByZero => Crashed
        case Quotient(_) => Exited(0)
  }

  /** How `main` is meant to end: a refused configuration and a worker over
      its error allowance both end with status -1; any other run ends with
      status 0, its closing report without an average when no page came back. */
  function ProgramEnd(o: Options, traces: nat -> seq<Attempt>): (r: ProcessEnd)
    requires Valid(o) ==> Covered(o, traces)
    ensures r.Exited?
    ensures r == Exited(0) <==> Valid(o) && !Tripped(o, traces)
    ensures r != Exited(0) ==> r == Exited(-1)
  {
    match Validate(o)
    case Rejected(_) => Exited(-1)
    case Accepted =>
      if Tripped(o, traces) then Exited(-1)
      else Exited(0)
  }

  /** The code as written and as intended part ways exactly on refused
      configurations and on completed runs that received no page. */
  lemma EndsDiffer(o: Options, traces: nat -> seq<Attempt>)
    requires Valid(o) ==> Covered(o, traces)
    ensures ProgramEndAsWritten(o, traces) != ProgramEnd(o, traces) <==>
              !Valid(o) || (!Tripped(o, traces) && Total(o, traces).pages == 0)
  {
  }

  /** Both limits given: the configuration is refused, yet the process exits with status 0. */
  lemma InvalidOptionsExitZero(traces: nat -> seq<Attempt>)
    ensures var o := Options(1, 10, 10, 0, 5, 3, Url("http://localhost/"));
            && Validate(o) == Rejected(BothLimits)
            && ProgramEndAsWritten(o, traces) == Exited(0)
            && ProgramEnd(o, traces) == Exited(-1)
  {
  }

  /** One client, one iteration answered with status 500: the error stays
      within the allowance, no page was received, and the closing report
      divides by zero. */
  lemma FailedRunCrashes(traces: nat -> seq<Attempt>)
    requires traces(0) == [Attempt([], Http(500, 1200), false)]
    ensures var o := Options(1, 1, Unbounded, 0, 5, 3, Url("http://localhost/"));
            && ProgramEndAsWritten(o, traces) == Crashed
            && ProgramEnd(o, traces) == Exited(0)
  {
    var o := Options(1, 1, Unbounded, 0, 5, 3, Url("http://localhost/"));
    var a := traces(0)[0];
    ReceiveCountsBytes(Zero, a.chunks);
    var e := ClientEnd(o, traces, 0);
    assert e.reason == LimitReached && e.counters.pages == 0 by {
      assert Run(0, 3, Iterate(Zero, a, 3).counters, traces(0)[1..]).reason == LimitReached;
    }
    assert !Tripped(o, traces);
    assert Total(o, traces).pages == 0 by {
      var tld := FinalTable(o, traces);
      assert tld[0] == e.counters;
      assert Sum(tld, 1) == Plus(Sum(tld, 0), tld[0]);
    }
  }

  /** Requests issued by the first n clients. */
  function Requests(o: Options, traces: nat -> seq<Attempt>, n: nat): nat {
    if n == 0 then 0 else Requests(o, traces, n - 1) + ClientEnd(o, traces, n - 1).iterations
  }

  /** Every request of every client is counted exactly once in the closing
      report: as a page or as an error. */
  lemma {:induction false} RequestsAccounted(o: Options, traces: nat -> seq<Attempt>, n: nat)
    requires n <= o.numThreads && n <= MaxThreads
    ensures var total := Sum(FinalTable(o, traces), n);
            total.pages + total.errors == Requests(o, traces, n)
  {
    if n > 0 {
      var tld := FinalTable(o, traces);
      var e := ClientEnd(o, traces, n - 1);
      assert Sum(tld, n) == Plus(Sum(tld, n - 1), tld[n - 1]);
      assert tld[n - 1] == e.counters;
      assert e.counters.pages + e.counters.errors == e.iterations by {
        RunPagesPlusErrors(o.numIter, o.maxErrorsPerClient, Zero, traces(n - 1));
      }
      RequestsAccounted(o, traces, n - 1);
    }
  }

  /** The closing report of a run that reaches it, with the guarded
      average; none when the configuration is refused or a worker ended the
      process. Pages and errors of the report account for every request. */
  function ClosingReport(o: Options, traces: nat -> seq<Attempt>): (r: Option<Summary>)
    requires Valid(o) ==> Covered(o, traces)
    ensures r.Some? <==> ProgramEnd(o, traces) == Exited(0)
    ensures r.Some? ==> r.value.pages + r.value.errors == Requests(o, traces, o.numThreads as nat)
    ensures r.Some? ==> (r.value.averageUs.None? <==> r.value.pages == 0)
  {
    if Validate(o) == Accepted && !Tripped(o, traces) then
      RequestsAccounted(o, traces, o.numThreads as nat);
      Some(FinalSummary(Total(o, traces)))
    else None
  }

  /** Four clients with 100 iterations each against a server that always
      answers 200: 400 pages, no errors, status 0. */
  lemma FourClientsAllPages(o: Options, traces: nat -> seq<Attempt>)
    requires Valid(o) && o.numThreads == 4 && o.numIter == 100
    requires forall i: nat :: 100 <= |traces(i)|
    requires forall i: nat, j :: 0 <= j < |traces(i)| ==> SucceedsQuietly(traces(i)[j])
    ensures Total(o, traces).pages == 400 && Total(o, traces).errors == 0
    ensures ProgramEndAsWritten(o, traces) == Exited(0)
  {
    var tld := FinalTable(o, traces);
    forall i | 0 <= i < 4
      ensures tld[i].pages == 100 && tld[i].errors == 0
    {
      assert 100 <= |traces(i)|;
      AlwaysSucceedingCompletes(100, o.maxErrorsPerClient, Zero, traces(i));
    }
    SumUniform(tld, 4, 100, 0);
    forall i: nat | i < o.numThreads
      ensures ClientEnd(o, traces, i).reason != TooManyErrors
    {
      AlwaysSucceedingCompletes(100, o.maxErrorsPerClient, Zero, traces(i));
    }
  }

  /** Against a server that always fails, the first client to reach
      maxErrors + 1 errors ends the process with status -1, as written and
      as intended, provided the iteration limit leaves room for that many. */
  lemma AlwaysFailingExits(o: Options, traces: nat -> seq<Attempt>)
    requires Valid(o) && o.maxErrorsPerClient + 1 <= o.numIter
    requires o.maxErrorsPerClient + 1 <= |traces(0)|
    requires forall j :: 0 <= j < |traces(0)| ==> FailsQuietly(traces(0)[j])
    ensures Covered(o, traces)
    ensures ProgramEndAsWritten(o, traces) == Exited(-1)
    ensures ProgramEnd(o, traces) == Exited(-1)
  {
    assert Tripped(o, traces) by {
      AlwaysFailingTripsBreaker(o.numIter, o.maxErrorsPerClient, Zero, traces(0));
      assert ClientEnd(o, traces, 0).reason == TooManyErrors;
    }
  }
}
