/** One client: the byte-counting write callback and the request loop of
    `workload`, with each `curl_easy_perform` replaced by its observed outcome. */
module Worker {
  import opened Stats

  const U32Modulus: nat := 0x1_0000_0000
  const U64Modulus: nat := 0x1_0000_0000_0000_0000

  /** A C `size_t` (64 bits). */
  type u64 = x: nat | x < 0x1_0000_0000_0000_0000

  /** One call of the write callback: `nitems` items of `size` bytes. */
  datatype Chunk = Chunk(size: u64, nitems: u64)

  /** The chunk length as the callback computes it: the `size_t` product,
      then truncated to a 32-bit `unsigned`. */
  function ChunkLength(c: Chunk): (n: nat)
    ensures n < U32Modulus
    ensures n == (c.size * c.nitems) % U32Modulus
  {
    var product := c.size * c.nitems;
    ModOfMod(product);
    (product % U64Modulus) % U32Modulus
  }

  /** Truncating to 64 bits and then to 32 bits is truncating to 32 bits. */
  lemma ModOfMod(x: nat)
    ensures (x % U64Modulus) % U32Modulus == x % U32Modulus
  {
    var q := x / U64Modulus;
    var r := x % U64Modulus;
    assert x == q * U64Modulus + r;
    assert q * U64Modulus == (q * U32Modulus) * U32Modulus;
    assert x == (q * U32Modulus) * U32Modulus + r;
  }

  /** write_callback: adds the chunk length to the byte counter and returns it. */
  function WriteCallback(s: Counters, c: Chunk): (r: (Counters, nat))
    ensures r.1 < U32Modulus
    ensures c.size * c.nitems < U32Modulus ==> r.1 == c.size * c.nitems
    ensures r.0 == s.(bytes := s.bytes + r.1)
  {
    var sz := ChunkLength(c);
    (s.(bytes := s.bytes + sz), sz)
  }

  /** The callback applied to every chunk of one response, in order. */
  function Receive(s: Counters, chunks: seq<Chunk>): Counters
    decreases |chunks|
  {
    if |chunks| == 0 then s
    else Receive(WriteCallback(s, chunks[0]).0, chunks[1..])
  }

  /** Reference definition: the total length of a response's chunks. */
  function ChunkBytes(chunks: seq<Chunk>): nat {
    if |chunks| == 0 then 0 else ChunkLength(chunks[0]) + ChunkBytes(chunks[1..])
  }

  /** Receiving a response adds its chunk lengths to the byte counter and
      touches nothing else, whatever the outcome of the request. */
  lemma {:induction false} ReceiveCountsBytes(s: Counters, chunks: seq<Chunk>)
    ensures Receive(s, chunks) == s.(bytes := s.bytes + ChunkBytes(chunks))
    decreases |chunks|
  {
    if |chunks| > 0 {
      ReceiveCountsBytes(WriteCallback(s, chunks[0]).0, chunks[1..]);
    }
  }

  /** What `curl_easy_perform` reported: a transport failure, or an HTTP
      status code with the measured latency. */
  datatype Transfer = TransportError | Http(code: int, latencyUs: nat)

  /** Only a 200 reply counts as a page. */
  predicate IsPage(t: Transfer) {
    t.Http? && t.code == 200
  }

  /** One loop iteration as seen from outside: the chunks the callback was
      given, the transfer outcome, and whether `finishFlag` was set when the
      worker sampled it after accounting. */
  datatype Attempt = Attempt(chunks: seq<Chunk>, transfer: Transfer, stopSeen: bool)

  /** The counters after accounting, and whether the error breaker fired. */
  datatype Accounted = Continue(counters: Counters) | Abort(counters: Counters)

  /** The accounting of one finished request. */
  function Account(s: Counters, t: Transfer, maxErrors: nat): (r: Accounted)
    ensures IsPage(t) ==> r.counters == s.(pages := s.pages + 1, respTimeUs := s.respTimeUs + t.latencyUs)
    ensures !IsPage(t) ==> r.counters == s.(errors := s.errors + 1)
    ensures r.counters.pages + r.counters.errors == s.pages + s.errors + 1
    ensures r.Abort? <==> r.counters.errors > maxErrors && r.counters.errors != s.errors
    ensures s.errors <= maxErrors ==> (r.Abort? <==> r.counters.errors == maxErrors + 1)
  {
    match t
    case TransportError =>
      var s' := s.(errors := s.errors + 1);
      if s'.errors > maxErrors then Abort(s') else Continue(s')
    case Http(code, latency) =>
      if code != 200 then
        var s' := s.(errors := s.errors + 1);
        if s'.errors > maxErrors then Abort(s') else Continue(s')
      else
        Continue(s.(pages := s.pages + 1, respTimeUs := s.respTimeUs + latency))
  }

  /** One iteration: the response is received through the callback, then accounted. */
  function Iterate(s: Counters, a: Attempt, maxErrors: nat): Accounted {
    Account(Receive(s, a.chunks), a.transfer, maxErrors)
  }

  /** Why the loop stopped. `TooManyErrors` is the process-wide `exit(-1)`;
      `TraceExhausted` means the given attempts ran out before the loop ended. */
  datatype ExitReason = LimitReached | StopFlag | TooManyErrors | TraceExhausted

  datatype WorkerEnd = WorkerEnd(reason: ExitReason, counters: Counters, iterations: nat)

  /** The request loop of `workload` over at most `budget` iterations. */
  function Run(budget: nat, maxErrors: nat, s: Counters, trace: seq<Attempt>): (e: WorkerEnd)
    ensures e.iterations <= budget && e.iterations <= |trace|
    ensures e.reason == LimitReached ==> e.iterations == budget
    ensures e.reason == TraceExhausted ==> e.iterations == |trace| < budget
    ensures e.reason == StopFlag ==> 0 < e.iterations && trace[e.iterations - 1].stopSeen
    ensures e.reason == TooManyErrors ==> 0 < e.iterations
    ensures forall j :: 0 <= j < e.iterations - 1 ==> !trace[j].stopSeen
    ensures (e.reason == LimitReached || e.reason == TraceExhausted) && 0 < e.iterations
            ==> !trace[e.iterations - 1].stopSeen
    decreases budget
  {
    if budget == 0 then WorkerEnd(LimitReached, s, 0)
    else if |trace| == 0 then WorkerEnd(TraceExhausted, s, 0)
    else
      match Iterate(s, trace[0], maxErrors)
      case Abort(s') => WorkerEnd(TooManyErrors, s', 1)
      case Continue(s') =>
        if trace[0].stopSeen then WorkerEnd(StopFlag, s', 1)
        else
          var e := Run(budget - 1, maxErrors, s', trace[1..]);
          e.(iterations := e.iterations + 1)
  }

  /** The counters one attempt contributes when it is accounted. */
  function Contribution(a: Attempt): Counters {
    var page := IsPage(a.transfer);
    Counters(if page then 1 else 0, ChunkBytes(a.chunks), if page then 0 else 1,
             if page then a.transfer.latencyUs else 0)
  }

  /** Reference definition: the sum of the contributions of the first n attempts. */
  function Tally(trace: seq<Attempt>, n: nat): Counters
    requires n <= |trace|
  {
    if n == 0 then Zero else Plus(Contribution(trace[0]), Tally(trace[1..], n - 1))
  }

  lemma IterateContributes(s: Counters, a: Attempt, maxErrors: nat)
    ensures Iterate(s, a, maxErrors).counters == Plus(s, Contribution(a))
  {
    ReceiveCountsBytes(s, a.chunks);
  }

  lemma PlusZero(c: Counters)
    ensures Plus(c, Zero) == c
  {
  }

  lemma PlusAssociative(a: Counters, b: Counters, c: Counters)
    ensures Plus(Plus(a, b), c) == Plus(a, Plus(b, c))
  {
  }

  /** The counters at the end of the loop are the start counters plus the
      tally of exactly the iterations that ran, including the last one. */
  lemma {:induction false} RunCounts(budget: nat, maxErrors: nat, s: Counters, trace: seq<Attempt>)
    ensures var e := Run(budget, maxErrors, s, trace);
            e.counters == Plus(s, Tally(trace, e.iterations))
    decreases budget
  {
    if budget > 0 && |trace| > 0 {
      var r := Iterate(s, trace[0], maxErrors);
      if r.Abort? || trace[0].stopSeen {
        RunCountsLast(budget, maxErrors, s, trace);
      } else {
        var e' := Run(budget - 1, maxErrors, r.counters, trace[1..]);
        RunContinues(budget, maxErrors, s, trace);
        assert e'.counters == Plus(r.counters, Tally(trace[1..], e'.iterations)) by {
          RunCounts(budget - 1, maxErrors, r.counters, trace[1..]);
        }
        assert r.counters == Plus(s, Contribution(trace[0])) by {
          IterateContributes(s, trace[0], maxErrors);
        }
        TallyStep(s, trace, e'.iterations, e'.counters);
      }
    }
  }

  /** The case of RunCounts where the first iteration ends the loop. */
  lemma RunCountsLast(budget: nat, maxErrors: nat, s: Counters, trace: seq<Attempt>)
    requires budget > 0 && |trace| > 0
    requires Iterate(s, trace[0], maxErrors).Abort? || trace[0].stopSeen
    ensures var e := Run(budget, maxErrors, s, trace);
            e.counters == Plus(s, Tally(trace, e.iterations))
  {
    var c := Contribution(trace[0]);
    IterateContributes(s, trace[0], maxErrors);
    assert Tally(trace, 1) == c by {
      PlusZero(c);
    }
  }

  /** An iteration that neither trips the breaker nor sees the stop flag
      hands its counters to the rest of the loop. */
  lemma RunContinues(budget: nat, maxErrors: nat, s: Counters, trace: seq<Attempt>)
    requires budget > 0 && |trace| > 0
    requires Iterate(s, trace[0], maxErrors).Continue? && !trace[0].stopSeen
    ensures var e := Run(budget - 1, maxErrors, Iterate(s, trace[0], maxErrors).counters, trace[1..]);
            Run(budget, maxErrors, s, trace) == e.(iterations := e.iterations + 1)
  {
  }

  /** Counters that hold the start plus the first attempt plus the tally
      of k later ones hold the start plus the tally of k + 1 attempts. */
  lemma TallyStep(s: Counters, trace: seq<Attempt>, k: nat, counters: Counters)
    requires k < |trace|
    requires counters == Plus(Plus(s, Contribution(trace[0])), Tally(trace[1..], k))
    ensures counters == Plus(s, Tally(trace, k + 1))
  {
    PlusAssociative(s, Contribution(trace[0]), Tally(trace[1..], k));
  }

  /** Each completed iteration adds one to exactly one of pages and errors. */
  lemma {:induction false} RunPagesPlusErrors(budget: nat, maxErrors: nat, s: Counters, trace: seq<Attempt>)
    ensures var e := Run(budget, maxErrors, s, trace);
            e.counters.pages + e.counters.errors == s.pages + s.errors + e.iterations
    decreases budget
  {
    if budget > 0 && |trace| > 0 {
      ReceiveCountsBytes(s, trace[0].chunks);
      var r := Iterate(s, trace[0], maxErrors);
      if r.Continue? && !trace[0].stopSeen {
        RunPagesPlusErrors(budget - 1, maxErrors, r.counters, trace[1..]);
      }
    }
  }

  /** The error breaker: starting within the allowance, the process is
      aborted exactly when the error count first reaches maxErrors + 1, and
      every other way out of the loop leaves the count within the allowance. */
  lemma {:induction false} RunBreaker(budget: nat, maxErrors: nat, s: Counters, trace: seq<Attempt>)
    requires s.errors <= maxErrors
    ensures var e := Run(budget, maxErrors, s, trace);
            && (e.reason == TooManyErrors ==> e.counters.errors == maxErrors + 1)
            && (e.reason != TooManyErrors ==> e.counters.errors <= maxErrors)
    decreases budget
  {
    if budget > 0 && |trace| > 0 {
      var r := Iterate(s, trace[0], maxErrors);
      ReceiveCountsBytes(s, trace[0].chunks);
      if r.Continue? && !trace[0].stopSeen {
        RunBreaker(budget - 1, maxErrors, r.counters, trace[1..]);
      }
    }
  }

  /** Number of failed requests among some attempts. */
  function Failures(trace: seq<Attempt>): nat {
    if |trace| == 0 then 0 else (if IsPage(trace[0].transfer) then 0 else 1) + Failures(trace[1..])
  }

  /** Without a stop flag and with failures staying within the allowance, a
      worker given enough attempts performs exactly `budget` iterations. */
  lemma {:induction false} RunCompletes(budget: nat, maxErrors: nat, s: Counters, trace: seq<Attempt>)
    requires budget <= |trace|
    requires forall j :: 0 <= j < budget ==> !trace[j].stopSeen
    requires s.errors + Failures(trace[..budget]) <= maxErrors
    ensures var e := Run(budget, maxErrors, s, trace);
            && e.reason == LimitReached
            && e.iterations == budget
            && e.counters.pages + e.counters.errors == s.pages + s.errors + budget
    decreases budget
  {
    RunPagesPlusErrors(budget, maxErrors, s, trace);
    if budget > 0 {
      ReceiveCountsBytes(s, trace[0].chunks);
      var r := Iterate(s, trace[0], maxErrors);
      assert trace[..budget][1..] == trace[1..][..budget - 1];
      assert r.Continue?;
      RunCompletes(budget - 1, maxErrors, r.counters, trace[1..]);
    }
  }

  /** A request that fails without a stop flag. */
  predicate FailsQuietly(a: Attempt) {
    !IsPage(a.transfer) && !a.stopSeen
  }

  /** Against a target that always fails, the breaker fires on the
      (maxErrors + 1 - s.errors)-th request, before the iteration limit if
      that is larger. */
  lemma {:induction false} AlwaysFailingTripsBreaker(budget: nat, maxErrors: nat, s: Counters, trace: seq<Attempt>)
    requires s.errors <= maxErrors
    requires maxErrors + 1 - s.errors <= budget && maxErrors + 1 - s.errors <= |trace|
    requires forall j :: 0 <= j < |trace| ==> FailsQuietly(trace[j])
    ensures var e := Run(budget, maxErrors, s, trace);
            e.reason == TooManyErrors && e.iterations == maxErrors + 1 - s.errors
    decreases budget
  {
    ReceiveCountsBytes(s, trace[0].chunks);
    var r := Iterate(s, trace[0], maxErrors);
    assert FailsQuietly(trace[0]);
    if r.Continue? {
      AlwaysFailingTripsBreaker(budget - 1, maxErrors, r.counters, trace[1..]);
    }
  }

  /** A request answered with 200 and no stop flag. */
  predicate SucceedsQuietly(a: Attempt) {
    IsPage(a.transfer) && !a.stopSeen
  }

  /** Against a target that always answers 200, a worker runs all `budget`
      iterations and every one of them is a page. */
  lemma {:induction false} AlwaysSucceedingCompletes(budget: nat, maxErrors: nat, s: Counters, trace: seq<Attempt>)
    requires budget <= |trace|
    requires forall j :: 0 <= j < |trace| ==> SucceedsQuietly(trace[j])
    ensures var e := Run(budget, maxErrors, s, trace);
            e.reason == LimitReached && e.counters.pages == s.pages + budget && e.counters.errors == s.errors
    decreases budget
  {
    if budget > 0 {
      ReceiveCountsBytes(s, trace[0].chunks);
      assert SucceedsQuietly(trace[0]);
      var r := Iterate(s, trace[0], maxErrors);
      AlwaysSucceedingCompletes(budget - 1, maxErrors, r.counters, trace[1..]);
    }
  }

  /** The loop of `workload` written as the C code writes it. */
  method Workload(numIter: nat, maxErrors: nat, trace: seq<Attempt>) returns (e: WorkerEnd)
    ensures e == Run(numIter, maxErrors, Zero, trace)
  {
    var s := Zero;
    var i := 0;
    while i < numIter
      invariant i <= numIter && i <= |trace|
      invariant var r := Run(numIter - i, maxErrors, s, trace[i..]);
                Run(numIter, maxErrors, Zero, trace) == r.(iterations := r.iterations + i)
      decreases numIter - i
    {
      if i == |trace| {
        return WorkerEnd(TraceExhausted, s, i);
      }
      assert trace[i..][1..] == trace[i + 1..];
      var received := Receive(s, trace[i].chunks);
      var accounted := Account(received, trace[i].transfer, maxErrors);
      if accounted.Abort? {
        return WorkerEnd(TooManyErrors, accounted.counters, i + 1);
      }
      s := accounted.counters;
      if trace[i].stopSeen {
        return WorkerEnd(StopFlag, s, i + 1);
      }
      i := i + 1;
    }
    return WorkerEnd(LimitReached, s, i);
  }
}
