/** The coordinator's duration-driven polling loop: it sleeps for
    min(period, remaining) seconds at a time, raises the stop flag once the
    remaining duration reaches zero, and otherwise reports how much the
    aggregate page, byte and error counts moved since the previous report. */
module Coordinator {
  import opened Config
  import opened Stats
  import opened Aggregate

  /** The totals an interval report compares (`totalPages`, `totalData`, `totalErrors`). */
  datatype Snapshot = Snapshot(pages: nat, bytes: nat, errors: nat)

  /** The movement of the totals over one interval. */
  datatype Delta = Delta(pages: int, bytes: int, errors: int)

  /** Interval totals over the first n clients of the worker table. */
  function Totals(tld: Table, n: nat): Snapshot
    requires n <= MaxThreads
  {
    var sum := Sum(tld, n);
    Snapshot(sum.pages, sum.bytes, sum.errors)
  }

  function Diff(now: Snapshot, prev: Snapshot): Delta {
    Delta(now.pages - prev.pages, now.bytes - prev.bytes, now.errors - prev.errors)
  }

  function AddDelta(a: Delta, b: Delta): Delta {
    Delta(a.pages + b.pages, a.bytes + b.bytes, a.errors + b.errors)
  }

  predicate NonNegative(d: Delta) {
    d.pages >= 0 && d.bytes >= 0 && d.errors >= 0
  }

  /** What happens after a sleep: the stop flag is raised, or an interval is reported. */
  datatype Event = Finish | Report(delta: Delta)

  /** One pass of the polling loop: how long it slept, the remaining
      duration afterwards, and what it did next. */
  datatype Tick = Tick(sleepSec: nat, remainingSec: nat, event: Event)

  /** tNextEvent: the period, unless less than a period remains. */
  function NextSleep(period: nat, remaining: nat): (t: nat)
    ensures t <= period && t <= remaining
    ensures t == period || t == remaining
  {
    if period < remaining then period else remaining
  }

  /** The polling loop from its `step`-th pass on, with `remaining` seconds
      left and `last` the totals of the previous report. `reading(k)` is the
      totals the coordinator sums from the worker table on its k-th pass. */
  function Poll(period: nat, remaining: nat, step: nat, last: Snapshot, reading: nat -> Snapshot): (ts: seq<Tick>)
    requires 1 <= period
    ensures 1 <= |ts|
    decreases remaining
  {
    var t := NextSleep(period, remaining);
    var rest := remaining - t;
    if rest == 0 then [Tick(t, 0, Finish)]
    else
      var now := reading(step);
      [Tick(t, rest, Report(Diff(now, last)))] + Poll(period, rest, step + 1, now, reading)
  }

  /** The shape of a polling run: every pass but the last sleeps a full
      period and reports with time still left; the last pass sleeps what
      remains (at most a period, and something when the duration was not
      zero), drives the remaining time to zero and raises the stop flag. */
  lemma {:induction false} PollShape(period: nat, remaining: nat, step: nat, last: Snapshot, reading: nat -> Snapshot)
    requires 1 <= period
    ensures var ts := Poll(period, remaining, step, last, reading);
            var m := |ts| - 1;
            && ts[m].event == Finish
            && ts[m].remainingSec == 0
            && ts[m].sleepSec <= period
            && (0 < remaining ==> 0 < ts[m].sleepSec)
            && remaining == m * period + ts[m].sleepSec
            && (forall j :: 0 <= j < m ==> ts[j].sleepSec == period && ts[j].event.Report? && 0 < ts[j].remainingSec)
    decreases remaining
  {
    var ts := Poll(period, remaining, step, last, reading);
    var t := NextSleep(period, remaining);
    if remaining - t != 0 {
      var now := reading(step);
      var rest := Poll(period, remaining - t, step + 1, now, reading);
      PollShape(period, remaining - t, step + 1, now, reading);
      assert ts == [Tick(t, remaining - t, Report(Diff(now, last)))] + rest;
      var m := |rest| - 1;
      assert ts[m + 1] == rest[m];
      assert remaining == (m + 1) * period + rest[m].sleepSec by {
        assert t == period;
        assert (m + 1) * period == m * period + period;
      }
      forall j | 0 <= j < m + 1
        ensures ts[j].sleepSec == period && ts[j].event.Report? && 0 < ts[j].remainingSec
      {
        if j > 0 {
          assert ts[j] == rest[j - 1];
        }
      }
    }
  }


  lemma MulSign(k: int, d: int)
    requires d >= 0
    ensures k >= 1 ==> k * d >= d
    ensures k <= -1 ==> k * d <= -d
  {
  }

  /** x = q * d + r with 0 <= r < d determines the quotient. */
  lemma DivisionUnique(x: nat, d: nat, q: nat, r: nat)
    requires 0 < d && r < d && x == q * d + r
    ensures x / d == q
  {
    var q' := x / d;
    var r' := x % d;
    assert (q' - q) * d == r - r';
    MulSign(q' - q, d);
  }

  /** A positive duration D with period P gives ceil(D / P) passes, all
      but the last of which report: (D - 1) / P interval reports. A zero
      duration gives one pass that sleeps nothing and stops at once. */
  lemma PollCount(period: nat, remaining: nat, step: nat, last: Snapshot, reading: nat -> Snapshot)
    requires 1 <= period
    ensures var ts := Poll(period, remaining, step, last, reading);
            && (0 < remaining ==> |ts| - 1 == (remaining - 1) / period)
            && (0 < remaining ==> |ts| == (remaining + period - 1) / period)
            && (remaining == 0 ==> ts == [Tick(0, 0, Finish)])
  {
    var ts := Poll(period, remaining, step, last, reading);
    if 0 < remaining {
      PollShape(period, remaining, step, last, reading);
      CeilingQuotient(remaining, period, |ts| - 1, ts[|ts| - 1].sleepSec);
    }
  }

  /** D = m * P + s with 0 < s <= P: m = (D - 1) / P and m + 1 = ceil(D / P). */
  lemma CeilingQuotient(d: nat, p: nat, m: nat, s: nat)
    requires 0 < s <= p && d == m * p + s
    ensures m == (d - 1) / p
    ensures m + 1 == (d + p - 1) / p
  {
    DivisionUnique(d - 1, p, m, s - 1);
    assert d + p - 1 == (m + 1) * p + (s - 1);
    DivisionUnique(d + p - 1, p, m + 1, s - 1);
  }

  /** Total time slept. */
  function SleepTotal(ts: seq<Tick>): nat {
    if |ts| == 0 then 0 else ts[0].sleepSec + SleepTotal(ts[1..])
  }

  /** No time is lost or added: the passes sleep exactly the duration. */
  lemma {:induction false} PollSleepsDuration(period: nat, remaining: nat, step: nat, last: Snapshot, reading: nat -> Snapshot)
    requires 1 <= period
    ensures SleepTotal(Poll(period, remaining, step, last, reading)) == remaining
    decreases remaining
  {
    var ts := Poll(period, remaining, step, last, reading);
    var t := NextSleep(period, remaining);
    if remaining - t != 0 {
      var now := reading(step);
      PollSleepsDuration(period, remaining - t, step + 1, now, reading);
      assert ts[1..] == Poll(period, remaining - t, step + 1, now, reading);
    } else {
      assert ts[1..] == [];
    }
  }

  /** The totals the report of pass j compares against: `last` for the
      first pass, the totals read on the previous pass afterwards. */
  function Previous(step: nat, last: Snapshot, reading: nat -> Snapshot, j: nat): Snapshot
  {
    if j == 0 then last else reading(step + j - 1)
  }

  /** Every report is the difference between the totals read on that pass
      and those read on the pass before: the snapshot rolls forward. */
  lemma {:induction false} PollReports(period: nat, remaining: nat, step: nat, last: Snapshot, reading: nat -> Snapshot)
    requires 1 <= period
    ensures var ts := Poll(period, remaining, step, last, reading);
            forall j :: 0 <= j < |ts| && ts[j].event.Report? ==>
              ts[j].event.delta == Diff(reading(step + j), Previous(step, last, reading, j))
    decreases remaining
  {
    var ts := Poll(period, remaining, step, last, reading);
    var t := NextSleep(period, remaining);
    if remaining - t != 0 {
      var now := reading(step);
      var rest := Poll(period, remaining - t, step + 1, now, reading);
      PollReports(period, remaining - t, step + 1, now, reading);
      forall j | 0 <= j < |ts| && ts[j].event.Report?
        ensures ts[j].event.delta == Diff(reading(step + j), Previous(step, last, reading, j))
      {
        if j > 0 {
          assert ts[j] == rest[j - 1];
          assert step + 1 + (j - 1) == step + j;
          assert Previous(step + 1, now, reading, j - 1) == Previous(step, last, reading, j);
        }
      }
    }
  }

  /** Sum of all reported deltas. */
  function ReportedTotal(ts: seq<Tick>): Delta {
    if |ts| == 0 then Delta(0, 0, 0)
    else AddDelta(ReportedTotal(ts[1..]), Moved(ts[0].event))
  }

  /** The movement an event reports, none for the stop. */
  function Moved(e: Event): Delta {
    match e
    case Finish => Delta(0, 0, 0)
    case Report(d) => d
  }

  /** The totals held in `last*` when the loop ends. */
  function Latest(ts: seq<Tick>, step: nat, last: Snapshot, reading: nat -> Snapshot): Snapshot
    requires 1 <= |ts|
  {
    Previous(step, last, reading, |ts| - 1)
  }

  lemma ReportedTotalCons(tick: Tick, rest: seq<Tick>)
    ensures ReportedTotal([tick] + rest) == AddDelta(ReportedTotal(rest), Moved(tick.event))
  {
    assert ([tick] + rest)[1..] == rest;
  }

  lemma DiffChain(a: Snapshot, b: Snapshot, c: Snapshot)
    ensures AddDelta(Diff(c, b), Diff(b, a)) == Diff(c, a)
    ensures Diff(a, a) == Delta(0, 0, 0)
  {
  }

  /** Passes that all report except the last, which stops. */
  predicate StopsLast(ts: seq<Tick>) {
    && 1 <= |ts|
    && ts[|ts| - 1].event == Finish
    && forall j :: 0 <= j < |ts| - 1 ==> ts[j].event.Report?
  }

  /** Each report compares the totals read on its pass with those of the pass before. */
  ghost predicate RollsForward(ts: seq<Tick>, step: nat, last: Snapshot, reading: nat -> Snapshot) {
    forall j :: 0 <= j < |ts| && ts[j].event.Report? ==>
      ts[j].event.delta == Diff(reading(step + j), Previous(step, last, reading, j))
  }

  /** Deltas taken against a snapshot that rolls forward add up to the
      movement from the first snapshot to the last one. */
  lemma {:induction false} Telescope(ts: seq<Tick>, step: nat, last: Snapshot, reading: nat -> Snapshot)
    requires StopsLast(ts) && RollsForward(ts, step, last, reading)
    ensures ReportedTotal(ts) == Diff(Latest(ts, step, last, reading), last)
    decreases |ts|
  {
    if |ts| == 1 {
      TelescopeOne(ts[0], last);
      assert ts == [ts[0]];
    } else {
      var now := reading(step);
      var rest := ts[1..];
      var latest := Latest(ts, step, last, reading);
      var d := Moved(ts[0].event);
      assert d == Diff(now, last) by {
        assert ts[0].event.Report?;
      }
      assert ReportedTotal(rest) == Diff(latest, now) by {
        TelescopeRest(ts, step, last, reading);
        Telescope(rest, step + 1, now, reading);
        assert Latest(rest, step + 1, now, reading) == latest by {
          assert step + 1 + (|rest| - 1) - 1 == step + (|ts| - 1) - 1;
        }
      }
      assert ReportedTotal(ts) == AddDelta(ReportedTotal(rest), d) by {
        assert ts == [ts[0]] + rest;
        ReportedTotalCons(ts[0], rest);
      }
      DiffChain(last, now, latest);
    }
  }

  lemma TelescopeOne(tick: Tick, last: Snapshot)
    requires tick.event == Finish
    ensures ReportedTotal([tick]) == Diff(last, last)
  {
    ReportedTotalCons(tick, []);
    DiffChain(last, last, last);
  }

  /** Dropping the first pass keeps both properties, with the snapshot rolled forward. */
  lemma TelescopeRest(ts: seq<Tick>, step: nat, last: Snapshot, reading: nat -> Snapshot)
    requires 2 <= |ts| && StopsLast(ts) && RollsForward(ts, step, last, reading)
    ensures StopsLast(ts[1..]) && RollsForward(ts[1..], step + 1, reading(step), reading)
  {
    var rest := ts[1..];
    forall j | 0 <= j < |rest| && rest[j].event.Report?
      ensures rest[j].event.delta == Diff(reading(step + 1 + j), Previous(step + 1, reading(step), reading, j))
    {
      assert rest[j] == ts[j + 1];
      assert step + (j + 1) == step + 1 + j;
    }
    forall j | 0 <= j < |rest| - 1
      ensures rest[j].event.Report?
    {
      assert rest[j] == ts[j + 1];
    }
  }

  /** The interval deltas telescope: together they add up to the movement
      from the starting totals to the totals of the last report. */
  lemma PollTelescopes(period: nat, remaining: nat, step: nat, last: Snapshot, reading: nat -> Snapshot)
    requires 1 <= period
    ensures var ts := Poll(period, remaining, step, last, reading);
            ReportedTotal(ts) == Diff(Latest(ts, step, last, reading), last)
  {
    PollShape(period, remaining, step, last, reading);
    PollReports(period, remaining, step, last, reading);
    Telescope(Poll(period, remaining, step, last, reading), step, last, reading);
  }

  /** Every total of `a` is at most the same total of `b`. */
  predicate Below(a: Snapshot, b: Snapshot) {
    a.pages <= b.pages && a.bytes <= b.bytes && a.errors <= b.errors
  }

  /** The worker counters only grow between two passes. */
  ghost predicate Growing(observe: nat -> Table, n: nat)
    requires n <= MaxThreads
  {
    forall k: nat, i :: 0 <= i < n ==> LessEq(observe(k)[i], observe(k + 1)[i])
  }

  /** Growing worker counters give growing totals. */
  lemma GrowingTotals(observe: nat -> Table, n: nat, k: nat)
    requires n <= MaxThreads && Growing(observe, n)
    ensures Below(Totals(observe(k), n), Totals(observe(k + 1), n))
  {
    assert forall i :: 0 <= i < n ==> LessEq(observe(k)[i], observe(k + 1)[i]);
    SumMonotone(observe(k), observe(k + 1), n);
  }

  /** With counters that only grow, no report shows a negative movement, so
      the unsigned subtractions of the C code never wrap. */
  lemma {:induction false} PollNonNegative(period: nat, remaining: nat, step: nat, last: Snapshot, reading: nat -> Snapshot)
    requires 1 <= period
    requires forall k: nat :: Below(reading(k), reading(k + 1))
    requires Below(last, reading(step))
    ensures var ts := Poll(period, remaining, step, last, reading);
            forall j :: 0 <= j < |ts| && ts[j].event.Report? ==> NonNegative(ts[j].event.delta)
    decreases remaining
  {
    var ts := Poll(period, remaining, step, last, reading);
    var t := NextSleep(period, remaining);
    if remaining - t != 0 {
      var now := reading(step);
      assert Below(now, reading(step + 1));
      PollNonNegative(period, remaining - t, step + 1, now, reading);
      assert var ts' := Poll(period, remaining - t, step + 1, now, reading);
            forall j :: 0 <= j < |ts'| && ts'[j].event.Report? ==> NonNegative(ts'[j].event.delta);
      var rest := Poll(period, remaining - t, step + 1, now, reading);
      assert ts == [Tick(t, remaining - t, Report(Diff(now, last)))] + rest;
      assert forall j :: 0 <= j < |rest| && rest[j].event.Report? ==> NonNegative(rest[j].event.delta);
      forall j | 0 <= j < |ts| && ts[j].event.Report?
        ensures NonNegative(ts[j].event.delta)
      {
        if j > 0 {
          assert ts[j] == rest[j - 1];
          assert rest[j - 1].event.Report?;
          assert NonNegative(rest[j - 1].event.delta);
        } else {
          assert ts[j].event.delta == Diff(now, last);
        }
      }
    }
  }

  /** The totals the coordinator sums on each pass, from the worker table it reads then. */
  function Readings(observe: nat -> Table, n: nat): (reading: nat -> Snapshot)
    requires n <= MaxThreads
  {
    (k: nat) => Totals(observe(k), n)
  }

  /** The coordinator after all workers were started: in iteration mode it
      neither reports nor raises the stop flag; otherwise it polls over the
      duration, open-ended runs included. */
  function Coordinate(o: Options, observe: nat -> Table): (ts: seq<Tick>)
    requires Valid(o)
    ensures o.numIter != Unbounded ==> ts == []
    ensures o.numIter == Unbounded ==>
              && 1 <= |ts|
              && ts[|ts| - 1].event == Finish
              && forall j :: 0 <= j < |ts| - 1 ==> ts[j].event.Report?
  {
    if o.numIter == Unbounded then
      var reading := Readings(observe, o.numThreads as nat);
      PollShape(o.statsPeriodSec, o.durationSec, 0, Snapshot(0, 0, 0), reading);
      Poll(o.statsPeriodSec, o.durationSec, 0, Snapshot(0, 0, 0), reading)
    else []
  }

  /** With a 5 second duration and a 2 second period the coordinator
      reports after 2 and 4 seconds and stops after 5. */
  lemma FiveSecondsEveryTwo(o: Options, observe: nat -> Table)
    requires Valid(o) && o.numIter == Unbounded && o.durationSec == 5 && o.statsPeriodSec == 2
    ensures var ts := Coordinate(o, observe);
            && |ts| == 3
            && ts[0].sleepSec == 2 && ts[0].remainingSec == 3 && ts[0].event.Report?
            && ts[1].sleepSec == 2 && ts[1].remainingSec == 1 && ts[1].event.Report?
            && ts[2] == Tick(1, 0, Finish)
  {
  }

  /** Even the open-ended run of the default options (duration
      0xffffffff, period 5) stops, after 858993459 passes. */
  lemma OpenEndedRunStops(url: Url, observe: nat -> Table)
    requires url.Url?
    ensures Valid(Defaults(url))
    ensures |Coordinate(Defaults(url), observe)| == 858993459
  {
    var o := Defaults(url);
    PollCount(5, Unbounded, 0, Snapshot(0, 0, 0), Readings(observe, o.numThreads as nat));
  }
  /** The coordinator's reports add up to the totals it read last: its
      `last*` snapshot starts at zero. */
  lemma CoordinateTelescopes(o: Options, observe: nat -> Table)
    requires Valid(o) && o.numIter == Unbounded
    ensures var ts := Coordinate(o, observe);
            var latest := Latest(ts, 0, Snapshot(0, 0, 0), Readings(observe, o.numThreads as nat));
            ReportedTotal(ts) == Delta(latest.pages, latest.bytes, latest.errors)
  {
    var reading := Readings(observe, o.numThreads as nat);
    PollTelescopes(o.statsPeriodSec, o.durationSec, 0, Snapshot(0, 0, 0), reading);
  }

  /** While the workers' counters only grow, every interval report of the
      coordinator shows a movement of zero or more. */
  lemma CoordinateNonNegative(o: Options, observe: nat -> Table)
    requires Valid(o) && Growing(observe, o.numThreads as nat)
    ensures var ts := Coordinate(o, observe);
            forall j :: 0 <= j < |ts| && ts[j].event.Report? ==> NonNegative(ts[j].event.delta)
  {
    if o.numIter == Unbounded {
      var n := o.numThreads as nat;
      var reading := Readings(observe, n);
      forall k: nat
        ensures Below(reading(k), reading(k + 1))
      {
        GrowingTotals(observe, n, k);
      }
      PollNonNegative(o.statsPeriodSec, o.durationSec, 0, Snapshot(0, 0, 0), reading);
      assert var ts := Poll(o.statsPeriodSec, o.durationSec, 0, Snapshot(0, 0, 0), reading);
             forall j :: 0 <= j < |ts| && ts[j].event.Report? ==> NonNegative(ts[j].event.delta);
      assert Coordinate(o, observe) == Poll(o.statsPeriodSec, o.durationSec, 0, Snapshot(0, 0, 0), reading);
    }
  }
}
