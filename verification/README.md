# GetURL load generator: a Dafny model of its decision and accounting logic

GetURL sends HTTP requests to one URL from up to 100 simulated clients. Each
client is a worker thread running the libcurl request loop. Each worker counts
the pages it receives (status 200), the bytes delivered to its write callback,
its failed requests and its accumulated response time. The main thread does
the rest:

- it validates the options;
- in duration mode, it wakes up every statistics period and prints how far the
  aggregate counters moved since the previous report;
- when the duration runs out, it raises a stop flag;
- once the workers have ended, it prints a closing report.

A worker that sees more failures than its allowance ends the whole process
with `exit(-1)`.

The model keeps this logic and replaces libcurl, the threads and the clocks by
inputs:

- **Worker outcomes.** Each iteration of a worker is an `Attempt`:
  - the chunks the write callback received;
  - the outcome of the transfer (a transport error, or a status code with the
    measured latency in microseconds);
  - whether the worker found the stop flag set when it sampled it after
    accounting.

  A worker is a fold over such attempts. The whole run takes one trace of
  attempts per client slot.
- **Coordinator readings.** The coordinator's k-th wake-up reads the worker
  table as `observe(k)`.

The modules follow the program's structure:

- `Config`: the option record, its defaults and `validateOptions`.
- `Stats`: the per-client counter record and the 100-slot worker table.
- `Worker`: `write_callback` and the request loop of `workload`, including the
  error breaker and the stop flag.
- `Aggregate`: the summing loop of `main` over the first `num_threads` slots.
- `Coordinator`: the duration scheduler and the interval deltas.
- `Program`: the final totals, the closing report and how the process ends.
  The report's average and the exit status each exist twice, as the code is
  written and as it is evidently meant (see Findings).

Counters are unbounded naturals. The 32-bit truncation of the callback's chunk
length is written out. The 32-bit option fields are subset types whose
sentinel is `0xffffffff`.

## Where the code departs from its own stated intent

The model follows the code in each of these places:

- **Exit status on refused options.** After a failed validation `main` calls
  `exit(-1)` (GetURL.cpp:260), so a non-zero status is evidently meant. The
  usage printer it calls first already ends the process with `exit(0)`
  (GetURL.cpp:195), so the status is 0 (see Findings).
- **"Forever" limits.** The usage text says both limits default to "forever"
  (GetURL.cpp:192-193), and so does the comment at GetURL.cpp:216. In the code
  the default `0xffffffff` is still a number:
  - it bounds the worker loop at 4294967295 iterations (`Worker.Run`);
  - the default duration of `0xffffffff` seconds is counted down like any
    other, so the coordinator stops after 858993459 passes of 5 seconds
    (`Coordinator.OpenEndedRunStops`).

Two further behaviours are not stated anywhere in the program. The model
follows the code for them too:

- **Average response time.** The closing report divides by the page count
  with no guard. Guarding it is the evident intent, since a run of failed
  requests is a legitimate run to report on (see Findings).
- **Bytes of failed requests.** The write callback counts every chunk it is
  given, whatever the outcome of the request (`Worker.ReceiveCountsBytes`).
  So the byte total includes the bodies of error replies.

## Model

| member | source | states |
|---|---|---|
| Config.Validate | GetURL.cpp:54-78 | A configuration is accepted exactly when it has a URL, at most one finite limit, 1 to 100 clients and a period of at least one second. A refusal names a check that fails, and every earlier check passes. |
| Config.Defaults | GetURL.cpp:214-221 | The defaults with only a URL given are accepted exactly when the URL is present, and they select the open-ended mode: neither limit is finite. |
| Config.NeitherLimitAccepted | GetURL.cpp:60-64 | Giving neither an iteration count nor a duration is accepted. |
| Config.BothLimitsRefused | GetURL.cpp:60-64 | Two finite limits are refused with the both-limits error once a URL is present, whatever the client count and period. |
| Worker.ChunkLength | GetURL.cpp:86 | The chunk length is `size * nitems` reduced modulo 2^32, as the store into an `unsigned` truncates it. |
| Worker.WriteCallback | GetURL.cpp:84-92 | The callback returns the length it added to the byte counter. It changes no other counter. Without overflow, the length is `size * nitems`. |
| Worker.ReceiveCountsBytes | GetURL.cpp:84-92 | Receiving a response adds the sum of its chunk lengths to the byte counter and leaves pages, errors and response time alone, whatever the outcome. |
| Worker.Account | GetURL.cpp:137-168 | Each finished request adds one to exactly one of errors (transport error or status other than 200) and pages (status 200). Response time grows by the latency only for a page. The breaker fires exactly when an error takes the count past the allowance. |
| Worker.Run | GetURL.cpp:131-175 | The loop runs at most `num_iter` iterations. It leaves on the stop flag only after accounting an iteration whose sample saw the flag. No earlier iteration saw the flag. |
| Worker.RunCounts | GetURL.cpp:131-171 | The final counters are the start counters plus the contributions of exactly the iterations that ran, including the one that stopped the loop. |
| Worker.RunPagesPlusErrors | GetURL.cpp:137-168 | Pages plus errors grow by exactly the number of iterations. |
| Worker.RunBreaker | GetURL.cpp:145-162 | Starting within the allowance, the process is aborted with the error count at exactly allowance + 1. Every other way out leaves the count within the allowance. |
| Worker.RunCompletes | GetURL.cpp:131-171 | With no stop flag and failures within the allowance, the worker performs exactly `num_iter` iterations, and pages plus errors equal `num_iter`. |
| Worker.AlwaysFailingTripsBreaker | GetURL.cpp:145-162 | Against a target that always fails, the breaker fires on error number allowance + 1 (the 4th with the default of 3). |
| Worker.AlwaysSucceedingCompletes | GetURL.cpp:164-168 | Against a target that always answers 200, all `num_iter` iterations run and each one is a page. |
| Worker.Workload | GetURL.cpp:131-175 | The imperative loop, with its early exits, ends exactly as the fold `Run` from zeroed counters does. |
| Aggregate.Aggregate | GetURL.cpp:331-338 | The summing loop yields the field-by-field sum of the records of clients 0 to n-1. |
| Aggregate.SumOnlyFirst | GetURL.cpp:333-338 | Only the first `num_threads` slots reach the sum; the other slots are ignored. |
| Aggregate.SumZeroTail | GetURL.cpp:214 | Zeroed slots past the first k add nothing to the sum. |
| Aggregate.SumMonotone | GetURL.cpp:302-308 | Records that only grow give sums that only grow. |
| Aggregate.SumPagesPlusErrors | GetURL.cpp:331-338 | If every client's pages plus errors equals k, the aggregate's pages plus errors equals n * k. |
| Aggregate.SumUniform | GetURL.cpp:331-338 | n clients with equal page and error counts aggregate to n times each. |
| Coordinator.NextSleep | GetURL.cpp:287-290 | The sleep is the minimum of the period and the remaining duration. |
| Coordinator.PollShape | GetURL.cpp:283-299 | Every pass except the last sleeps a full period and reports with time left. The last pass sleeps the rest (more than zero unless the duration was zero), brings the remaining time to zero and is the only pass that raises the stop flag. |
| Coordinator.PollCount | GetURL.cpp:287-317 | A duration D > 0 with period P gives ceil(D/P) passes and (D-1)/P (integer division) interval reports. A zero duration gives one zero-length pass that stops at once. |
| Coordinator.PollSleepsDuration | GetURL.cpp:287-293 | The sleeps add up to exactly the initial duration, so the subtraction never underflows. |
| Coordinator.PollReports | GetURL.cpp:302-316 | Each report is the totals read on that pass minus the totals of the previous report; the snapshot rolls forward. |
| Coordinator.Telescope | GetURL.cpp:309-316 | Deltas against a rolling snapshot add up to the last snapshot minus the first. |
| Coordinator.PollTelescopes | GetURL.cpp:302-316 | The reports of a polling run add up to the latest totals minus the starting snapshot. |
| Coordinator.GrowingTotals | GetURL.cpp:302-308 | Worker counters that only grow give interval totals that only grow. |
| Coordinator.PollNonNegative | GetURL.cpp:309-312 | With totals that only grow, no report shows a negative movement, so the unsigned subtractions do not wrap. |
| Coordinator.Coordinate | GetURL.cpp:281-321 | In iteration mode the coordinator neither reports nor stops anything. In duration mode its last pass is the stop and all earlier passes report. |
| Coordinator.FiveSecondsEveryTwo | GetURL.cpp:287-299 | A 5-second run with a 2-second period reports after 2 and 4 seconds and stops after 5. |
| Coordinator.OpenEndedRunStops | GetURL.cpp:281-299 | The default options with a URL are valid, and their open-ended run (duration 0xffffffff, period 5) stops after 858993459 passes. |
| Coordinator.CoordinateTelescopes | GetURL.cpp:302-316 | The coordinator's reports add up to the last totals it read, since its snapshot starts at zero. |
| Coordinator.CoordinateNonNegative | GetURL.cpp:309-312 | While worker counters only grow, no interval report of the coordinator is negative. |
| Program.AverageAsWritten | GetURL.cpp:345 | The division of the closing report faults exactly when no page was received. Otherwise it gives the truncated mean response time. |
| Program.AverageLatency | GetURL.cpp:345 | The guarded average: none exactly when no page was received, otherwise the truncated mean. |
| Program.AverageAgrees | GetURL.cpp:345 | The guarded average is defined exactly where the division does not fault, and then it equals the quotient. |
| Program.FinalSummary | GetURL.cpp:340-345 | The report carries the total pages and errors, the data in whole KB (rounded down) and the guarded average. |
| Program.FinalTable | GetURL.cpp:271-273 | Slot i holds the final counters of client i for the started clients. The slots of clients never started add nothing: summing any number of slots from `num_threads` up to 100 gives the same totals. |
| Program.ProgramEndAsWritten | GetURL.cpp:258-260 | For traces that describe the whole run, as written: a refused configuration exits with status 0, a breaker exits with -1, and a completed run without a page crashes on the division. |
| Program.ProgramEnd | GetURL.cpp:258-260 | For traces that describe the whole run, as intended: status 0 exactly when the configuration is valid and no worker exceeded its allowance; otherwise -1. The process never crashes. |
| Program.EndsDiffer | GetURL.cpp:258-260 | The two versions disagree exactly on refused configurations and on completed runs that received no page. |
| Program.InvalidOptionsExitZero | GetURL.cpp:195 | Options with both limits set to 10 are refused, yet as written the process exits with status 0. |
| Program.FailedRunCrashes | GetURL.cpp:345 | One client, one iteration answered with 500: as written the closing report divides by zero; as intended the run exits with 0. |
| Program.RequestsAccounted | GetURL.cpp:331-338 | In the aggregate, pages plus errors equals the number of requests all started clients issued. |
| Program.ClosingReport | GetURL.cpp:340-345 | A run that reaches the report accounts every request as a page or an error. Its average is missing exactly when no page came back. |
| Program.FourClientsAllPages | GetURL.cpp:331-338 | Four clients with 100 iterations each against a server that always answers 200: 400 pages, no errors, status 0. |
| Program.AlwaysFailingExits | GetURL.cpp:145-162 | Against a failing server whose iteration limit leaves room for allowance + 1 requests, client 0's breaker fires, so the traces cover the run and the process ends with status -1. |

## Left out

- libcurl: session setup, headers, timeouts and `curl_easy_perform` are foreign calls. Each request is an input `Attempt`, including the chunks the callback received.
- A failed `curl_easy_init` or URL option ends the process with -1. This depends only on libcurl and is not modelled.
- Threads, `join` and the `volatile` flags: the concurrency is not modelled.
  - The stop flag is a per-attempt input sampled after accounting.
  - The coordinator's view of the worker table is an input per wake-up.
  - Nothing in the model ties the workers' stop samples to the coordinator's stop pass.
- The worker whose breaker fires ends the process. The exit status is modelled as the `-1` passed to `exit`; the operating system reports it as 255.
- Sleeping and clocks: think time, the coordinator's sleeps and the elapsed time are not modelled. Latency is an input in microseconds and a sleep is a number of seconds.
  - The millisecond conversion `tNextEvent*1000` is an unsigned product that wraps for periods above 4294967 seconds. It only changes how long a sleep lasts and is not modelled.
- Floating point and `printf`: throughput, KB/s and the interval rates are not modelled. Only the integer totals, deltas, whole kilobytes and the average are.
- `getopt`, `atoi` and the usage text are not modelled. The model starts from the parsed option record (a negative client count is allowed, as `atoi` allows it). The exit status of an unknown option goes through the same usage printer and is not modelled separately.
- The padding of the counter record and `client_id` (never assigned, used only in error messages) are not modelled.
- 64-bit counter overflow: counters are unbounded naturals.
- Worker.Run: a trace shorter than the loop ends the worker with `TraceExhausted`, an exit the code does not have. `Program.ProgramEndAsWritten`, `Program.ProgramEnd`, `Program.ClosingReport` and `Program.EndsDiffer` therefore require the traces of a valid run to describe it to its end (`Program.Covered`): a breaker fired, or no started client ran out of attempts.
- Worker.WriteCallback: libcurl fails a transfer whose callback returns less than `size * nitems`, so a truncated chunk length would turn into a transport error. The model keeps the transfer outcome independent of the chunks. Truncation needs a chunk of 4 GiB or more, which the 32 KiB receive buffer (GetURL.cpp:114) rules out.
- Coordinator.PollNonNegative: deltas are integers, not the wrapping 64-bit subtraction of the code. The lemma states when they are non-negative, which is exactly when the subtraction does not wrap.
- Worker.Run: in duration mode the worker's iteration bound is still `0xffffffff`, as in the code. The model keeps that bound rather than an unbounded loop.

## Findings

| source | as written | input that shows it | evidently intended | confidence | as-written member | corrected member |
|---|---|---|---|---|---|---|
| GetURL.cpp:258-260 | On a refused configuration `main` calls `HelpInfo`, which ends with `exit(0)` (line 195). The `exit(-1)` on the next line is never reached, so invalid options report success. | Options with both `-r 10` and `-t 10` and a URL | exit status -1 for a refused configuration | not executed; high (both exits are plain library calls) | Program.ProgramEndAsWritten, Program.InvalidOptionsExitZero | Program.ProgramEnd |
| GetURL.cpp:345 | The closing report divides the accumulated response time by `totalPages` without a guard. | One client, `-r 1`, the server answers 500 once: one error within the allowance, zero pages | no average printed when no page was received | not executed; high for integer division by zero on common platforms | Program.AverageAsWritten, Program.FailedRunCrashes | Program.AverageLatency, Program.ClosingReport |
