/** The per-client counter record (`thread_data_t` without its padding) and
    the worker table the coordinator reads. */
module Stats {
  import opened Config

  /** Counters of one client, or a sum of several: pages received with code
      200, bytes delivered to the write callback, failed requests, and
      accumulated response time of the successful requests in microseconds. */
  datatype Counters = Counters(pages: nat, bytes: nat, errors: nat, respTimeUs: nat)

  const Zero := Counters(0, 0, 0, 0)

  function Plus(a: Counters, b: Counters): Counters {
    Counters(a.pages + b.pages, a.bytes + b.bytes, a.errors + b.errors, a.respTimeUs + b.respTimeUs)
  }

  /** Every counter of `a` is at most the same counter of `b`. */
  predicate LessEq(a: Counters, b: Counters) {
    a.pages <= b.pages && a.bytes <= b.bytes && a.errors <= b.errors && a.respTimeUs <= b.respTimeUs
  }

  /** The static array `tld`: one record per possible client. */
  type Table = t: seq<Counters> | |t| == MaxThreads witness seq(MaxThreads, _ => Zero)
}
