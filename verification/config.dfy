/** The parsed run configuration of the load generator and its validation.
    The record starts where command-line parsing ends: every field already
    holds the value the C program stores in `globalData`. */
module Config {

  /** Largest number of simulated clients (worker threads). */
  const MaxThreads: nat := 100

  /** The unsigned value 0xffffffff, which a limit holds when it was not given. */
  const Unbounded: nat := 0xffff_ffff

  /** A C `unsigned` (32 bits). */
  type u32 = x: nat | x <= 0xffff_ffff

  /** A C `int` (32 bits, signed); `atoi` may well store a negative client count. */
  type i32 = x: int | -0x8000_0000 <= x < 0x8000_0000

  /** The target URL pointer: still NULL, or a copied string. */
  datatype Url = Null | Url(text: string)

  datatype Options = Options(
    numThreads: i32,
    numIter: u32,
    durationSec: u32,
    thinkTimeMs: u32,
    statsPeriodSec: u32,
    maxErrorsPerClient: u32,
    url: Url)

  /** A limit is finite when it is below the "not given" sentinel. */
  predicate IsFinite(limit: nat) {
    limit < Unbounded
  }

  /** The values `main` stores before reading any option, with only the
      URL given: an open-ended run, accepted exactly when the URL is present. */
  function Defaults(url: Url): (o: Options)
    ensures Validate(o) == (if url.Url? then Accepted else Rejected(MissingUrl))
    ensures !IsFinite(o.numIter) && !IsFinite(o.durationSec)
  {
    Options(1, Unbounded, Unbounded, 0, 5, 3, url)
  }

  /** The reasons a configuration is refused, in the order they are checked. */
  datatype ConfigError = MissingUrl | BothLimits | TooManyClients | TooFewClients | PeriodTooShort

  function Rank(e: ConfigError): nat {
    match e
    case MissingUrl => 0
    case BothLimits => 1
    case TooManyClients => 2
    case TooFewClients => 3
    case PeriodTooShort => 4
  }

  /** Whether `o` satisfies the requirement whose violation is reported as `e`. */
  predicate Passes(o: Options, e: ConfigError) {
    match e
    case MissingUrl => o.url != Null
    case BothLimits => o.numIter == Unbounded || o.durationSec == Unbounded
    case TooManyClients => o.numThreads <= MaxThreads
    case TooFewClients => 0 < o.numThreads
    case PeriodTooShort => o.statsPeriodSec != 0
  }

  /** A runnable configuration: a URL, at most one finite exit condition,
      between 1 and MaxThreads clients and a statistics period of a second or more. */
  predicate Valid(o: Options) {
    && o.url.Url?
    && !(IsFinite(o.numIter) && IsFinite(o.durationSec))
    && 1 <= o.numThreads <= MaxThreads
    && 1 <= o.statsPeriodSec
  }

  datatype Verdict = Accepted | Rejected(error: ConfigError)

  /** validateOptions: the first failing check, or Accepted. */
  function Validate(o: Options): (v: Verdict)
    ensures v == Accepted <==> Valid(o)
    ensures v.Rejected? ==> !Passes(o, v.error)
    ensures v.Rejected? ==> forall e :: Rank(e) < Rank(v.error) ==> Passes(o, e)
  {
    if o.url == Null then Rejected(MissingUrl)
    else if o.numIter < Unbounded && o.durationSec < Unbounded then Rejected(BothLimits)
    else if o.numThreads > MaxThreads then Rejected(TooManyClients)
    else if o.numThreads < 1 then Rejected(TooFewClients)
    else if o.statsPeriodSec < 1 then Rejected(PeriodTooShort)
    else Accepted
  }

  /** Giving neither an iteration count nor a duration is accepted: the
      run is then open-ended, with periodic reports. */
  lemma NeitherLimitAccepted(o: Options)
    requires o.url.Url? && 1 <= o.numThreads <= MaxThreads && 1 <= o.statsPeriodSec
    requires o.numIter == Unbounded && o.durationSec == Unbounded
    ensures Validate(o) == Accepted
  {
  }

  /** Both limits finite is refused, whatever the other fields say, once a URL is present. */
  lemma BothLimitsRefused(o: Options)
    requires o.url.Url? && IsFinite(o.numIter) && IsFinite(o.durationSec)
    ensures Validate(o) == Rejected(BothLimits)
  {
  }
}
