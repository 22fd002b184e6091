/** Exponential backoff with jitter and a cap, and the two retry loops that use it. Times are in clock units. */
module Backoff {
  import opened Common

  /** `jitter` is the fraction by which a wait may be stretched or shrunk. */
  datatype Config = Config(base: int, max: int, jitter: real)

  predicate Sensible(c: Config) {
    c.base > 0 && c.max >= 0 && 0.0 <= c.jitter <= 1.0
  }

  /** A random draw. */
  predicate Draw(r: real) {
    0.0 <= r < 1.0
  }

  function Pow2(n: nat): (p: real)
    ensures p >= 1.0
  {
    if n == 0 then 1.0 else 2.0 * Pow2(n - 1)
  }

  /** Conversion of a real to an integer, towards zero. */
  function Trunc(x: real): int {
    if x >= 0.0 then x.Floor else -((-x).Floor)
  }

  function Times(x: real, y: real): real {
    x * y
  }

  function Doubled(c: Config, exponent: nat): real {
    Times(c.base as real, Pow2(exponent))
  }

  function Exponential(c: Config, exponent: nat): real {
    if c.max as real <= Doubled(c, exponent) then c.max as real else Doubled(c, exponent)
  }

  function Factor(c: Config, draw: real): real {
    1.0 + Times(c.jitter, draw * 2.0 - 1.0)
  }

  function Stretched(c: Config, exponent: nat, draw: real): real {
    Times(Exponential(c, exponent), Factor(c, draw))
  }

  function Capped(c: Config, wait: int): int {
    if wait > c.max then c.max else wait
  }

  /** The wait before a metric batch's attempt, counted from 0. */
  function WaitFor(attempt: nat, c: Config, draw: real): int {
    if attempt == 0 then 0 else Capped(c, Trunc(Stretched(c, attempt - 1, draw)))
  }

  /** The wait before a log batch's attempt, counted from 0. */
  function LogWaitFor(attempt: nat, c: Config, draw: real): int {
    if attempt == 0 then 0 else Capped(c, Trunc(Stretched(c, attempt, draw)))
  }

  // ----- bounds -----

  lemma TimesMonotone(x: real, low: real, high: real)
    requires x >= 0.0 && low <= high
    ensures Times(x, low) <= Times(x, high)
  {
  }

  lemma TimesStrict(x: real, low: real, high: real)
    requires x > 0.0 && low < high
    ensures Times(x, low) < Times(x, high)
  {
  }

  lemma TimesUnits(x: real)
    ensures Times(x, 0.0) == 0.0 && Times(x, 1.0) == x && Times(x, -1.0) == -x
  {
  }

  lemma TimesTwo(x: real, y: real)
    ensures Times(x, 2.0 * y) == 2.0 * Times(x, y) == Times(2.0 * x, y)
  {
  }

  lemma TimesSwap(x: real, y: real)
    ensures Times(x, y) == Times(y, x)
  {
  }

  lemma FactorBounds(c: Config, draw: real)
    requires Sensible(c) && Draw(draw)
    ensures 0.0 <= 1.0 - c.jitter <= Factor(c, draw) <= 1.0 + c.jitter
  {
    TimesUnits(c.jitter);
    TimesMonotone(c.jitter, -1.0, draw * 2.0 - 1.0);
    TimesMonotone(c.jitter, draw * 2.0 - 1.0, 1.0);
  }

  lemma DoubledPositive(c: Config, e: nat)
    requires Sensible(c)
    ensures 0.0 < Doubled(c, e)
    ensures Doubled(c, e + 1) == 2.0 * Doubled(c, e)
    ensures Doubled(c, 0) == c.base as real
  {
  }

  /** Before truncation: between the shrunk and the stretched exponential. */
  lemma StretchedBounds(c: Config, e: nat, draw: real)
    requires Sensible(c) && Draw(draw)
    ensures 0.0 <= Times(Exponential(c, e), 1.0 - c.jitter) <= Stretched(c, e, draw)
    ensures Stretched(c, e, draw) <= Times(Exponential(c, e), 1.0 + c.jitter)
  {
    DoubledPositive(c, e);
    FactorBounds(c, draw);
    var x := Exponential(c, e);
    TimesUnits(x);
    TimesMonotone(x, 0.0, 1.0 - c.jitter);
    TimesMonotone(x, 1.0 - c.jitter, Factor(c, draw));
    TimesMonotone(x, Factor(c, draw), 1.0 + c.jitter);
  }

  /** Every wait is between 0 and the cap, and at most the stretched doubling of the base. */
  lemma WaitBounds(attempt: nat, c: Config, draw: real)
    requires Sensible(c) && Draw(draw)
    ensures 0 <= WaitFor(attempt, c, draw) <= c.max
    ensures attempt > 0 ==> WaitFor(attempt, c, draw) as real <= Times(1.0 + c.jitter, Doubled(c, attempt - 1))
  {
    if attempt > 0 {
      var e := attempt - 1;
      StretchedBounds(c, e, draw);
      TimesMonotone(1.0 + c.jitter, Exponential(c, e), Doubled(c, e));
      TimesSwap(Exponential(c, e), 1.0 + c.jitter);
    }
  }

  /** The wait that a sender makes before attempt k when it draws r. */
  type Waiting = (nat, real) -> int

  function MetricWaiting(c: Config): Waiting {
    (k: nat, r: real) => WaitFor(k, c, r)
  }

  function LogWaiting(c: Config): Waiting {
    (k: nat, r: real) => LogWaitFor(k, c, r)
  }

  /** How long the waits of attempts 0 to n - 1 take together. */
  function Total(w: Waiting, draws: nat -> real, n: nat): int {
    if n == 0 then 0 else Total(w, draws, n - 1) + w(n - 1, draws(n - 1))
  }

  /** The stretched geometric sum 1 + 2 + 4 + ... of n terms, in units of the base. */
  function Geometric(c: Config, n: nat): real {
    Times(1.0 + c.jitter, Times(c.base as real, Pow2(n) - 1.0))
  }

  lemma GeometricStep(c: Config, n: nat)
    requires n > 0
    ensures Geometric(c, n) == Geometric(c, n - 1) + Times(1.0 + c.jitter, Doubled(c, n - 1))
  {
  }

  /** All waits up to and including the one before attempt n: at most n caps, and at most the geometric sum. */
  lemma {:induction false} TotalWaitBounds(c: Config, draws: nat -> real, n: nat)
    requires Sensible(c) && forall k: nat :: Draw(draws(k))
    ensures 0 <= Total(MetricWaiting(c), draws, n + 1) <= n * c.max
    ensures Total(MetricWaiting(c), draws, n + 1) as real <= Geometric(c, n)
  {
    var total := Total(MetricWaiting(c), draws, n + 1);
    if n == 0 {
      assert Total(MetricWaiting(c), draws, 0) == 0;
      assert total == WaitFor(0, c, draws(0));
    } else {
      TotalWaitBounds(c, draws, n - 1);
      assert Draw(draws(n));
      WaitBounds(n, c, draws(n));
      assert total == Total(MetricWaiting(c), draws, n) + WaitFor(n, c, draws(n));
      GeometricStep(c, n);
      assert n * c.max == (n - 1) * c.max + c.max;
    }
  }

  // ----- growth -----

  lemma TruncMonotone(x: real, y: real)
    requires 0.0 <= x <= y
    ensures Trunc(x) <= Trunc(y)
  {
  }

  /** With a jitter of at most a third, waits never shrink while the doubling is within the cap, whatever is drawn. */
  lemma WaitsGrow(attempt: nat, c: Config, draw: real, draw': real)
    requires Sensible(c) && Draw(draw) && Draw(draw') && c.jitter <= 1.0 / 3.0
    requires Doubled(c, attempt) <= c.max as real
    ensures WaitFor(attempt, c, draw) <= WaitFor(attempt + 1, c, draw')
  {
    WaitBounds(attempt + 1, c, draw');
    if attempt > 0 {
      UncappedGrowth(c, attempt - 1, draw, draw');
      StretchedBounds(c, attempt - 1, draw);
      TruncMonotone(Stretched(c, attempt - 1, draw), Stretched(c, attempt, draw'));
    }
  }

  lemma Uncapped(c: Config, e: nat)
    requires Sensible(c) && Doubled(c, e + 1) <= c.max as real
    ensures Exponential(c, e) == Doubled(c, e) && Exponential(c, e + 1) == 2.0 * Doubled(c, e)
  {
  }

  lemma UncappedGrowth(c: Config, e: nat, draw: real, draw': real)
    requires Sensible(c) && Draw(draw) && Draw(draw') && c.jitter <= 1.0 / 3.0
    requires Doubled(c, e + 1) <= c.max as real
    ensures Stretched(c, e, draw) <= Stretched(c, e + 1, draw')
  {
    Uncapped(c, e);
    DoubledPositive(c, e);
    StretchedBounds(c, e, draw);
    StretchedBounds(c, e + 1, draw');
    var x, low, high := Doubled(c, e), 1.0 - c.jitter, 1.0 + c.jitter;
    TimesMonotone(x, high, 2.0 * low);
    TimesTwo(x, low);
  }

  /** Before truncation, a third is the exact limit. */
  lemma JitterLimitIff(c: Config, e: nat)
    requires Sensible(c) && Doubled(c, e + 1) <= c.max as real
    ensures (forall r, r' :: Draw(r) && Draw(r') ==> Stretched(c, e, r) <= Stretched(c, e + 1, r')) <==>
            c.jitter <= 1.0 / 3.0
  {
    if c.jitter <= 1.0 / 3.0 {
      forall r, r' | Draw(r) && Draw(r')
        ensures Stretched(c, e, r) <= Stretched(c, e + 1, r')
      {
        UncappedGrowth(c, e, r, r');
      }
    } else {
      ShrinkingDraws(c, e);
    }
  }

  /** For a jitter above a third: a draw after which a lowest next draw shrinks the wait. */
  function HighDraw(j: real): real
    requires j > 0.0
  {
    (1.0 + j) / (4.0 * j)
  }

  lemma HighDrawIsHigh(j: real)
    requires 1.0 / 3.0 < j <= 1.0
    ensures Draw(HighDraw(j))
    ensures Times(j, HighDraw(j) * 2.0 - 1.0) == (1.0 + j) / 2.0 - j
  {
  }

  lemma ShrinkingDraws(c: Config, e: nat)
    requires Sensible(c) && Doubled(c, e + 1) <= c.max as real && c.jitter > 1.0 / 3.0
    ensures exists r, r' :: Draw(r) && Draw(r') && Stretched(c, e, r) > Stretched(c, e + 1, r')
  {
    var j, x, r := c.jitter, Doubled(c, e), HighDraw(c.jitter);
    Uncapped(c, e);
    DoubledPositive(c, e);
    HighDrawIsHigh(j);
    TimesStrict(x, 2.0 * (1.0 - j), Factor(c, r));
    TimesUnits(j);
    TimesTwo(x, 1.0 - j);
    assert Factor(c, 0.0) == 1.0 - j;
    assert Draw(r) && Draw(0.0) && Stretched(c, e, r) > Stretched(c, e + 1, 0.0);
  }

  /** The shortest wait that a draw can make of a doubled base, before truncation. */
  function Shortest(c: Config, e: nat): real {
    Times(2.0 * Doubled(c, e), 1.0 - c.jitter)
  }

  lemma ShortestWait(c: Config, e: nat, draw: real)
    requires Sensible(c) && Draw(draw) && Doubled(c, e + 1) <= c.max as real
    ensures WaitFor(e + 2, c, draw) >= Trunc(Shortest(c, e)) == WaitFor(e + 2, c, 0.0)
  {
    Uncapped(c, e);
    DoubledPositive(c, e);
    var x, low := 2.0 * Doubled(c, e), 1.0 - c.jitter;
    FactorBounds(c, draw);
    TimesUnits(c.jitter);
    TimesUnits(x);
    TimesMonotone(x, 0.0, low);
    TimesMonotone(x, low, 1.0);
    TimesMonotone(x, low, Factor(c, draw));
    TruncMonotone(Times(x, low), Times(x, Factor(c, draw)));
    assert Factor(c, 0.0) == low;
  }

  lemma LongestWait(c: Config, e: nat, draw: real, n: int)
    requires Sensible(c) && Draw(draw) && Doubled(c, e + 1) <= c.max as real
    requires n == Trunc(Shortest(c, e)) && Times(Doubled(c, e), 1.0 + c.jitter) <= n as real + 1.0
    ensures WaitFor(e + 1, c, draw) <= n
  {
    Uncapped(c, e);
    DoubledPositive(c, e);
    FactorBounds(c, draw);
    var x := Doubled(c, e);
    TimesUnits(x);
    TimesMonotone(x, 0.0, Factor(c, draw));
    if c.jitter > 0.0 {
      TimesStrict(c.jitter, draw * 2.0 - 1.0, 1.0);
      TimesUnits(c.jitter);
      TimesStrict(x, Factor(c, draw), 1.0 + c.jitter);
    } else {
      TimesSwap(0.0, draw * 2.0 - 1.0);
      TimesUnits(draw * 2.0 - 1.0);
      TimesUnits(2.0 * x);
    }
  }

  /** A draw that stretches `x` to `target`. */
  function Reaching(x: real, jitter: real, target: real): real
    requires x > 0.0 && jitter > 0.0
  {
    ((target / x - 1.0) / jitter + 1.0) / 2.0
  }

  lemma ReachingReaches(x: real, jitter: real, target: real)
    requires x > 0.0 && 0.0 < jitter && Times(x, 1.0 - jitter) <= target < Times(x, 1.0 + jitter)
    ensures Draw(Reaching(x, jitter, target))
    ensures Times(x, 1.0 + Times(jitter, Reaching(x, jitter, target) * 2.0 - 1.0)) == target
  {
    var f := target / x;
    assert x * f == target;
    TimesOrder(x, 1.0 - jitter, f);
    assert f < 1.0 + jitter by {
      if f >= 1.0 + jitter {
        TimesMonotone(x, 1.0 + jitter, f);
      }
    }
    var q := (f - 1.0) / jitter;
    assert jitter * q == f - 1.0;
    QuotientBounds(q, jitter, f - 1.0);
  }

  lemma TimesOrder(x: real, low: real, high: real)
    requires x > 0.0 && Times(x, low) <= Times(x, high)
    ensures low <= high
  {
    if low > high {
      TimesStrict(x, high, low);
    }
  }

  lemma QuotientBounds(q: real, j: real, y: real)
    requires j > 0.0 && j * q == y && -j <= y < j
    ensures -1.0 <= q < 1.0
  {
    if q >= 1.0 {
      TimesMonotone(j, 1.0, q);
    }
    if q < -1.0 {
      TimesStrict(j, q, -1.0);
    }
  }

  lemma ShrinkingWaits(c: Config, e: nat, n: int)
    requires Sensible(c) && Doubled(c, e + 1) <= c.max as real
    requires n == Trunc(Shortest(c, e)) && Times(Doubled(c, e), 1.0 + c.jitter) > n as real + 1.0
    ensures exists r, r' :: Draw(r) && Draw(r') && WaitFor(e + 1, c, r) > WaitFor(e + 2, c, r')
  {
    Uncapped(c, e);
    DoubledPositive(c, e);
    var x, j, target := Doubled(c, e), c.jitter, n as real + 1.0;
    TimesUnits(x);
    TimesTwo(x, 1.0 - j);
    TimesMonotone(x, 0.0, 1.0 - j);
    TimesMonotone(x, 1.0 + j, 2.0);
    TimesTwo(x, 1.0);
    assert j > 0.0;
    ReachingReaches(x, j, target);
    var r := Reaching(x, j, target);
    assert WaitFor(e + 1, c, r) == n + 1;
    ShortestWait(c, e, 0.0);
    assert Draw(r) && Draw(0.0) && WaitFor(e + 1, c, r) > WaitFor(e + 2, c, 0.0);
  }

  /**
   The waits themselves, truncated to whole nanoseconds, never shrink from one retry to the next,
   whatever the draws, exactly when the longest untruncated wait is at most the shortest truncated next one plus one.
   */
  lemma WaitsNeverShrinkIff(c: Config, e: nat)
    requires Sensible(c) && Doubled(c, e + 1) <= c.max as real
    ensures (forall r, r' :: Draw(r) && Draw(r') ==> WaitFor(e + 1, c, r) <= WaitFor(e + 2, c, r')) <==>
            Times(Doubled(c, e), 1.0 + c.jitter) <= Trunc(Shortest(c, e)) as real + 1.0
  {
    var n := Trunc(Shortest(c, e));
    if Times(Doubled(c, e), 1.0 + c.jitter) <= n as real + 1.0 {
      forall r, r' | Draw(r) && Draw(r')
        ensures WaitFor(e + 1, c, r) <= WaitFor(e + 2, c, r')
      {
        LongestWait(c, e, r, n);
        ShortestWait(c, e, r');
      }
    } else {
      ShrinkingWaits(c, e, n);
    }
  }

  // ----- the two schedules -----

  /** From the first retry on, the log schedule is the metric schedule one attempt ahead. */
  lemma LogRunsOneAhead(attempt: nat, c: Config, draw: real)
    requires attempt > 0
    ensures LogWaitFor(attempt, c, draw) == WaitFor(attempt + 1, c, draw)
  {
  }

  /** So its total is the metric total of one more attempt, less that schedule's first wait. */
  lemma {:induction false} LogTotal(c: Config, draws: nat -> real, n: nat)
    ensures var earlier := (k: nat) => if k == 0 then 0.0 else draws(k - 1);
            Total(LogWaiting(c), draws, n + 1) ==
            Total(MetricWaiting(c), earlier, n + 2) - WaitFor(1, c, draws(0))
  {
    var earlier := (k: nat) => if k == 0 then 0.0 else draws(k - 1);
    if n == 0 {
      assert Total(LogWaiting(c), draws, 1) == Total(LogWaiting(c), draws, 0) + LogWaitFor(0, c, draws(0));
      assert Total(MetricWaiting(c), earlier, 2) == Total(MetricWaiting(c), earlier, 1) + WaitFor(1, c, earlier(1));
      assert Total(MetricWaiting(c), earlier, 1) == Total(MetricWaiting(c), earlier, 0) + WaitFor(0, c, earlier(0));
    } else {
      LogTotal(c, draws, n - 1);
      assert Total(LogWaiting(c), draws, n + 1) == Total(LogWaiting(c), draws, n) + LogWaitFor(n, c, draws(n));
      assert Total(MetricWaiting(c), earlier, n + 2) ==
             Total(MetricWaiting(c), earlier, n + 1) + WaitFor(n + 1, c, earlier(n + 1));
      LogRunsOneAhead(n, c, draws(n));
    }
  }

  /** In the middle of the jitter and below the cap, the first waits are once, twice and four times the base. */
  lemma FirstWaits(c: Config)
    requires Sensible(c) && 4 * c.base < c.max
    ensures WaitFor(0, c, 0.5) == 0 && WaitFor(1, c, 0.5) == c.base
    ensures WaitFor(2, c, 0.5) == 2 * c.base && WaitFor(3, c, 0.5) == 4 * c.base
    ensures LogWaitFor(0, c, 0.5) == 0 && LogWaitFor(1, c, 0.5) == 2 * c.base && LogWaitFor(2, c, 0.5) == 4 * c.base
  {
    DoubledPositive(c, 0);
    DoubledPositive(c, 1);
    LogWaitsHaveNoJitter(1, c);
    LogWaitsHaveNoJitter(2, c);
    LogRunsOneAhead(1, c, 0.5);
    LogRunsOneAhead(2, c, 0.5);
  }

  /** The log sender draws the constant one half: its waits are the doublings up to the cap, without jitter. */
  lemma LogWaitsHaveNoJitter(attempt: nat, c: Config)
    requires Sensible(c) && attempt > 0
    ensures LogWaitFor(attempt, c, 0.5) ==
            if c.max as real <= Doubled(c, attempt) then c.max else Trunc(Doubled(c, attempt))
  {
  }

  // ----- the retry loops -----

  datatype Response = TransportError | Status(code: int)

  /** What one attempt meets: a cancellation while sleeping, a request that cannot be built, or a response. */
  datatype Attempt = Attempt(draw: real, cancelled: bool, buildOk: bool, response: Response)

  datatype Verdict = Delivered | RejectedByServer(code: int) | CancelledAsleep | NotBuilt | NotMarshalled | StillTrying

  /** How an attempt ends the loop, or None to retry. A sleep of no length does not look at the context. */
  function Judge(w: Waiting, k: nat, a: Attempt): Option<Verdict> {
    if a.cancelled && w(k, a.draw) > 0 then Some(CancelledAsleep)
    else if !a.buildOk then Some(NotBuilt)
    else match a.response
      case TransportError => None
      case Status(code) =>
        if 200 <= code < 300 then Some(Delivered)
        else if 400 <= code < 500 then Some(RejectedByServer(code))
        else None
  }

  /** The loop ends with the first attempt that is not to be retried, having made exactly the waits before it. */
  ghost predicate Resolves(w: Waiting, attempts: nat -> Attempt, budget: nat, v: Verdict, tries: nat, slept: int) {
    && tries <= budget
    && (forall k :: 0 <= k < tries - 1 ==> Judge(w, k, attempts(k)) == None)
    && (if v == StillTrying then tries == budget && (tries > 0 ==> Judge(w, tries - 1, attempts(tries - 1)) == None)
        else tries > 0 && Judge(w, tries - 1, attempts(tries - 1)) == Some(v))
    && slept == Total(w, (k: nat) => attempts(k).draw, tries)
  }

  // ----- verdicts by the responses -----

  predicate IsSuccess(r: Response) {
    r.Status? && 200 <= r.code <= 299
  }

  predicate IsRejection(r: Response) {
    r.Status? && 400 <= r.code <= 499
  }

  /** Attempt `k` is the first that the server accepts or rejects. */
  ghost predicate FirstAnswered(attempts: nat -> Attempt, k: nat) {
    && (IsSuccess(attempts(k).response) || IsRejection(attempts(k).response))
    && forall j: nat :: j < k ==> !IsSuccess(attempts(j).response) && !IsRejection(attempts(j).response)
  }

  /** Nothing interrupts the first `budget` attempts. */
  ghost predicate Uninterrupted(attempts: nat -> Attempt, budget: nat) {
    forall k: nat :: k < budget ==> !attempts(k).cancelled && attempts(k).buildOk
  }

  /** The first accepting or rejecting response decides, by its status; without one the loop goes on. */
  ghost predicate DecidedByResponses(attempts: nat -> Attempt, budget: nat, v: Verdict, tries: nat) {
    && (forall k: nat :: k < budget && FirstAnswered(attempts, k) ==>
          && tries == k + 1
          && v == if IsSuccess(attempts(k).response) then Delivered else RejectedByServer(attempts(k).response.code))
    && ((forall k: nat :: k < budget ==> !FirstAnswered(attempts, k)) ==> v == StillTrying && tries == budget)
  }

  lemma Ended(w: Waiting, attempts: nat -> Attempt, budget: nat, v: Verdict, tries: nat, slept: int)
    requires Resolves(w, attempts, budget, v, tries, slept)
    ensures Uninterrupted(attempts, budget) ==> DecidedByResponses(attempts, budget, v, tries)
  {
    if Uninterrupted(attempts, budget) {
      VerdictByResponses(w, attempts, budget, v, tries, slept);
    }
  }

  /** The metric sender's loop, followed for at most `budget` attempts. */
  method Send(c: Config, marshalOk: bool, attempts: nat -> Attempt, budget: nat)
    returns (v: Verdict, tries: nat, slept: int)
    ensures !marshalOk ==> v == NotMarshalled && tries == 0 && slept == 0
    ensures marshalOk ==> Resolves(MetricWaiting(c), attempts, budget, v, tries, slept)
    ensures marshalOk && Uninterrupted(attempts, budget) ==> DecidedByResponses(attempts, budget, v, tries)
  {
    hide WaitFor, DecidedByResponses;
    slept, tries := 0, 0;
    if !marshalOk {
      return NotMarshalled, 0, 0;
    }
    while tries < budget
      invariant tries <= budget
      invariant forall k :: 0 <= k < tries ==> Judge(MetricWaiting(c), k, attempts(k)) == None
      invariant slept == Total(MetricWaiting(c), (k: nat) => attempts(k).draw, tries)
    {
      var a := attempts(tries);
      var wait := WaitFor(tries, c, a.draw);
      slept := slept + wait;
      tries := tries + 1;
      if wait > 0 && a.cancelled {
        Ended(MetricWaiting(c), attempts, budget, CancelledAsleep, tries, slept);
        return CancelledAsleep, tries, slept;
      }
      if !a.buildOk {
        Ended(MetricWaiting(c), attempts, budget, NotBuilt, tries, slept);
        return NotBuilt, tries, slept;
      }
      if a.response.Status? {
        if 200 <= a.response.code < 300 {
          Ended(MetricWaiting(c), attempts, budget, Delivered, tries, slept);
          return Delivered, tries, slept;
        }
        if 400 <= a.response.code < 500 {
          Ended(MetricWaiting(c), attempts, budget, RejectedByServer(a.response.code), tries, slept);
          return RejectedByServer(a.response.code), tries, slept;
        }
      }
    }
    v := StillTrying;
    Ended(MetricWaiting(c), attempts, budget, v, tries, slept);
  }

  /** The log sender's loop, followed for at most `budget` attempts. */
  method SendLogs(c: Config, marshalOk: bool, attempts: nat -> Attempt, budget: nat)
    returns (v: Verdict, tries: nat, slept: int)
    ensures !marshalOk ==> v == NotMarshalled && tries == 0 && slept == 0
    ensures marshalOk ==> Resolves(LogWaiting(c), attempts, budget, v, tries, slept)
    ensures marshalOk && Uninterrupted(attempts, budget) ==> DecidedByResponses(attempts, budget, v, tries)
  {
    hide LogWaitFor, DecidedByResponses;
    slept, tries := 0, 0;
    if !marshalOk {
      return NotMarshalled, 0, 0;
    }
    while tries < budget
      invariant tries <= budget
      invariant forall k :: 0 <= k < tries ==> Judge(LogWaiting(c), k, attempts(k)) == None
      invariant slept == Total(LogWaiting(c), (k: nat) => attempts(k).draw, tries)
    {
      var a := attempts(tries);
      var wait := LogWaitFor(tries, c, a.draw);
      slept := slept + wait;
      tries := tries + 1;
      if wait > 0 && a.cancelled {
        Ended(LogWaiting(c), attempts, budget, CancelledAsleep, tries, slept);
        return CancelledAsleep, tries, slept;
      }
      if !a.buildOk {
        Ended(LogWaiting(c), attempts, budget, NotBuilt, tries, slept);
        return NotBuilt, tries, slept;
      }
      if a.response == TransportError {
        continue;
      }
      if 200 <= a.response.code < 300 {
        Ended(LogWaiting(c), attempts, budget, Delivered, tries, slept);
        return Delivered, tries, slept;
      }
      if 400 <= a.response.code < 500 {
        Ended(LogWaiting(c), attempts, budget, RejectedByServer(a.response.code), tries, slept);
        return RejectedByServer(a.response.code), tries, slept;
      }
    }
    v := StillTrying;
    Ended(LogWaiting(c), attempts, budget, v, tries, slept);
  }

  /** The outcome is determined by what the attempts meet. */
  lemma ResolvesUnique(w: Waiting, attempts: nat -> Attempt, budget: nat,
                       v: Verdict, tries: nat, slept: int, v': Verdict, tries': nat, slept': int)
    requires Resolves(w, attempts, budget, v, tries, slept) && Resolves(w, attempts, budget, v', tries', slept')
    ensures v == v' && tries == tries' && slept == slept'
  {
  }

  /** Nothing but the waits tells the two loops apart: uncancelled, they end alike after as many tries. */
  lemma SendersAgree(c: Config, attempts: nat -> Attempt, budget: nat,
                     v: Verdict, tries: nat, slept: int, v': Verdict, tries': nat, slept': int)
    requires forall k: nat :: k < budget ==> !attempts(k).cancelled
    requires Resolves(MetricWaiting(c), attempts, budget, v, tries, slept)
    requires Resolves(LogWaiting(c), attempts, budget, v', tries', slept')
    ensures v == v' && tries == tries'
  {
  }

  /**
   If nothing interrupts the loop, the first response with a status in 200-299 or 400-499 decides, and no
   other response ends it: neither a transport error nor any other status, such as one in 500-599.
   */
  lemma VerdictByResponses(w: Waiting, attempts: nat -> Attempt, budget: nat, v: Verdict, tries: nat, slept: int)
    requires Resolves(w, attempts, budget, v, tries, slept)
    requires Uninterrupted(attempts, budget)
    ensures DecidedByResponses(attempts, budget, v, tries)
  {
    if v != StillTrying {
      assert FirstAnswered(attempts, tries - 1);
    }
  }

  /**
   In general each verdict says what ended the loop: a cancellation during a sleep, a request that could not
   be built, or else the response, at the last attempt; and nothing of the kind came before.
   */
  lemma VerdictMeans(w: Waiting, attempts: nat -> Attempt, budget: nat, v: Verdict, tries: nat, slept: int)
    requires Resolves(w, attempts, budget, v, tries, slept) && v != StillTrying
    ensures 0 < tries <= budget
    ensures var a := attempts(tries - 1); var asleep := a.cancelled && w(tries - 1, a.draw) > 0;
            && (v == CancelledAsleep <==> asleep)
            && (v == NotBuilt <==> !asleep && !a.buildOk)
            && (v == Delivered <==> !asleep && a.buildOk && IsSuccess(a.response))
            && (v.RejectedByServer? <==> !asleep && a.buildOk && IsRejection(a.response))
            && (v.RejectedByServer? ==> v.code == a.response.code)
    ensures forall k: nat :: k < tries - 1 ==>
              var a := attempts(k);
              && !(a.cancelled && w(k, a.draw) > 0) && a.buildOk
              && !IsSuccess(a.response) && !IsRejection(a.response)
  {
    assert forall k: nat :: k < tries - 1 ==> Judge(w, k, attempts(k)) == None;
  }
}
