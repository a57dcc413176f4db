/** The instruction limit (src/perf/PerfListener.cc) and its sampling (src/s2japp/Application.cc). */
module PerfLimit {
  import opened Common
  import R = ResultRecord

  /** The threads the application counts with; the root, which runs beside them, is not among them. */
  function Counters(threadsLimit: int): (n: nat)
    ensures n > 0
  {
    if threadsLimit > 0 then threadsLimit else 1
  }

  /** The factor of the application, multiplied in 64 bits, and made positive by the listener. */
  function SamplingFactor(oversampling: Size, threadsLimit: int): (f: Size)
    ensures f > 0
  {
    var factor := oversampling * Counters(threadsLimit) % WORD_SIZE;
    if factor < 1 then 1 else factor
  }

  function Sum(counts: seq<int>): int {
    if counts == [] then 0 else Sum(counts[..|counts| - 1]) + counts[|counts| - 1]
  }

  class PerfListener {
    const instructionCountLimit: Size
    const samplingFactor: Size
    const out: R.OIModelOutputBuilder

    constructor (limit: Size, samplingFactor: Size, out: R.OIModelOutputBuilder)
      ensures instructionCountLimit == limit && this.out == out
      ensures this.samplingFactor == if samplingFactor < 1 then 1 else samplingFactor
    {
      instructionCountLimit, this.out := limit, out;
      this.samplingFactor := if samplingFactor < 1 then 1 else samplingFactor;
    }

    /** The sum of what the counters hold, in 64 bits; none, an exception, if one holds a negative number. */
    method GetInstructionsUsed(counts: seq<int>) returns (used: Option<Size>)
      ensures used == if exists i :: 0 <= i < |counts| && counts[i] < 0 then None else Some(Sum(counts) % WORD_SIZE)
    {
      var sum: Size := 0;
      for i := 0 to |counts|
        invariant forall j | 0 <= j < i :: counts[j] >= 0
        invariant sum == Sum(counts[..i]) % WORD_SIZE
      {
        if counts[i] < 0 {
          return None;
        }
        assert counts[..i + 1][..i] == counts[..i];
        sum := (sum + counts[i]) % WORD_SIZE;
      }
      assert counts[..|counts|] == counts;
      used := Some(sum);
    }

    /** True for KILL; none if reading a counter fails. */
    method OnSigioSignal(counts: seq<int>) returns (kill: Option<bool>)
      modifies out
      ensures kill == None <==> exists i :: 0 <= i < |counts| && counts[i] < 0
      ensures kill != None ==>
        kill.value == (instructionCountLimit != 0 && Sum(counts) % WORD_SIZE >= instructionCountLimit)
      ensures out.verdict == if kill == Some(true) then old(out.verdict).WithReason(R.TLE) else old(out.verdict)
    {
      var used := GetInstructionsUsed(counts);
      if used == None {
        return None;
      }
      if instructionCountLimit != 0 && used.value >= instructionCountLimit {
        out.SetKillReason(R.TLE);
        return Some(true);
      }
      return Some(false);
    }
  }

  // ------------------------------------------------------------------ how far the limit can be overshot

  /** The counts at a check and at the next: tasks that ended keep theirs, new tasks come after them. */
  function Before(before: seq<nat>, i: nat): nat {
    if i < |before| then before[i] else 0
  }

  /** No task has gone further than the period, which is positive, since each wakes the supervisor once a period. */
  ghost predicate Sampled(before: seq<nat>, after: seq<nat>, period: nat) {
    && period > 0 && |before| <= |after|
    && forall i | 0 <= i < |after| :: Before(before, i) <= after[i] <= Before(before, i) + period
  }

  /** How many of the first `k` tasks ran between the two checks. */
  function ActiveUpto(before: seq<nat>, after: seq<nat>, k: nat): (n: nat)
    requires k <= |after|
    ensures n <= k
  {
    if k == 0 then 0
    else ActiveUpto(before, after, k - 1) + if after[k - 1] > Before(before, k - 1) then 1 else 0
  }

  function Active(before: seq<nat>, after: seq<nat>): (n: nat)
    ensures n <= |after|
  {
    ActiveUpto(before, after, |after|)
  }

  function SumUpto(counts: seq<nat>, k: nat): nat {
    if k == 0 then 0 else SumUpto(counts, k - 1) + Before(counts, k - 1)
  }

  lemma {:induction false} SumUptoIs(counts: seq<nat>, k: nat)
    ensures SumUpto(counts, k) == Sum(if k <= |counts| then counts[..k] else counts)
  {
    if k > 0 {
      SumUptoIs(counts, k - 1);
      if k <= |counts| {
        assert counts[..k][..k - 1] == counts[..k - 1];
      } else {
        assert counts[..|counts|] == counts;
      }
    }
  }

  lemma {:induction false} SumGrows(before: seq<nat>, after: seq<nat>, period: nat, k: nat)
    requires Sampled(before, after, period) && k <= |after|
    ensures SumUpto(after, k) <= SumUpto(before, k) + ActiveUpto(before, after, k) * period
  {
    if k > 0 {
      SumGrows(before, after, period, k - 1);
      OneMore(ActiveUpto(before, after, k - 1), if after[k - 1] > Before(before, k - 1) then 1 else 0, period);
    }
  }

  lemma OneMore(n: nat, more: nat, period: nat)
    requires more <= 1
    ensures (n + more) * period == n * period + more * period
  {}

  /** Whatever tasks come and go between two checks, the sum grows by at most a period for each that ran. */
  lemma GrowthIsBounded(before: seq<nat>, after: seq<nat>, period: nat)
    requires Sampled(before, after, period)
    ensures Sum(after) <= Sum(before) + Active(before, after) * period
  {
    SumGrows(before, after, period, |after|);
    SumUptoIs(before, |after|);
    SumUptoIs(after, |after|);
    assert after[..|after|] == after && before[..|before|] == before;
  }

  lemma TimesGrows(a: nat, b: nat, c: nat)
    ensures a <= b ==> a * c <= b * c
  {}

  /** If the last check answered CONTINUE and no more than `n` tasks ran since, the next check finds the limit overshot by
      less than `n` periods. */
  lemma OvershootIsBounded(limit: nat, period: nat, n: nat, before: seq<nat>, after: seq<nat>)
    requires Sampled(before, after, period) && Active(before, after) <= n && Sum(before) < limit
    ensures Sum(after) < limit + n * period
  {
    GrowthIsBounded(before, after, period);
    TimesGrows(Active(before, after), n, period);
  }

  /** A run of checks, of which all before the `k`-th answered CONTINUE by the sum they took in 64 bits, and between any two
      of which no more than `n` tasks ran. */
  ghost predicate ContinuedUpto(limit: nat, period: nat, n: nat, readings: seq<seq<nat>>, k: nat)
    requires k < |readings|
  {
    && (forall j | 0 <= j < k :: Total(readings[j]) % WORD_SIZE < limit)
    && IsNext(period, n, [], readings[0]) && forall j | 0 < j <= k :: IsNext(period, n, readings[j - 1], readings[j])
  }

  lemma {:induction false} SumIsCount(counts: seq<nat>)
    ensures Sum(counts) >= 0
  {
    if counts != [] {
      SumIsCount(counts[..|counts| - 1]);
    }
  }

  lemma NotWrapped(sum: nat, limit: nat, bound: nat)
    requires sum < bound <= WORD_SIZE && sum % WORD_SIZE < limit
    ensures sum < limit
  {}

  lemma {:induction false} NoSumWraps(limit: nat, room: nat, sums: seq<nat>, k: nat)
    requires k < |sums| && limit + room <= WORD_SIZE
    requires sums[0] < limit + room && forall j | 0 < j <= k :: sums[j] <= sums[j - 1] + room
    requires forall j | 0 <= j < k :: sums[j] % WORD_SIZE < limit
    ensures sums[k] < limit + room && (k > 0 ==> sums[k - 1] < limit)
  {
    if k > 0 {
      NoSumWraps(limit, room, sums, k - 1);
      NotWrapped(sums[k - 1], limit, limit + room);
    }
  }

  lemma CheckGrows(period: nat, n: nat, before: seq<nat>, after: seq<nat>)
    requires Sampled(before, after, period) && Active(before, after) <= n
    ensures 0 <= Sum(after) <= Sum(before) + n * period
  {
    SumIsCount(after);
    GrowthIsBounded(before, after, period);
    TimesGrows(Active(before, after), n, period);
  }

  function Total(counts: seq<nat>): (n: nat)
    ensures n == Sum(counts)
  {
    SumIsCount(counts);
    Sum(counts)
  }

  /** What the first checks found. */
  function Totals(readings: seq<seq<nat>>, k: nat): (sums: seq<nat>)
    requires k <= |readings|
    ensures |sums| == k && forall j | 0 <= j < k :: sums[j] == Total(readings[j])
  {
    seq(k, j requires 0 <= j < k => Total(readings[j]))
  }

  ghost predicate IsNext(period: nat, n: nat, before: seq<nat>, after: seq<nat>) {
    Sampled(before, after, period) && Active(before, after) <= n
  }

  lemma NextTotal(period: nat, n: nat, before: seq<nat>, after: seq<nat>)
    requires IsNext(period, n, before, after)
    ensures Total(after) <= Total(before) + n * period
  {
    CheckGrows(period, n, before, after);
  }

  /** Over a run of checks, the first included: if no sum can wrap around within `n` periods of the limit, none did, and the
      check that first finds the limit reached finds it overshot by less than `n` periods. */
  lemma FirstKillIsInTime(limit: nat, period: nat, n: nat, readings: seq<seq<nat>>, k: nat)
    requires k < |readings| && 0 < limit && limit + n * period <= WORD_SIZE
    requires ContinuedUpto(limit, period, n, readings, k)
    ensures Total(readings[k]) < limit + n * period && (k > 0 ==> Total(readings[k - 1]) < limit)
  {
    var sums := Totals(readings, k + 1);
    NextTotal(period, n, [], readings[0]);
    forall j | 0 < j <= k ensures sums[j] <= sums[j - 1] + n * period {
      NextTotal(period, n, readings[j - 1], readings[j]);
    }
    NoSumWraps(limit, n * period, sums, k);
  }

  lemma {:induction false} ActiveGrows(before: seq<nat>, after: seq<nat>, k: nat, m: nat)
    requires k <= m <= |after|
    ensures ActiveUpto(before, after, m) <= ActiveUpto(before, after, k) + (m - k)
  {
    if k < m {
      ActiveGrows(before, after, k, m - 1);
    }
  }

  /** Of the tasks there were at a check no more than the root and the threads allowed went on; so what the next check finds
      is less than a period for each of those, and one for each task that has appeared since. */
  lemma OvershootUnderThreadsLimit(limit: Size, oversampling: Size, threadsLimit: nat, before: seq<nat>, after: seq<nat>)
    requires Sampled(before, after, Period(limit, oversampling, threadsLimit)) && Sum(before) < limit
    requires ActiveUpto(before, after, |before|) <= threadsLimit + 1
    ensures Sum(after) <
      limit + (threadsLimit + 1 + |after| - |before|) * Period(limit, oversampling, threadsLimit)
  {
    ActiveGrows(before, after, |before|, |after|);
    OvershootIsBounded(limit, Period(limit, oversampling, threadsLimit), threadsLimit + 1 + |after| - |before|, before,
                       after);
  }

  // ------------------------------------------------------------------ when that is one share of the limit

  function Period(limit: Size, oversampling: Size, threadsLimit: int): nat {
    limit / SamplingFactor(oversampling, threadsLimit)
  }

  /** The next check after a CONTINUE always sees less than the limit and one oversampling share of it. */
  ghost predicate ShareIsEnough(limit: Size, oversampling: Size, period: nat, n: nat)
    requires oversampling > 0
  {
    forall before: seq<nat>, after: seq<nat> ::
      Sampled(before, after, period) && Active(before, after) <= n && Sum(before) < limit ==>
      Sum(after) < limit + limit / oversampling
  }

  /** One task that has almost reached the limit, and others that have not begun. */
  function Almost(limit: nat, n: nat): (counts: seq<nat>)
    requires n > 0 && limit > 0
    ensures |counts| == n
  {
    seq(n, i requires 0 <= i < n => if i == 0 then limit - 1 else 0)
  }

  function Further(counts: seq<nat>, period: nat): (further: seq<nat>)
    ensures |further| == |counts| && forall i | 0 <= i < |counts| :: further[i] == counts[i] + period
  {
    seq(|counts|, i requires 0 <= i < |counts| => counts[i] + period)
  }

  lemma {:induction false} FurtherSum(counts: seq<nat>, period: nat)
    ensures Sum(Further(counts, period)) == Sum(counts) + |counts| * period
  {
    if counts != [] {
      var n := |counts| - 1;
      FurtherSum(counts[..n], period);
      assert Further(counts, period)[..n] == Further(counts[..n], period);
      OneMore(n, 1, period);
    }
  }

  lemma {:induction false} AlmostSum(limit: nat, n: nat)
    requires n > 0 && limit > 0
    ensures Sum(Almost(limit, n)) == limit - 1
  {
    if n > 1 {
      AlmostSum(limit, n - 1);
      assert Almost(limit, n)[..n - 1] == Almost(limit, n - 1);
    } else {
      assert Almost(limit, 1)[..0] == [];
    }
  }

  /** One share is enough for `n` tasks exactly when their periods fit in it. */
  lemma ShareIsEnoughIff(limit: Size, oversampling: Size, period: nat, n: nat)
    requires oversampling > 0 && limit > 0
    ensures ShareIsEnough(limit, oversampling, period, n) <==> n * period <= limit / oversampling
  {
    if n * period <= limit / oversampling {
      forall before: seq<nat>, after: seq<nat> |
        Sampled(before, after, period) && Active(before, after) <= n && Sum(before) < limit
        ensures Sum(after) < limit + limit / oversampling
      {
        OvershootIsBounded(limit, period, n, before, after);
      }
    } else {
      TimesGrows(n, 0, period);
      AlmostSum(limit, n);
      FurtherSum(Almost(limit, n), period);
      var before, after := Almost(limit, n), Further(Almost(limit, n), period);
      assert Sampled(before, after, period) && Sum(after) >= limit + limit / oversampling;
    }
  }

  lemma QuotientTimes(limit: nat, d: nat)
    requires d > 0
    ensures limit / d * d <= limit < (limit / d + 1) * d
  {}

  lemma AtMostQuotient(x: nat, limit: nat, d: nat)
    requires d > 0 && x * d <= limit
    ensures x <= limit / d
  {
    QuotientTimes(limit, d);
    TimesGrows(limit / d + 1, x, d);
  }

  lemma Regroup(a: nat, b: nat, c: nat)
    ensures (a * b) * c == b * (c * a)
  {}

  /** It is, without wrap-around, for as many tasks as the factor counts. */
  lemma SharesOfTheFactor(limit: Size, oversampling: Size, threadsLimit: int)
    requires oversampling > 0 && limit > 0 && oversampling * Counters(threadsLimit) < WORD_SIZE
    ensures ShareIsEnough(limit, oversampling, Period(limit, oversampling, threadsLimit), Counters(threadsLimit))
  {
    var n, period := Counters(threadsLimit), Period(limit, oversampling, threadsLimit);
    TimesGrows(1, oversampling, n);
    QuotientTimes(limit, oversampling * n);
    Regroup(n, period, oversampling);
    AtMostQuotient(n * period, limit, oversampling);
    ShareIsEnoughIff(limit, oversampling, period, n);
  }

  /** But the root runs beside `threadsLimit` threads, and then it is not: one thread is allowed, two tasks run. */
  lemma OneTaskTooMany()
    ensures var period := Period(100, 1, 1);
      && Sampled([49, 50], [149, 150], period) && Active([49, 50], [149, 150]) == 2
      && Sum([49, 50]) < 100 && Sum([149, 150]) >= 100 + 100 / 1
      && !ShareIsEnough(100, 1, period, 2)
  {
    var before: seq<nat>, after: seq<nat> := [49, 50], [149, 150];
    assert after[..1] == [149] && before[..1] == [49];
    assert Sum(before) == 99 && Sum(after) == 299;
    assert Sampled(before, after, 100);
    assert Active(before, after) == 2;
  }

  /** There is sampling at all exactly when the limit is no less than the factor. */
  lemma SamplesIff(limit: Size, oversampling: Size, threadsLimit: int)
    ensures Period(limit, oversampling, threadsLimit) > 0 <==> limit >= SamplingFactor(oversampling, threadsLimit)
  {}
}
