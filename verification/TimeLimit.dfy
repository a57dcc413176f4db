/** The time limits (src/limits/TimeLimitListener.cc): when the timer first ticks, and what a tick finds exceeded. */
module TimeLimit {
  import opened Common
  import R = ResultRecord

  type Us = Size

  const UNLIMITED: Us := WORD_SIZE - 1
  const US_PER_SECOND := 1_000_000
  const TIMER_TICKING_INTERVAL_US: Us := 200_000

  /** The limits, where 0 stands for none: wall clock, user, system, and user and system time together. */
  datatype Limits = Limits(wall: Us, user: Us, sys: Us, userSys: Us)

  /** Times used; the wall clock's is its distance from the start, which does not wrap around. */
  datatype Usage = Usage(wall: nat, user: Us, sys: Us)

  /** A limit the timer is armed for. */
  predicate Counts(limit: nat) {
    limit != 0 && limit != UNLIMITED
  }

  ghost predicate IsLimit(l: Limits, t: nat) {
    Counts(t) && (t == l.wall || t == l.user || t == l.sys || t == l.userSys)
  }

  /** The sum is taken in 64 bits. */
  predicate Exceeded(l: Limits, u: Usage) {
    || (l.wall != 0 && u.wall > l.wall)
    || (l.user != 0 && u.user > l.user)
    || (l.sys != 0 && u.sys > l.sys)
    || (l.userSys != 0 && (u.user + u.sys) % WORD_SIZE > l.userSys)
  }

  /** struct itimerspec. */
  datatype TimeSpec = TimeSpec(sec: nat, nsec: nat) {
    predicate Valid() {
      nsec < 1_000_000_000
    }

    /** The time in nanoseconds. */
    function Ns(): nat {
      sec * 1_000_000_000 + nsec
    }
  }

  function ToTimeSpec(us: Us): (t: TimeSpec)
    ensures t.Valid() && t.Ns() == us * 1000
  {
    TimeSpec(us / US_PER_SECOND, us % US_PER_SECOND * 1000)
  }

  datatype Timer = Disarmed | Armed(first: TimeSpec, interval: TimeSpec)

  /** Armed exactly if some limit counts, for the least of them, and for every 200 ms from then on. */
  ghost predicate ArmedFor(timer: Timer, limits: Limits) {
    && (timer.Armed? <==> exists t: nat :: IsLimit(limits, t))
    && (timer.Armed? ==>
      && timer.first.Valid() && timer.interval == TimeSpec(0, 200_000_000)
      && (exists t: nat :: IsLimit(limits, t) && timer.first.Ns() == t * 1000)
      && (forall t: nat | IsLimit(limits, t) :: timer.first.Ns() <= t * 1000))
  }

  class TimeLimitListener {
    const limits: Limits
    const out: R.OIModelOutputBuilder
    var timer: Timer

    constructor (limits: Limits, out: R.OIModelOutputBuilder)
      ensures this.limits == limits && this.out == out && timer == Disarmed
    {
      this.limits, this.out, timer := limits, out, Disarmed;
    }

    /** Arms the timer for the least limit there is, and for every 200 ms from then on. */
    method OnPostForkParent()
      modifies this
      ensures ArmedFor(timer, limits)
    {
      var firstTimerTick := UNLIMITED;
      if limits.wall != 0 && limits.wall < firstTimerTick {
        firstTimerTick := limits.wall;
      }
      if limits.user != 0 && limits.user < firstTimerTick {
        firstTimerTick := limits.user;
      }
      if limits.sys != 0 && limits.sys < firstTimerTick {
        firstTimerTick := limits.sys;
      }
      if limits.userSys != 0 && limits.userSys < firstTimerTick {
        firstTimerTick := limits.userSys;
      }
      if firstTimerTick != UNLIMITED {
        assert IsLimit(limits, firstTimerTick);
        timer := Armed(ToTimeSpec(firstTimerTick), ToTimeSpec(TIMER_TICKING_INTERVAL_US));
      } else {
        timer := Disarmed;
      }
    }

    method VerifyTimeUsage(u: Usage) returns (kill: bool)
      modifies out
      ensures kill <==> Exceeded(limits, u)
      ensures out.verdict == if kill then old(out.verdict).WithReason(R.TLE) else old(out.verdict)
    {
      if limits.wall != 0 && u.wall > limits.wall {
        out.SetKillReason(R.TLE);
        return true;
      }
      if limits.user != 0 || limits.sys != 0 || limits.userSys != 0 {
        if limits.user != 0 && u.user > limits.user {
          out.SetKillReason(R.TLE);
          return true;
        }
        if limits.sys != 0 && u.sys > limits.sys {
          out.SetKillReason(R.TLE);
          return true;
        }
        if limits.userSys != 0 && (u.user + u.sys) % WORD_SIZE > limits.userSys {
          out.SetKillReason(R.TLE);
          return true;
        }
      }
      return false;
    }

    method OnSigalrmSignal(u: Usage) returns (kill: bool)
      modifies out
      ensures kill <==> timer.Armed? && Exceeded(limits, u)
      ensures out.verdict == if kill then old(out.verdict).WithReason(R.TLE) else old(out.verdict)
    {
      if timer.Disarmed? {
        return false;
      }
      kill := VerifyTimeUsage(u);
    }

    method OnPostExecute(u: Usage)
      modifies out
      ensures out.verdict == if Exceeded(limits, u) then old(out.verdict).WithReason(R.TLE) else old(out.verdict)
    {
      var _ := VerifyTimeUsage(u);
    }
  }

  /** Each limit by itself bounds the time it is named for, the last one the sum of two; together they are exceeded when one
      of them is. */
  lemma SingleLimits(l: Limits, u: Usage)
    ensures l.wall > 0 ==> (Exceeded(Limits(l.wall, 0, 0, 0), u) <==> u.wall > l.wall)
    ensures l.user > 0 ==> (Exceeded(Limits(0, l.user, 0, 0), u) <==> u.user > l.user)
    ensures l.sys > 0 ==> (Exceeded(Limits(0, 0, l.sys, 0), u) <==> u.sys > l.sys)
    ensures l.userSys > 0 && u.user + u.sys < WORD_SIZE ==>
      (Exceeded(Limits(0, 0, 0, l.userSys), u) <==> u.user + u.sys > l.userSys)
    ensures Exceeded(l, u) <==>
      || Exceeded(Limits(l.wall, 0, 0, 0), u) || Exceeded(Limits(0, l.user, 0, 0), u)
      || Exceeded(Limits(0, 0, l.sys, 0), u) || Exceeded(Limits(0, 0, 0, l.userSys), u)
    ensures !Exceeded(Limits(0, 0, 0, 0), u)
  {}

  /** A limit the timer is not armed for cannot be exceeded: without a timer nothing is. */
  lemma UncountedIsNeverExceeded(l: Limits, u: Usage)
    requires u.wall < WORD_SIZE
    ensures Exceeded(l, u) ==> exists t: nat :: IsLimit(l, t)
  {
    if Exceeded(l, u) {
      if l.wall != 0 && u.wall > l.wall {
        assert IsLimit(l, l.wall);
      } else if l.user != 0 && u.user > l.user {
        assert IsLimit(l, l.user);
      } else if l.sys != 0 && u.sys > l.sys {
        assert IsLimit(l, l.sys);
      } else {
        assert IsLimit(l, l.userSys);
      }
    }
  }
}
