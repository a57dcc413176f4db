/** The threads limit (src/limits/ThreadsLimitListener.cc). */
module ThreadsLimit {
  import opened Supervision
  import R = ResultRecord

  class ThreadsLimitListener {
    const threadsLimit: int
    const out: R.OIModelOutputBuilder
    var threadsPids: set<int>

    constructor (threadsLimit: int, out: R.OIModelOutputBuilder)
      ensures this.threadsLimit == threadsLimit && this.out == out && threadsPids == {}
    {
      this.threadsLimit, this.out, threadsPids := threadsLimit, out, {};
    }

    /** True for KILL, which then goes for the tracee and the child. */
    method OnPostClone(child: int, ghost c: Config, ghost s: Sandbox) returns (kill: bool)
      requires c.threadsLimit == threadsLimit && s.threads == threadsPids && s.verdict == out.verdict
      modifies this, out
      ensures ThreadsOnClone(c, s, child) == (s.(threads := threadsPids, verdict := out.verdict), kill)
    {
      if threadsLimit < 0 {
        out.SetKillReason(R.RV);
        return true;
      }
      threadsPids := threadsPids + {child};
      if |threadsPids| > threadsLimit {
        out.SetKillReason(R.RV);
        return true;
      }
      return false;
    }

    method OnExecuteEvent(e: Event, ghost c: Config, ghost s: Sandbox)
      requires c.threadsLimit == threadsLimit && s.threads == threadsPids
      modifies this
      ensures ThreadsOnEvent(c, s, e) == s.(threads := threadsPids)
    {
      if threadsLimit < 0 {
        return;
      }
      if e.kind.Over? {
        threadsPids := threadsPids - {e.pid};
      }
    }
  }
}
