/** The result record and its verdict (src/printer/OIModelOutputBuilder.cc, src/printer/OITimeToolOutputBuilder.cc). */
module ResultRecord {

  datatype KillReason = NONE | RE | RV | TLE | MLE | OLE

  /** The fields of the record that make up the verdict, as uint32_t. */
  datatype Verdict = Verdict(reason: KillReason, signal: nat, status: nat) {

    function WithReason(r: KillReason): Verdict {
      if reason == NONE then this.(reason := r) else this
    }

    function WithStatus(s: nat): Verdict {
      if status == 0 then this.(status := s) else this
    }

    function WithSignal(s: nat): Verdict {
      if signal == 0 then this.(signal := s).WithStatus(128 + s) else this
    }

    /** What dumpStatus prints. */
    function Text(): StatusText {
      if reason != NONE then ReasonComment
      else if signal > 0 then DueToSignal(signal)
      else if status > 0 then RuntimeError(status)
      else Ok
    }

    /** encodeStatusCode: the sum is taken in uint32_t and returned as an int. */
    function Code(): int {
      if reason == NONE && signal > 0 then ToInt(signal)
      else if reason == NONE && status > 0 then ToInt((200 + status) % WORDS)
      else match reason
        case NONE => 0
        case RE => 100
        case RV => 121
        case TLE => 125
        case MLE => 124
        case OLE => 120
    }

    /** The result column of the augmented report (AugmentedOIOutputBuilder::dump). */
    function ReportedReason(): KillReason {
      if reason == NONE && (signal > 0 || status > 0) then RE else reason
    }
  }

  datatype StatusText = ReasonComment | DueToSignal(signal: nat) | RuntimeError(status: nat) | Ok

  const WORDS := 0x1_0000_0000

  function ToInt(w: nat): int
  {
    if w % WORDS < WORDS / 2 then w % WORDS else w % WORDS - WORDS
  }

  const NO_VERDICT := Verdict(NONE, 0, 0)

  /** Status code 0, the text "ok" and the column "OK" say the same of every record a uint32_t can hold, but for the one
      status whose code wraps around to 0. */
  lemma CodeZeroIffOk(v: Verdict)
    requires v.signal < WORDS && v.status < WORDS
    ensures v.Text().Ok? <==> v.ReportedReason() == NONE
    ensures v.Code() == 0 <==> v.Text().Ok? || v == Verdict(NONE, 0, WORDS - 200)
  {
    if v.reason == NONE && v.signal == 0 && 0 < v.status {
      assert v.status >= WORDS - 200 ==> (200 + v.status) % WORDS == 200 + v.status - WORDS;
    }
  }

  /** The codes of the reasons; without a reason the signal, and without a signal the status above 200. */
  lemma CodeNumbers(v: Verdict)
    requires v.signal < 256 && v.status < 128 + 256
    ensures v.reason == RE ==> v.Code() == 100
    ensures v.reason == OLE ==> v.Code() == 120
    ensures v.reason == RV ==> v.Code() == 121
    ensures v.reason == MLE ==> v.Code() == 124
    ensures v.reason == TLE ==> v.Code() == 125
    ensures v.reason == NONE ==>
      v.Code() == if v.signal > 0 then v.signal else if v.status > 0 then 200 + v.status else 0
    ensures v.reason == NONE && v.signal > 0 ==> v.Text() == DueToSignal(v.signal) && v.ReportedReason() == RE
    ensures v.reason == NONE && v.signal == 0 && v.status > 0 ==>
      v.Text() == RuntimeError(v.status) && v.ReportedReason() == RE
    ensures v.reason != NONE ==> v.Text() == ReasonComment && v.ReportedReason() == v.reason
  {}

  /** The verdicts an execution leaves behind are coherent: a kill signal shows in the exit status. */
  predicate Coherent(v: Verdict) {
    v.signal != 0 ==> v.status == 128 + v.signal
  }

  /** First writer wins: what is recorded in the one verdict is still recorded in the other. */
  predicate Extends(later: Verdict, earlier: Verdict) {
    && (earlier.reason != NONE ==> later.reason == earlier.reason)
    && (earlier.signal != 0 ==> later.signal == earlier.signal)
    && (earlier.status != 0 ==> later.status == earlier.status)
  }

  class OIModelOutputBuilder {
    var verdict: Verdict

    constructor ()
      ensures verdict == NO_VERDICT
    {
      verdict := NO_VERDICT;
    }

    method SetExitStatus(exitStatus: nat)
      modifies this
      ensures verdict == old(verdict).WithStatus(exitStatus)
      ensures Extends(verdict, old(verdict))
    {
      if verdict.status == 0 {
        verdict := verdict.(status := exitStatus);
      }
    }

    method SetKillSignal(killSignal: nat)
      modifies this
      ensures verdict == old(verdict).WithSignal(killSignal)
      ensures Extends(verdict, old(verdict))
    {
      if verdict.signal == 0 {
        verdict := verdict.(signal := killSignal);
        SetExitStatus(128 + killSignal);
      }
    }

    method SetKillReason(reason: KillReason)
      modifies this
      ensures verdict == old(verdict).WithReason(reason)
      ensures Extends(verdict, old(verdict))
    {
      if verdict.reason == NONE {
        verdict := verdict.(reason := reason);
      }
    }
  }
}
