/** The signal flags and the wait loop (src/executor/Executor.cc), with handlers that can run between any two steps, and
    the timer of the time limit (src/limits/TimeLimitListener.cc). */
module SignalLoop {
  import opened TimeLimit

  /** Where the loop stands: the steps of checkSignals for SIGIO and then for SIGALRM, the window in which a signal no longer
      stops the wait from beginning, the wait, and the handling of an event. */
  datatype Place =
    | IoTest | IoClear | IoCall
    | AlrmTest | AlrmClear | AlrmCall
    | Window | Waiting | Handling

  /** What became of one signal, in steps of the run: when a listener call for it last started, and when the loop last
      tested its flag; -1 for never. */
  datatype Record = Record(called: int, tested: int)

  datatype State = State(place: Place, io: bool, alrm: bool, ios: Record, alrms: Record, steps: nat,
                         now: nat, nextTick: nat, killed: bool)

  /** One step: of the loop, where `kill` is what other listeners answer in a call and `user` and `sys` the times the time
      limit's listener reads; the wait returning an event; a signal; or time going by. */
  datatype Move = Go(kill: bool, user: Us, sys: Us) | Report | IoArrives | Tick | Pass(us: nat)

  const NEVER := Record(-1, -1)

  /** The loop begins, with the first tick to come at `first`. */
  function Begin(first: nat): State {
    State(IoTest, false, false, NEVER, NEVER, 0, 0, first, false)
  }

  /** A step of the loop itself. */
  function Loop(s: State, limits: Limits, kill: bool, user: Us, sys: Us): State {
    match s.place
    case IoTest => s.(place := if s.io then IoClear else AlrmTest, ios := s.ios.(tested := s.steps))
    case IoClear => s.(place := IoCall, io := false)
    case IoCall => s.(place := AlrmTest, ios := s.ios.(called := s.steps), killed := s.killed || kill)
    case AlrmTest => s.(place := if s.alrm then AlrmClear else Window, alrms := s.alrms.(tested := s.steps))
    case AlrmClear => s.(place := AlrmCall, alrm := false)
    case AlrmCall =>
      s.(place := Window, alrms := s.alrms.(called := s.steps),
         killed := s.killed || kill || Exceeded(limits, Usage(s.now, user, sys)))
    case Window => s.(place := Waiting)
    case Waiting => s
    case Handling => s.(place := IoTest)
  }

  /** A signal sets its flag, and interrupts the wait. */
  function Interrupt(place: Place): Place {
    if place.Waiting? then IoTest else place
  }

  /** Only the wait takes time, and not past the next tick: the timer is ideal, and everything else takes none. */
  function Next(s: State, limits: Limits, m: Move): State {
    var t := match m
      case Go(kill, user, sys) => Loop(s, limits, kill, user, sys)
      case Report => if s.place.Waiting? then s.(place := Handling) else s
      case IoArrives => s.(place := Interrupt(s.place), io := true)
      case Tick =>
        if s.now < s.nextTick then s
        else s.(place := Interrupt(s.place), alrm := true, nextTick := s.nextTick + TIMER_TICKING_INTERVAL_US)
      case Pass(us) => if s.place.Waiting? && s.now + us <= s.nextTick then s.(now := s.now + us) else s;
    t.(steps := s.steps + 1)
  }

  function Exec(s: State, limits: Limits, moves: seq<Move>): State
    decreases |moves|
  {
    if moves == [] then s else Exec(Next(s, limits, moves[0]), limits, moves[1..])
  }

  // ------------------------------------------------------------------ no signal is lost

  datatype Signal = SIGIO | SIGALRM

  function Flag(s: State, signal: Signal): bool {
    if signal.SIGIO? then s.io else s.alrm
  }

  function Of(s: State, signal: Signal): Record {
    if signal.SIGIO? then s.ios else s.alrms
  }

  /** The call is the next step; or the flag's clearing is, and the call after it. */
  predicate Calling(s: State, signal: Signal) {
    if signal.SIGIO? then s.place.IoCall? else s.place.AlrmCall?
  }

  predicate Serving(s: State, signal: Signal) {
    Calling(s, signal) || if signal.SIGIO? then s.place.IoClear? else s.place.AlrmClear?
  }

  /** An arrival in step `n`: until a call starts after it, its flag is up or the call is next; and once the flag has been
      tested after it, only clearing and calling are left to do. */
  predicate Kept(s: State, signal: Signal, n: nat) {
    && n < s.steps
    && (Of(s, signal).called <= n ==>
      && (Flag(s, signal) || Calling(s, signal))
      && (Of(s, signal).tested > n ==> Serving(s, signal)))
  }

  predicate PastChecks(place: Place) {
    place.Window? || place.Waiting? || place.Handling?
  }

  /** The move is an arrival of the signal. */
  predicate Arrives(s: State, signal: Signal, m: Move) {
    if signal.SIGIO? then m.IoArrives? else m.Tick? && s.now >= s.nextTick
  }

  /** Steps recorded are steps taken. */
  predicate Dated(s: State) {
    s.ios.called < s.steps && s.ios.tested < s.steps && s.alrms.called < s.steps && s.alrms.tested < s.steps
  }

  lemma {:induction false} ExecIsDated(s: State, limits: Limits, moves: seq<Move>)
    requires Dated(s)
    ensures Dated(Exec(s, limits, moves))
    decreases |moves|
  {
    if moves != [] {
      ExecIsDated(Next(s, limits, moves[0]), limits, moves[1..]);
    }
  }

  lemma NextKeeps(s: State, limits: Limits, m: Move, signal: Signal, n: nat)
    requires Kept(s, signal, n)
    ensures Kept(Next(s, limits, m), signal, n)
  {}

  lemma {:induction false} ExecKeeps(s: State, limits: Limits, moves: seq<Move>, signal: Signal, n: nat)
    requires Kept(s, signal, n)
    ensures Kept(Exec(s, limits, moves), signal, n)
    decreases |moves|
  {
    if moves != [] {
      NextKeeps(s, limits, moves[0], signal, n);
      ExecKeeps(Next(s, limits, moves[0]), limits, moves[1..], signal, n);
    }
  }

  /** Each arrival counts, wherever in the loop it comes and whatever comes after it: once the loop has tested the flag
      since and is through its checks, a listener call has started after the arrival; and until one has, the flag is up or
      the call is the next step. */
  lemma NoSignalIsLost(first: nat, limits: Limits, before: seq<Move>, m: Move, after: seq<Move>, signal: Signal)
    requires Arrives(Exec(Begin(first), limits, before), signal, m)
    ensures var arrival := Exec(Begin(first), limits, before);
      var s := Exec(Begin(first), limits, before + [m] + after);
      && (PastChecks(s.place) && Of(s, signal).tested > arrival.steps ==> Of(s, signal).called > arrival.steps)
      && (Of(s, signal).called > arrival.steps || Flag(s, signal) || Calling(s, signal))
  {
    var arrival := Exec(Begin(first), limits, before);
    ExecIsDated(Begin(first), limits, before);
    ExecConcat(Begin(first), limits, before, [m]);
    ExecConcat(Begin(first), limits, before + [m], after);
    assert Exec(arrival, limits, [m]) == Exec(Next(arrival, limits, m), limits, []);
    ExecKeeps(Next(arrival, limits, m), limits, after, signal, arrival.steps);
  }

  // ------------------------------------------------------------------ a limit is answered in time

  const T: nat := TIMER_TICKING_INTERVAL_US

  /** Before the limit's KILL. The tick that first finds the limit exceeded comes at most T after it; it leads to a call at
      once, or in the window leaves its flag up for the tick after it. */
  predicate OnTime(s: State, limit: nat) {
    s.now <= s.nextTick && (!s.killed ==>
      && s.now <= limit + 2 * T
      && (s.nextTick > limit + T ==> s.now > limit && (s.alrm || s.place.AlrmCall?))
      && (s.place.Window? || s.place.Waiting? ==> s.nextTick <= limit + 2 * T)
      && (s.place.Window? && s.nextTick > limit + T ==> s.nextTick == s.now + T))
  }

  lemma NextIsOnTime(s: State, limits: Limits, m: Move)
    requires OnTime(s, limits.wall) && limits.wall != 0
    ensures OnTime(Next(s, limits, m), limits.wall)
  {}

  lemma {:induction false} ExecIsOnTime(s: State, limits: Limits, moves: seq<Move>)
    requires OnTime(s, limits.wall) && limits.wall != 0
    ensures OnTime(Exec(s, limits, moves), limits.wall)
    decreases |moves|
  {
    if moves != [] {
      NextIsOnTime(s, limits, moves[0]);
      ExecIsOnTime(Next(s, limits, moves[0]), limits, moves[1..]);
    }
  }

  /** When the first tick of an armed timer comes, in whole microseconds. */
  function FirstTick(timer: Timer): nat
    requires timer.Armed?
  {
    timer.first.Ns() / 1000
  }

  /** With the timer armed for the limits, and a real time limit among them, a program that is still running has been
      answered KILL by two ticking intervals past that limit, whenever its signals come and its events are handled. */
  lemma RealTimeLimitIsKept(limits: Limits, timer: Timer, moves: seq<Move>)
    requires ArmedFor(timer, limits) && Counts(limits.wall)
    ensures timer.Armed? && timer.interval.Ns() == T * 1000
    ensures var s := Exec(Begin(FirstTick(timer)), limits, moves); s.now > limits.wall + 2 * T ==> s.killed
  {
    assert IsLimit(limits, limits.wall);
    ExecIsOnTime(Begin(FirstTick(timer)), limits, moves);
  }

  lemma {:induction false} ExecConcat(s: State, limits: Limits, a: seq<Move>, b: seq<Move>)
    ensures Exec(s, limits, a + b) == Exec(Exec(s, limits, a), limits, b)
    decreases |a|
  {
    if a == [] {
      assert a + b == b;
    } else {
      assert (a + b)[0] == a[0] && (a + b)[1..] == a[1..] + b;
      ExecConcat(Next(s, limits, a[0]), limits, a[1..], b);
    }
  }

  ghost predicate Reaches(first: nat, limits: Limits, s: State) {
    exists moves :: s == Exec(Begin(first), limits, moves)
  }

  lemma Then(first: nat, limits: Limits, s: State, m: Move) returns (t: State)
    requires Reaches(first, limits, s)
    ensures t == Next(s, limits, m) && Reaches(first, limits, t)
  {
    var moves :| s == Exec(Begin(first), limits, moves);
    ExecConcat(Begin(first), limits, moves, [m]);
    t := Next(s, limits, m);
    assert Exec(s, limits, [m]) == Exec(t, limits, []);
  }

  /** A step of the loop in which nothing else is answered and no processor time was used. */
  const IDLE := Go(false, 0, 0)

  /** From the wait, an event and a turn that ends in the window. */
  lemma ToWindow(first: nat, limits: Limits, s: State) returns (t: State)
    requires Reaches(first, limits, s) && s.place.Waiting? && !s.io && !s.alrm
    ensures Reaches(first, limits, t) && t.place.Window? && !t.io && !t.alrm
    ensures t.now == s.now && t.nextTick == s.nextTick && t.killed == s.killed
  {
    t := Then(first, limits, s, Report);
    t := Then(first, limits, t, IDLE);
    t := Then(first, limits, t, IDLE);
    t := Then(first, limits, t, IDLE);
  }

  /** A turn in which the tick is answered, and finds nothing exceeded. */
  lemma ThroughCall(first: nat, limits: Limits, s: State) returns (t: State)
    requires Reaches(first, limits, s) && s.place.IoTest? && !s.io && s.alrm
    requires limits == Limits(limits.wall, 0, 0, 0) && s.now <= limits.wall
    ensures Reaches(first, limits, t) && t.place.Waiting? && !t.io && !t.alrm
    ensures t.now == s.now && t.nextTick == s.nextTick && t.killed == s.killed
  {
    t := Then(first, limits, s, IDLE);
    t := Then(first, limits, t, IDLE);
    t := Then(first, limits, t, IDLE);
    t := Then(first, limits, t, IDLE);
    t := Then(first, limits, t, IDLE);
  }

  /** The bound is reached: the tick at the limit finds it not exceeded yet, and the next one comes in the window. */
  lemma BoundIsReached(limit: Us) returns (s: State)
    requires Counts(limit)
    ensures Reaches(limit, Limits(limit, 0, 0, 0), s) && s.now == limit + 2 * T && !s.killed
  {
    var limits := Limits(limit, 0, 0, 0);
    s := Begin(limit);
    assert s == Exec(s, limits, []);
    s := Then(limit, limits, s, IDLE);
    s := Then(limit, limits, s, IDLE);
    s := Then(limit, limits, s, IDLE);
    s := Then(limit, limits, s, Pass(limit));
    s := Then(limit, limits, s, Tick);
    s := ThroughCall(limit, limits, s);
    s := Then(limit, limits, s, Pass(T));
    s := ToWindow(limit, limits, s);
    s := Then(limit, limits, s, Tick);
    s := Then(limit, limits, s, IDLE);
    s := Then(limit, limits, s, Pass(T));
  }
}
