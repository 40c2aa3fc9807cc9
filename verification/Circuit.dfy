/** The lock-free circuit breaker (src/circuit.rs): one atomic tick changed by a
    compare-exchange loop, a fetch-max and a swap. Every atomic access is one step. */
module Circuit {
  import opened Prelude
  import opened Time

  const CLOSED: Ticks := MIN_TICKS

  datatype Pc =
    | Idle
    | CheckLoad(now: Ticks) | CheckExchange(now: Ticks, seen: Ticks)
    | TripMax(now: Ticks)
    | CloseLoad | CloseSwap

  /** What a call reported: the events its caller publishes, or the admission it got. */
  datatype Report = Opened | ClosedNow | Admitted | Blocked(until: Ticks)

  /** `enabled` is a nonzero open duration and `openTicks` its length in whole ticks. */
  datatype State = State(enabled: bool, openTicks: nat, reopenAt: Ticks, threads: seq<Pc>, log: seq<Report>)

  datatype Op = Continue | Check(now: Ticks) | Trip(now: Ticks) | Close

  function Init(enabled: bool, openTicks: nat, threads: nat): State {
    State(enabled, openTicks, CLOSED, seq(threads, _ => Idle), [])
  }

  /** The thread's next counter, the tick, and what it reports. */
  function Act(pc: Pc, op: Op, enabled: bool, openTicks: nat, at: Ticks): (Pc, Ticks, Option<Report>) {
    match pc
    case Idle =>
      (match op
       case Check(now) => if enabled then (CheckLoad(now), at, None) else (Idle, at, Some(Admitted))
       case Trip(now) => if enabled then (TripMax(now), at, None) else (Idle, at, None)
       case Close => (CloseLoad, at, None)
       case Continue => (Idle, at, None))
    case CheckLoad(now) =>
      if at == CLOSED then (Idle, at, Some(Admitted))
      else if now < at then (Idle, at, Some(Blocked(at)))
      else (CheckExchange(now, at), at, None)
    case CheckExchange(now, seen) =>
      if at == seen then (Idle, CLOSED, Some(ClosedNow)) else (CheckLoad(now), at, None)
    case TripMax(now) =>
      var until := if Plus(now, openTicks) > Plus(now, 1) then Plus(now, openTicks) else Plus(now, 1);
      (Idle, if until > at then until else at, if at == CLOSED then Some(Opened) else None)
    case CloseLoad => if at == CLOSED then (Idle, at, None) else (CloseSwap, at, None)
    case CloseSwap => (Idle, CLOSED, if at != CLOSED then Some(ClosedNow) else None)
  }

  function Step(s: State, t: nat, op: Op): State {
    if t >= |s.threads| then s
    else
      var (pc, at, report) := Act(s.threads[t], op, s.enabled, s.openTicks, s.reopenAt);
      s.(threads := s.threads[t := pc], reopenAt := at, log := if report.Some? then s.log + [report.value] else s.log)
  }

  function Run(s: State, schedule: seq<(nat, Op)>): State
    decreases |schedule|
  {
    if schedule == [] then s else Run(Step(s, schedule[0].0, schedule[0].1), schedule[1..])
  }

  // ---- Transitions alternate ---------------------------------------------------------------

  predicate Transition(r: Report) { r.Opened? || r.ClosedNow? }

  /** The reported transitions, in order. */
  function Transitions(log: seq<Report>): seq<Report> {
    if log == [] then []
    else
      var init := Transitions(log[..|log| - 1]);
      if Transition(log[|log| - 1]) then init + [log[|log| - 1]] else init
  }

  predicate Alternates(ts: seq<Report>) {
    forall i | 0 <= i < |ts| :: ts[i] == if i % 2 == 0 then Opened else ClosedNow
  }

  /** The breaker is open exactly when the number of reported transitions is odd. */
  predicate Inv(s: State) {
    && Alternates(Transitions(s.log))
    && (s.reopenAt != CLOSED <==> |Transitions(s.log)| % 2 == 1)
    && (forall t | 0 <= t < |s.threads| :: Remembers(s.threads[t]))
  }

  predicate Remembers(pc: Pc) { pc.CheckExchange? ==> pc.seen != CLOSED }

  /** A reported transition is the one the tick made; an unreported step makes none. */
  lemma ReportsAreTransitions(pc: Pc, op: Op, enabled: bool, openTicks: nat, at: Ticks)
    requires Remembers(pc)
    ensures var (pc', at', report) := Act(pc, op, enabled, openTicks, at);
      && Remembers(pc')
      && (report == Some(Opened) ==> at == CLOSED && at' != CLOSED)
      && (report == Some(ClosedNow) ==> at != CLOSED && at' == CLOSED)
      && (report.None? || !Transition(report.value) ==> (at == CLOSED <==> at' == CLOSED))
  {
  }

  lemma Appends(log: seq<Report>, r: Report)
    ensures Transitions(log + [r]) == if Transition(r) then Transitions(log) + [r] else Transitions(log)
  {
    assert (log + [r])[..|log|] == log;
  }

  /** A transition report moves both the list and the state, any other report neither. */
  lemma ReportKeeps(log: seq<Report>, at: Ticks, at': Ticks, report: Option<Report>)
    requires Alternates(Transitions(log)) && (at != CLOSED <==> |Transitions(log)| % 2 == 1)
    requires report == Some(Opened) ==> at == CLOSED && at' != CLOSED
    requires report == Some(ClosedNow) ==> at != CLOSED && at' == CLOSED
    requires report.None? || !Transition(report.value) ==> (at == CLOSED <==> at' == CLOSED)
    ensures var log' := if report.Some? then log + [report.value] else log;
      Alternates(Transitions(log')) && (at' != CLOSED <==> |Transitions(log')| % 2 == 1)
  {
    if report.Some? {
      Appends(log, report.value);
    }
  }

  lemma StepKeeps(s: State, t: nat, op: Op)
    requires Inv(s)
    ensures Inv(Step(s, t, op))
  {
    if t < |s.threads| {
      assert Remembers(s.threads[t]);
      ReportsAreTransitions(s.threads[t], op, s.enabled, s.openTicks, s.reopenAt);
      var (_, at, report) := Act(s.threads[t], op, s.enabled, s.openTicks, s.reopenAt);
      ReportKeeps(s.log, s.reopenAt, at, report);
    }
  }

  lemma {:induction false} RunKeeps(s: State, schedule: seq<(nat, Op)>)
    requires Inv(s)
    ensures Inv(Run(s, schedule))
    decreases |schedule|
  {
    if schedule != [] {
      StepKeeps(s, schedule[0].0, schedule[0].1);
      RunKeeps(Step(s, schedule[0].0, schedule[0].1), schedule[1..]);
    }
  }

  /** In every interleaving the reported transitions strictly alternate, starting with an
      opening, and the breaker is open exactly while the last one is an opening. */
  lemma TransitionsAlternate(enabled: bool, openTicks: nat, threads: nat, schedule: seq<(nat, Op)>)
    ensures var s := Run(Init(enabled, openTicks, threads), schedule);
      && Alternates(Transitions(s.log))
      && (s.reopenAt != CLOSED <==> |Transitions(s.log)| % 2 == 1)
  {
    RunKeeps(Init(enabled, openTicks, threads), schedule);
  }

  // ---- The open window never shrinks ----------------------------------------------------------

  lemma StepNeverShrinks(s: State, t: nat, op: Op)
    ensures var s' := Step(s, t, op);
      && (s'.reopenAt >= s.reopenAt || s'.reopenAt == CLOSED)
      && s.log <= s'.log
      && (s'.reopenAt < s.reopenAt ==> |Transitions(s'.log)| > |Transitions(s.log)|)
      && |Transitions(s'.log)| >= |Transitions(s.log)|
  {
    if t < |s.threads| {
      var report := Act(s.threads[t], op, s.enabled, s.openTicks, s.reopenAt).2;
      if report.Some? {
        Appends(s.log, report.value);
      }
    }
  }

  /** While no transition is reported the reopen tick never decreases: older failures
      cannot shorten a newer window, also at the saturating bounds of the clock. */
  lemma {:induction false} WindowNeverShrinks(s: State, schedule: seq<(nat, Op)>)
    ensures var s' := Run(s, schedule);
      && |Transitions(s'.log)| >= |Transitions(s.log)|
      && (|Transitions(s'.log)| == |Transitions(s.log)| ==> s'.reopenAt >= s.reopenAt)
    decreases |schedule|
  {
    if schedule != [] {
      StepNeverShrinks(s, schedule[0].0, schedule[0].1);
      WindowNeverShrinks(Step(s, schedule[0].0, schedule[0].1), schedule[1..]);
    }
  }

  /** A trip leaves an enabled breaker open past its own failure, except at the very end of
      the clock, where no later tick exists. */
  lemma TripBlocksLaterThan(openTicks: nat, at: Ticks, now: Ticks)
    ensures var (_, until, report) := Act(TripMax(now), Continue, true, openTicks, at);
      && until >= at && until != CLOSED
      && (now < until <==> now < MAX_TICKS)
      && (report == Some(Opened) <==> at == CLOSED)
  {
  }

  /** What a trip does to the window: before the last tick, the breaker is open until its
      whole open duration has passed, at least past the failure itself, and never shorter
      than before. */
  lemma TripOpensFor(openTicks: nat, at: Ticks, now: Ticks, x: Ticks)
    requires x < MAX_TICKS
    ensures var (_, until, _) := Act(TripMax(now), Continue, true, openTicks, at);
      x < until <==> x < at || x < now + openTicks || x <= now
  {
  }

  /** A lone check answers exactly by the window: admitted when closed, blocked until the
      reopen tick before it, and otherwise it makes the one transition that closes. */
  lemma CheckAlone(s: State, t: nat, now: Ticks)
    requires t < |s.threads| && s.threads[t].Idle? && s.enabled
    ensures var r := Run(s, [(t, Check(now)), (t, Continue), (t, Continue)]);
      if s.reopenAt == CLOSED then r.log == s.log + [Admitted] && r.reopenAt == CLOSED
      else if now < s.reopenAt then r.log == s.log + [Blocked(s.reopenAt)] && r.reopenAt == s.reopenAt
      else r.log == s.log + [ClosedNow] && r.reopenAt == CLOSED
  {
    RunThree(s, (t, Check(now)), (t, Continue), (t, Continue));
  }

  /** A lone trip opens a closed breaker and reports it once; a lone close closes an open one. */
  lemma TripAndCloseAlone(s: State, t: nat, now: Ticks)
    requires t < |s.threads| && s.threads[t].Idle? && s.enabled
    ensures var r := Run(s, [(t, Trip(now)), (t, Continue), (t, Continue)]);
      r.reopenAt != CLOSED && r.log == if s.reopenAt == CLOSED then s.log + [Opened] else s.log
    ensures var r := Run(s, [(t, Close), (t, Continue), (t, Continue)]);
      r.reopenAt == CLOSED && r.log == if s.reopenAt == CLOSED then s.log else s.log + [ClosedNow]
  {
    RunThree(s, (t, Trip(now)), (t, Continue), (t, Continue));
    RunThree(s, (t, Close), (t, Continue), (t, Continue));
  }

  lemma RunThree(s: State, a: (nat, Op), b: (nat, Op), c: (nat, Op))
    ensures Run(s, [a, b, c]) == Step(Step(Step(s, a.0, a.1), b.0, b.1), c.0, c.1)
  {
    assert [a, b, c][1..] == [b, c] && [b, c][1..] == [c] && [c][1..] == [];
    var s1 := Step(s, a.0, a.1);
    var s2 := Step(s1, b.0, b.1);
    assert Run(s2, [c]) == Run(Step(s2, c.0, c.1), []);
    assert Run(s1, [b, c]) == Run(s2, [c]);
  }

  /** A disabled breaker never leaves its closed state nor reports a transition. */
  predicate Inert(s: State) {
    && !s.enabled && s.reopenAt == CLOSED && Transitions(s.log) == []
    && (forall t | 0 <= t < |s.threads| :: s.threads[t].Idle? || s.threads[t].CloseLoad?)
  }

  lemma {:induction false} DisabledStaysClosed(s: State, schedule: seq<(nat, Op)>)
    requires Inert(s)
    ensures Inert(Run(s, schedule))
    decreases |schedule|
  {
    if schedule != [] {
      var (t, op) := schedule[0];
      if t < |s.threads| {
        assert s.threads[t].Idle? || s.threads[t].CloseLoad?;
        Appends(s.log, Admitted);
      }
      DisabledStaysClosed(Step(s, t, op), schedule[1..]);
    }
  }
}
