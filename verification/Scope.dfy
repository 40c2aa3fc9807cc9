/** One cancellable execution scope (`Scope`, `PollLease` and `poll_work` in
    src/execution.rs) raced by its owner, who polls and drops it, by any number of
    cancellers, by the closing registry and by a caller's explicit cancellation.

    Every section under the state lock with at most one access outside it, and every access
    to the token or the closing flag, is one step. */
module Scope {
  import opened Prelude

  datatype Reason = CallerCancelled | CallerDropped | SoftTimeout | HardTimeout | CacheShutdown | LeaseLost | ScopeFinished

  datatype Phase = Pending | Polling(cancellation: Option<Reason>) | Cancelled(reason: Reason) | Completed

  /** How a reason came about: what was asked for, and the step that loaded the token, whose
      reason overrides the one asked for. A poll that ends the scope loads no token. */
  datatype Why = Why(asked: Reason, loadedAt: Option<nat>)

  /** The state under its lock, the request's first recorded reason, and the registry's
      flag; `fix` is the history of the reason the scope is bound to end with. */
  datatype Core = Core(phase: Phase, token: Option<Reason>, closing: bool, fix: Option<Why>)

  /** What the owner gets from a poll that ends the scope. */
  datatype Outcome = Value | Failed(reason: Reason) | Panicked

  datatype CancelPc = Unused | LoadReason(asked: Reason) | LockState(reason: Reason, why: Why) | Publish(reason: Reason)

  /** `Announce` publishes the reason, destroys the work if the poll still owns it, and
      returns; `UnwindClosing` holds the state lock between the two loads of the lease. */
  datatype OwnerPc =
    | Ready
    | Enter | Running | Leave(ready: bool)
    | Unwind | UnwindClosing(loadedAt: nat)
    | Announce(reason: Reason, outcome: Outcome, ownsWork: bool)
    | LoadDropReason | LoadClosing | Dropping(cancel: CancelPc) | Gone
    | Unreachable

  /** `results` are the outcomes returned so far, `lost` a value whose work panicked while
      being destroyed, `steps` the length of the history, and `wonAt` the step in which the
      caller's explicit request ended the token, as its `cancel` then reported. */
  datatype State = State(core: Core, owner: OwnerPc, cancellers: seq<CancelPc>, results: seq<Outcome>, lost: bool,
                         steps: nat, wonAt: Option<nat>)

  datatype OwnerOp = Poll | ReturnReady | ReturnPending | Panic | Drop

  datatype Event = OwnerStep(op: OwnerOp) | CancelStep(c: nat, reason: Reason) | CloseRegistry | CallerCancels

  function Init(cancellers: nat): State {
    State(Core(Pending, None, false, None), Ready, seq(cancellers, _ => Unused), [], false, 0, None)
  }

  /** The first reason recorded wins; `cancel_with` reports whether this one did. */
  function CancelWith(c: Core, reason: Reason): Core { if c.token.None? then c.(token := Some(reason)) else c }

  function OrElse(r: Option<Reason>, other: Reason): Reason { if r.Some? then r.value else other }

  /** `Scope::cancel`: an earlier token reason overrides the requested one, then the state
      is moved or asked, then its recorded reason is published. */
  function Cancels(pc: CancelPc, c: Core, now: nat): (CancelPc, Core) {
    match pc
    case Unused => (Unused, c)
    case LoadReason(asked) => (LockState(OrElse(c.token, asked), Why(asked, Some(now))), c)
    case LockState(reason, why) =>
      (match c.phase
       case Pending => (Publish(reason), c.(phase := Cancelled(reason), fix := Some(why)))
       case Polling(asked) =>
         if asked.Some? then (Publish(asked.value), c)
         else (Publish(reason), c.(phase := Polling(Some(reason)), fix := Some(why)))
       case Cancelled(recorded) => (Publish(recorded), c)
       case Completed => (Publish(ScopeFinished), c))
    case Publish(reason) => (Unused, CancelWith(c, reason))
  }

  /** Every section of `poll_work` and of the poll lease. */
  function Polls(pc: OwnerPc, op: OwnerOp, c: Core, now: nat): (OwnerPc, Core) {
    match pc
    case Enter =>
      (match c.phase
       case Pending => (Running, c.(phase := Polling(None)))
       case Polling(_) => (Unreachable, c)
       case Cancelled(reason) => (Announce(reason, Failed(reason), false), c)
       case Completed => (Announce(ScopeFinished, Panicked, false), c))
    case Running =>
      (match op
       case ReturnReady => (Leave(true), c)
       case ReturnPending => (Leave(false), c)
       case Panic => (Unwind, c)
       case _ => (Running, c))
    case Leave(ready) =>
      if !c.phase.Polling? then (Unreachable, c)
      else if c.phase.cancellation.Some? then
        var reason := c.phase.cancellation.value;
        (Announce(reason, Failed(reason), true), c.(phase := Cancelled(reason)))
      else if c.closing then
        (Announce(CacheShutdown, Failed(CacheShutdown), true), c.(phase := Cancelled(CacheShutdown), fix := Some(Why(CacheShutdown, None))))
      else if ready then
        (Announce(ScopeFinished, Value, true), c.(phase := Completed, fix := Some(Why(ScopeFinished, None))))
      else (Ready, c.(phase := Pending))
    case Unwind =>
      if !c.phase.Polling? then (Unreachable, c)
      else if c.phase.cancellation.Some? then
        (Announce(c.phase.cancellation.value, Panicked, false), c.(phase := Cancelled(c.phase.cancellation.value)))
      else if c.token.Some? then
        (Announce(c.token.value, Panicked, false), c.(phase := Cancelled(c.token.value), fix := Some(Why(CallerDropped, Some(now)))))
      else (UnwindClosing(now), c)
    case UnwindClosing(loadedAt) =>
      if !c.phase.Polling? then (Unreachable, c)
      else
        var reason := DropReason(c.closing);
        (Announce(reason, Panicked, false), c.(phase := Cancelled(reason), fix := Some(Why(reason, Some(loadedAt)))))
    case _ => (pc, c)
  }

  function DropReason(closing: bool): Reason { if closing then CacheShutdown else CallerDropped }

  /** Polling a completed scope again panics without touching the token. */
  predicate WillPublish(pc: OwnerPc, p: Phase) { pc.Announce? && !(pc.outcome.Panicked? && p.Completed?) }

  function OwnerMoves(s: State, op: OwnerOp): State {
    match s.owner
    case Ready =>
      if op.Poll? then s.(owner := Enter) else if op.Drop? then s.(owner := LoadDropReason) else s
    case Announce(reason, outcome, ownsWork) =>
      var unwinds := ownsWork && op.Panic?;
      s.(core := if WillPublish(s.owner, s.core.phase) then CancelWith(s.core, reason) else s.core,
         owner := Ready, results := s.results + [if unwinds then Panicked else outcome],
         lost := s.lost || (unwinds && outcome.Value?))
    case LoadDropReason =>
      s.(owner := if s.core.token.Some? then Dropping(LoadReason(s.core.token.value)) else LoadClosing)
    case LoadClosing => s.(owner := Dropping(LoadReason(DropReason(s.core.closing))))
    case Dropping(pc) =>
      var (pc', core') := Cancels(pc, s.core, s.steps);
      s.(core := core', owner := if pc.Publish? then Gone else Dropping(pc'))
    case Gone => s
    case Unreachable => s
    case _ =>
      var (owner', core') := Polls(s.owner, op, s.core, s.steps);
      s.(core := core', owner := owner')
  }

  function Moves(s: State, e: Event): State {
    match e
    case OwnerStep(op) => OwnerMoves(s, op)
    case CancelStep(c, reason) =>
      if c >= |s.cancellers| then s
      else if s.cancellers[c].Unused? then s.(cancellers := s.cancellers[c := LoadReason(reason)])
      else if s.cancellers[c].LockState? && s.owner.UnwindClosing? then s
      else
        var (pc', core') := Cancels(s.cancellers[c], s.core, s.steps);
        s.(core := core', cancellers := s.cancellers[c := pc'])
    case CloseRegistry => s.(core := s.core.(closing := true))
    case CallerCancels =>
      if s.core.token.None? then s.(core := CancelWith(s.core, CallerCancelled), wonAt := Some(s.steps)) else s
  }

  function Step(s: State, e: Event): State { Moves(s, e).(steps := s.steps + 1) }

  function Run(s: State, schedule: seq<Event>): State
    decreases |schedule|
  {
    if schedule == [] then s else Run(Step(s, schedule[0]), schedule[1..])
  }

  // ---- Terminal states ---------------------------------------------------------------------

  predicate Terminal(p: Phase) { p.Cancelled? || p.Completed? }

  /** The reason a terminal state stands for. */
  function TerminalReason(p: Phase): Reason
    requires Terminal(p)
  {
    if p.Cancelled? then p.reason else ScopeFinished
  }

  lemma StepKeepsTerminal(s: State, e: Event)
    ensures Terminal(s.core.phase) ==> Step(s, e).core.phase == s.core.phase && Step(s, e).core.fix == s.core.fix
    ensures s.core.token.Some? ==> Step(s, e).core.token == s.core.token && Step(s, e).wonAt == s.wonAt
  {
  }

  /** One terminal state, one token reason: once reached they never change, whatever the
      schedule does afterwards. */
  lemma {:induction false} TerminalForever(s: State, schedule: seq<Event>)
    ensures Terminal(s.core.phase) ==> Run(s, schedule).core.phase == s.core.phase && Run(s, schedule).core.fix == s.core.fix
    ensures s.core.token.Some? ==> Run(s, schedule).core.token == s.core.token && Run(s, schedule).wonAt == s.wonAt
    decreases |schedule|
  {
    if schedule != [] {
      StepKeepsTerminal(s, schedule[0]);
      TerminalForever(Step(s, schedule[0]), schedule[1..]);
    }
  }

  // ---- The invariant -------------------------------------------------------------------------

  predicate PollInFlight(pc: OwnerPc) { pc.Running? || pc.Leave? || pc.Unwind? || pc.UnwindClosing? }

  /** The reason is, or is bound to become, the reason of the terminal state. */
  predicate Matches(p: Phase, r: Reason) {
    p == Polling(Some(r)) || (Terminal(p) && TerminalReason(p) == r)
  }

  predicate Explains(p: Phase, o: Outcome) {
    match o
    case Value => p.Completed?
    case Failed(reason) => p == Cancelled(reason)
    case Panicked => Terminal(p)
  }

  /** The lease owns the state while a poll is in flight, and outcomes match the state. */
  predicate OwnerOk(s: State) {
    && !s.owner.Unreachable?
    && (PollInFlight(s.owner) <==> s.core.phase.Polling?)
    && (s.owner.UnwindClosing? ==> s.core.phase == Polling(None))
    && (s.owner.Announce? ==> Explains(s.core.phase, s.owner.outcome) && Matches(s.core.phase, s.owner.reason))
    && (s.owner.Gone? || (s.owner.Dropping? && s.owner.cancel.Publish?) ==> Terminal(s.core.phase))
    && (forall i | 0 <= i < |s.results| :: Explains(s.core.phase, s.results[i]))
  }

  predicate Returning(pc: OwnerPc) { pc.Announce? && pc.outcome.Value? }

  predicate ValuesOk(s: State) {
    && (s.core.phase == Completed <==> Returning(s.owner) || Value in s.results || s.lost)
    && (Returning(s.owner) ==> Value !in s.results && !s.lost)
    && (s.lost ==> Value !in s.results)
    && (forall i, j | 0 <= i < j < |s.results| :: !(s.results[i].Value? && s.results[j].Value?))
  }

  predicate PublishOk(p: Phase, pc: CancelPc) { pc.Publish? ==> Matches(p, pc.reason) }

  /** Every reason on its way to the token matches the state; with no outside winner, so
      does the token itself. */
  predicate TokenOk(s: State) {
    && (forall c | 0 <= c < |s.cancellers| :: PublishOk(s.core.phase, s.cancellers[c]))
    && (s.owner.Dropping? ==> PublishOk(s.core.phase, s.owner.cancel))
    && (s.wonAt.Some? ==> s.core.token == Some(CallerCancelled) && s.wonAt.value < s.steps)
    && (s.wonAt.None? && s.core.token.Some? ==> Matches(s.core.phase, s.core.token.value))
  }

  ghost predicate Announced(s: State) {
    || s.core.token.Some?
    || WillPublish(s.owner, s.core.phase)
    || (s.owner.Dropping? && s.owner.cancel.Publish?)
    || exists c | 0 <= c < |s.cancellers| :: s.cancellers[c].Publish?
  }

  ghost predicate Inv(s: State) {
    OwnerOk(s) && ValuesOk(s) && TokenOk(s) && (Terminal(s.core.phase) ==> Announced(s))
  }

  /** A recorded reason keeps matching until the terminal state adopts it. */
  predicate Evolves(p: Phase, q: Phase) {
    && (forall r | Matches(p, r) :: Matches(q, r))
    && (Terminal(p) ==> q == p)
  }

  lemma CancelsEvolves(pc: CancelPc, c: Core, now: nat)
    requires PublishOk(c.phase, pc)
    ensures var (pc', c') := Cancels(pc, c, now);
      && Evolves(c.phase, c'.phase) && PublishOk(c'.phase, pc') && c'.closing == c.closing
      && (c'.phase.Polling? <==> c.phase.Polling?)
      && (c'.phase.Completed? <==> c.phase.Completed?)
      && (Terminal(c'.phase) && !Terminal(c.phase) ==> pc'.Publish?)
      && (c'.token == c.token || (pc.Publish? && c'.token == Some(pc.reason)))
      && (pc.Publish? ==> c'.token.Some?)
      && (!pc.LockState? ==> c'.phase == c.phase)
  {
  }

  lemma CancelStepKeeps(s: State, c: nat, reason: Reason)
    requires Inv(s) && c < |s.cancellers|
    ensures Inv(Step(s, CancelStep(c, reason)))
  {
    var s' := Step(s, CancelStep(c, reason));
    var pc := s.cancellers[c];
    assert PublishOk(s.core.phase, pc);
    if !pc.Unused? {
      CancelsEvolves(pc, s.core, s.steps);
    }
    forall d | 0 <= d < |s'.cancellers| ensures PublishOk(s'.core.phase, s'.cancellers[d]) {
      assert PublishOk(s.core.phase, s.cancellers[d]);
    }
    AnnouncedByCanceller(s, s', c);
  }

  lemma AnnouncedByCanceller(s: State, s': State, c: nat)
    requires c < |s.cancellers| == |s'.cancellers| && s'.cancellers == s.cancellers[c := s'.cancellers[c]]
    requires s'.owner == s.owner && (s.core.token.Some? ==> s'.core.token.Some?)
    requires s.cancellers[c].Publish? ==> s'.core.token.Some?
    requires Terminal(s.core.phase) ==> Announced(s) && s'.core.phase == s.core.phase
    requires Terminal(s'.core.phase) && !Terminal(s.core.phase) ==> s'.cancellers[c].Publish?
    ensures Terminal(s'.core.phase) ==> Announced(s')
  {
    if Terminal(s.core.phase) {
      if d :| 0 <= d < |s.cancellers| && s.cancellers[d].Publish? {
        assert d == c || s'.cancellers[d].Publish?;
      }
    } else if Terminal(s'.core.phase) {
      assert s'.cancellers[c].Publish?;
    }
  }

  lemma PollsEvolves(pc: OwnerPc, op: OwnerOp, c: Core, now: nat)
    requires pc.Enter? || PollInFlight(pc)
    requires PollInFlight(pc) <==> c.phase.Polling?
    requires pc.UnwindClosing? ==> c.phase == Polling(None)
    ensures var (pc', c') := Polls(pc, op, c, now);
      && Evolves(c.phase, c'.phase) && !pc'.Unreachable?
      && c'.token == c.token
      && (PollInFlight(pc') <==> c'.phase.Polling?)
      && (pc'.UnwindClosing? ==> c'.phase == Polling(None))
      && (pc'.Announce? ==> Explains(c'.phase, pc'.outcome) && Matches(c'.phase, pc'.reason))
      && (Terminal(c'.phase) && !Terminal(c.phase) ==> WillPublish(pc', c'.phase))
      && (c'.phase.Completed? && !c.phase.Completed? <==> Returning(pc'))
  {
  }

  /** What the rest of the invariant needs of a step of the owner. */
  predicate OwnerFrame(s: State, s': State) {
    && s'.cancellers == s.cancellers && s'.wonAt == s.wonAt && s'.steps >= s.steps
    && Evolves(s.core.phase, s'.core.phase)
    && (s.core.token.Some? ==> s'.core.token == s.core.token)
    && (s'.core.token.Some? && s.core.token.None? ==> Matches(s'.core.phase, s'.core.token.value))
    && (s'.owner.Dropping? ==> PublishOk(s'.core.phase, s'.owner.cancel))
  }

  predicate OwnerPublishes(s: State) {
    WillPublish(s.owner, s.core.phase) || (s.owner.Dropping? && s.owner.cancel.Publish?)
  }

  lemma OwnerFrameKeeps(s: State, s': State)
    requires TokenOk(s) && OwnerFrame(s, s')
    requires Terminal(s.core.phase) ==> Announced(s)
    requires Terminal(s'.core.phase) && !Terminal(s.core.phase) ==> OwnerPublishes(s')
    requires OwnerPublishes(s) ==> OwnerPublishes(s') || s'.core.token.Some?
    ensures TokenOk(s') && (Terminal(s'.core.phase) ==> Announced(s'))
  {
    forall d | 0 <= d < |s'.cancellers| ensures PublishOk(s'.core.phase, s'.cancellers[d]) {
      assert PublishOk(s.core.phase, s.cancellers[d]);
    }
  }

  lemma PollStepKeeps(s: State, op: OwnerOp)
    requires Inv(s) && (s.owner.Enter? || PollInFlight(s.owner))
    ensures Inv(Step(s, OwnerStep(op)))
  {
    var s' := Step(s, OwnerStep(op));
    PollsEvolves(s.owner, op, s.core, s.steps);
    OwnerFrameKeeps(s, s');
    forall i | 0 <= i < |s.results| ensures Explains(s'.core.phase, s'.results[i]) {
      assert Explains(s.core.phase, s.results[i]);
    }
  }

  lemma AnnounceStepKeeps(s: State, op: OwnerOp)
    requires Inv(s) && s.owner.Announce?
    ensures Inv(Step(s, OwnerStep(op)))
  {
    var s' := Step(s, OwnerStep(op));
    OwnerFrameKeeps(s, s');
    forall i | 0 <= i < |s'.results| ensures Explains(s'.core.phase, s'.results[i]) {
      assert i < |s.results| ==> Explains(s.core.phase, s.results[i]);
    }
    assert Value in s'.results <==> Value in s.results || s'.results[|s.results|].Value?;
  }

  lemma DropStepKeeps(s: State, op: OwnerOp)
    requires Inv(s) && s.owner.Dropping?
    ensures Inv(Step(s, OwnerStep(op)))
  {
    var s' := Step(s, OwnerStep(op));
    CancelsEvolves(s.owner.cancel, s.core, s.steps);
    OwnerFrameKeeps(s, s');
    forall i | 0 <= i < |s.results| ensures Explains(s'.core.phase, s'.results[i]) {
      assert Explains(s.core.phase, s.results[i]);
    }
  }

  lemma OwnerStepKeeps(s: State, op: OwnerOp)
    requires Inv(s)
    ensures Inv(Step(s, OwnerStep(op)))
  {
    if s.owner.Enter? || PollInFlight(s.owner) {
      PollStepKeeps(s, op);
    } else if s.owner.Announce? {
      AnnounceStepKeeps(s, op);
    } else if s.owner.Dropping? {
      DropStepKeeps(s, op);
    } else {
      OwnerFrameKeeps(s, Step(s, OwnerStep(op)));
    }
  }

  lemma StepKeeps(s: State, e: Event)
    requires Inv(s)
    ensures Inv(Step(s, e))
  {
    match e
    case OwnerStep(op) => OwnerStepKeeps(s, op);
    case CancelStep(c, reason) =>
      if c < |s.cancellers| {
        CancelStepKeeps(s, c, reason);
      }
    case CloseRegistry =>
    case CallerCancels =>
  }

  lemma {:induction false} RunKeeps(s: State, schedule: seq<Event>)
    requires Inv(s)
    ensures Inv(Run(s, schedule))
    decreases |schedule|
  {
    if schedule != [] {
      StepKeeps(s, schedule[0]);
      RunKeeps(Step(s, schedule[0]), schedule[1..]);
    }
  }

  // ---- Where reasons come from -------------------------------------------------------------------

  predicate LoadedAfter(why: Why, win: nat) { why.loadedAt.Some? && why.loadedAt.value > win }

  /** Before the token is ended, reasons are what was asked for; after a caller's win, they
      are the caller's exactly if the token was loaded after the win. */
  predicate WhyOk(s: State, r: Reason, why: Why) {
    && (why.loadedAt.Some? ==> why.loadedAt.value < s.steps)
    && (s.core.token.None? ==> r == why.asked)
    && (s.wonAt.Some? ==> r == if LoadedAfter(why, s.wonAt.value) then CallerCancelled else why.asked)
  }

  predicate PcOk(s: State, pc: CancelPc) { pc.LockState? ==> WhyOk(s, pc.reason, pc.why) }

  /** The reason the state is bound to end with, and its history. */
  predicate FixOk(s: State) {
    match s.core.phase
    case Pending => s.core.fix.None?
    case Polling(r) => (r.Some? <==> s.core.fix.Some?) && (r.Some? ==> WhyOk(s, r.value, s.core.fix.value))
    case _ => s.core.fix.Some? && WhyOk(s, TerminalReason(s.core.phase), s.core.fix.value)
  }

  predicate Provenance(s: State) {
    && FixOk(s)
    && (forall c | 0 <= c < |s.cancellers| :: PcOk(s, s.cancellers[c]))
    && (s.owner.Dropping? ==> PcOk(s, s.owner.cancel))
    && (s.owner.UnwindClosing? ==> s.owner.loadedAt < s.steps && (s.wonAt.Some? ==> s.owner.loadedAt < s.wonAt.value))
  }

  /** Once a reason has its history, only a win can add to it. */
  lemma WhyKeeps(s: State, s': State, r: Reason, why: Why)
    requires WhyOk(s, r, why) && s'.steps == s.steps + 1
    requires s.core.token.Some? ==> s'.core.token.Some?
    requires s'.wonAt == s.wonAt || (s.core.token.None? && s'.wonAt == Some(s.steps))
    ensures WhyOk(s', r, why)
  {
  }

  lemma CancelsProvenance(s: State, s': State, pc: CancelPc)
    requires TokenOk(s) && FixOk(s) && PcOk(s, pc)
    requires s'.steps == s.steps + 1 && s'.wonAt == s.wonAt && s'.core == Cancels(pc, s.core, s.steps).1
    ensures FixOk(s') && PcOk(s', Cancels(pc, s.core, s.steps).0)
  {
    if s.core.fix.Some? {
      var r := if s.core.phase.Polling? then s.core.phase.cancellation.value else TerminalReason(s.core.phase);
      WhyKeeps(s, s', r, s.core.fix.value);
    }
    if pc.LockState? {
      WhyKeeps(s, s', pc.reason, pc.why);
    }
  }

  lemma OthersProvenance(s: State, s': State)
    requires Provenance(s) && s'.steps == s.steps + 1 && (s.core.token.Some? ==> s'.core.token.Some?)
    requires s'.wonAt == s.wonAt || (s.core.token.None? && s'.wonAt == Some(s.steps))
    ensures forall c | 0 <= c < |s.cancellers| :: PcOk(s', s.cancellers[c])
    ensures s.owner.Dropping? ==> PcOk(s', s.owner.cancel)
  {
    forall c | 0 <= c < |s.cancellers| ensures PcOk(s', s.cancellers[c]) {
      assert PcOk(s, s.cancellers[c]);
      if s.cancellers[c].LockState? {
        WhyKeeps(s, s', s.cancellers[c].reason, s.cancellers[c].why);
      }
    }
  }

  lemma PollsProvenance(s: State, op: OwnerOp)
    requires Inv(s) && Provenance(s) && (s.owner.Enter? || PollInFlight(s.owner))
    ensures Provenance(Step(s, OwnerStep(op)))
  {
    var s' := Step(s, OwnerStep(op));
    OthersProvenance(s, s');
    if s.core.fix.Some? {
      var r := if s.core.phase.Polling? then s.core.phase.cancellation.value else TerminalReason(s.core.phase);
      WhyKeeps(s, s', r, s.core.fix.value);
    }
  }

  /** A step that fixes nothing. */
  lemma UnfixedProvenance(s: State, s': State)
    requires Provenance(s) && s'.steps == s.steps + 1 && (s.core.token.Some? ==> s'.core.token.Some?)
    requires s'.wonAt == s.wonAt || (s.core.token.None? && s'.wonAt == Some(s.steps))
    requires s'.core.phase == s.core.phase && s'.core.fix == s.core.fix
    ensures FixOk(s')
  {
    if s.core.fix.Some? {
      var r := if s.core.phase.Polling? then s.core.phase.cancellation.value else TerminalReason(s.core.phase);
      WhyKeeps(s, s', r, s.core.fix.value);
    }
  }

  lemma CancelStepProvenance(s: State, c: nat, reason: Reason)
    requires Inv(s) && Provenance(s) && c < |s.cancellers|
    ensures Provenance(Step(s, CancelStep(c, reason)))
  {
    var s' := Step(s, CancelStep(c, reason));
    OthersProvenance(s, s');
    if s.cancellers[c].Unused? || (s.cancellers[c].LockState? && s.owner.UnwindClosing?) {
      UnfixedProvenance(s, s');
    } else {
      assert PcOk(s, s.cancellers[c]);
      CancelsProvenance(s, s', s.cancellers[c]);
    }
  }

  lemma OwnerStepProvenance(s: State, op: OwnerOp)
    requires Inv(s) && Provenance(s)
    ensures Provenance(Step(s, OwnerStep(op)))
  {
    var s' := Step(s, OwnerStep(op));
    if s.owner.Enter? || PollInFlight(s.owner) {
      PollsProvenance(s, op);
    } else {
      OthersProvenance(s, s');
      if s.owner.Dropping? {
        CancelsProvenance(s, s', s.owner.cancel);
      } else {
        UnfixedProvenance(s, s');
      }
    }
  }

  lemma StepProvenance(s: State, e: Event)
    requires Inv(s) && Provenance(s)
    ensures Provenance(Step(s, e))
  {
    match e
    case OwnerStep(op) => OwnerStepProvenance(s, op);
    case CancelStep(c, reason) =>
      if c < |s.cancellers| {
        CancelStepProvenance(s, c, reason);
      } else {
        OthersProvenance(s, Step(s, e));
        UnfixedProvenance(s, Step(s, e));
      }
    case _ =>
      OthersProvenance(s, Step(s, e));
      UnfixedProvenance(s, Step(s, e));
  }

  lemma {:induction false} RunProvenance(s: State, schedule: seq<Event>)
    requires Inv(s) && Provenance(s)
    ensures Inv(Run(s, schedule)) && Provenance(Run(s, schedule))
    decreases |schedule|
  {
    if schedule != [] {
      StepKeeps(s, schedule[0]);
      StepProvenance(s, schedule[0]);
      RunProvenance(Step(s, schedule[0]), schedule[1..]);
    }
  }

  // ---- Main results ----------------------------------------------------------------------------

  /** A value is returned at most once and only from Completed, an error carries exactly
      the reason of the terminal state, and no unreachable branch is taken, also when user
      work panics while it is polled or destroyed. */
  lemma OutcomesMatchState(cancellers: nat, schedule: seq<Event>)
    ensures var s := Run(Init(cancellers), schedule);
      && !s.owner.Unreachable?
      && (forall i | 0 <= i < |s.results| :: Explains(s.core.phase, s.results[i]))
      && (forall i, j | 0 <= i < j < |s.results| :: !(s.results[i].Value? && s.results[j].Value?))
  {
    RunKeeps(Init(cancellers), schedule);
  }

  /** A completed scope delivers its value: it was returned, or the owner is returning it,
      unless the finished work panicked while it was destroyed. */
  lemma CompletedDelivers(cancellers: nat, schedule: seq<Event>)
    ensures var s := Run(Init(cancellers), schedule);
      s.core.phase.Completed? <==> Value in s.results || Returning(s.owner) || s.lost
  {
    RunKeeps(Init(cancellers), schedule);
  }

  /** In a terminal state the token carries the terminal reason exactly when the caller's
      explicit request did not end it first, or the reason was fixed by an operation that
      loaded the token after that request won, or that was asked to cancel for the caller.
      All of this is settled by the order of the schedule's steps. */
  lemma TokenAgrees(cancellers: nat, schedule: seq<Event>)
    ensures var s := Run(Init(cancellers), schedule);
      Terminal(s.core.phase) && s.core.token.Some? ==>
        && s.core.fix.Some?
        && (s.core.token.value == TerminalReason(s.core.phase)
            <==> s.wonAt.None? || LoadedAfter(s.core.fix.value, s.wonAt.value) || s.core.fix.value.asked == CallerCancelled)
  {
    RunProvenance(Init(cancellers), schedule);
  }

  /** The winning step is the caller's request at that position of the schedule. */
  lemma {:induction false} WinIsScheduled(s: State, schedule: seq<Event>)
    requires s.wonAt.None? && Run(s, schedule).wonAt.Some?
    ensures var at := Run(s, schedule).wonAt.value;
      s.steps <= at < s.steps + |schedule| && schedule[at - s.steps] == CallerCancels
    decreases |schedule|
  {
    var next := Step(s, schedule[0]);
    if next.wonAt.Some? {
      WonStays(next, schedule[1..]);
    } else {
      WinIsScheduled(next, schedule[1..]);
    }
  }

  lemma {:induction false} WonStays(s: State, schedule: seq<Event>)
    requires s.wonAt.Some? && s.core.token.Some?
    ensures Run(s, schedule).wonAt == s.wonAt
    decreases |schedule|
  {
    if schedule != [] {
      WonStays(Step(s, schedule[0]), schedule[1..]);
    }
  }

  /** A token that only its own scope cancels never carries a reason the scope does not
      end with: it is the terminal reason, or one the poll in flight is bound to adopt. */
  lemma OwnTokenMatches(cancellers: nat, schedule: seq<Event>)
    requires CallerCancels !in schedule
    ensures var s := Run(Init(cancellers), schedule);
      s.core.token.Some? ==> Matches(s.core.phase, s.core.token.value)
  {
    RunKeeps(Init(cancellers), schedule);
    var s := Run(Init(cancellers), schedule);
    if s.wonAt.Some? {
      WinIsScheduled(Init(cancellers), schedule);
      assert false;
    }
  }

  predicate Quiet(s: State) {
    (s.owner.Ready? || s.owner.Gone?) && forall c | 0 <= c < |s.cancellers| :: s.cancellers[c].Unused?
  }

  /** A dropped scope is terminal, and once nobody is in the middle of an operation a
      terminal scope has ended its token. */
  lemma QuietIsAnnounced(cancellers: nat, schedule: seq<Event>)
    ensures var s := Run(Init(cancellers), schedule);
      (s.owner.Gone? ==> Terminal(s.core.phase)) && (Quiet(s) && Terminal(s.core.phase) ==> s.core.token.Some?)
  {
    RunKeeps(Init(cancellers), schedule);
  }

  /** The token can differ: a canceller reads an active token, the caller's request wins it,
      and the scope ends with the canceller's own reason. */
  lemma CallerCanWinTheToken()
    ensures exists schedule: seq<Event> ::
              var s := Run(Init(1), schedule);
              s.core.phase == Cancelled(SoftTimeout) && s.core.token == Some(CallerCancelled)
  {
    var step := CancelStep(0, SoftTimeout);
    var s0 := Init(1);
    var s1 := Step(s0, step);
    var s2 := Step(s1, step);
    var s3 := Step(s2, CallerCancels);
    var s4 := Step(s3, step);
    assert s4.core.phase == Cancelled(SoftTimeout) && s4.core.token == Some(CallerCancelled);
    RunOne(s3, step, []);
    RunOne(s2, CallerCancels, [step]);
    RunOne(s1, step, [CallerCancels, step]);
    RunOne(s0, step, [step, CallerCancels, step]);
    assert Run(s0, [step] + [step, CallerCancels, step]) == s4;
  }

  lemma RunOne(s: State, e: Event, rest: seq<Event>)
    ensures Run(s, [e] + rest) == Run(Step(s, e), rest)
    ensures [e] + [] == [e]
  {
    assert ([e] + rest)[1..] == rest;
  }
}
