/** Striped activity counts with close and drain (`Scopes` in src/execution.rs) as an
    interleaving of atomic steps.

    Thread `t` has the process-wide stripe owner identity `t + 1`. It holds thread-bound
    activities, counted by plain stores in the stripe it owns or by atomic additions in a
    stripe it collides on; owned permits are transferable, so any thread may drop them.
    Suspended work holds a task token, taken under an activity; scopes give it back under one
    too, other owners may not. */
module Activity {
  import opened Prelude

  const WRAPPED: nat := 0xFFFF_FFFF_FFFF_FFFF

  /** Live guards of one kind. A guard is early when it was published before `close`, or
      when its holder gave back the token of work that was registered before `close`. An
      admitted guard is early at once: its admission found the registry open. */
  datatype Guards = Guards(plain: nat, early: nat)

  function Total(g: Guards): nat { g.plain + g.early }

  function Add(g: Guards, early: bool): Guards {
    if early then g.(early := g.early + 1) else g.(plain := g.plain + 1)
  }

  predicate Has(g: Guards, early: bool) { if early then g.early > 0 else g.plain > 0 }

  function Remove(g: Guards, early: bool): Guards {
    if !Has(g, early) then g
    else if early then g.(early := g.early - 1) else g.(plain := g.plain - 1)
  }

  /** A plain guard, if there is one, becomes early. */
  function Promote(g: Guards): Guards { if g.plain == 0 then g else Guards(g.plain - 1, g.early + 1) }

  function Aged(g: Guards): Guards { Guards(0, Total(g)) }

  /** `owned` keeps track of the live owned permits of the stripe. */
  datatype Stripe = Stripe(owner: nat, local: nat, shared: nat, owned: Guards)

  /** Program counters: the name says which shared access comes next. */
  datatype Pc =
    | Idle
    // reserve_activity
    | LoadOwner | ClaimOwner | LoadLocal | StoreLocal(count: nat) | AddShared
    // dropping a local activity
    | DropLoad(early: bool) | DropStore(count: nat, early: bool)
    // the last activity of a stripe is gone
    | CheckClosed | Notify

  datatype Thread = Thread(home: nat, pc: Pc, local: Guards, shared: Guards)

  datatype DrainPc = Off | Enable | Scan(second: bool, i: nat, shared: bool) | CheckTasks | Recheck | Parked(select: bool) | Done

  /** A caller of `drained`: `notified` is its subscription to `changed`; `stranded` records
      that, since it subscribed, a token given back outside any activity emptied the task
      tracker between its failed check and its decision what to wait for. */
  datatype Drainer = Drainer(pc: DrainPc, notified: bool, stranded: bool)

  datatype State = State(stripes: seq<Stripe>, closing: bool, tasks: Guards, threads: seq<Thread>, drainers: seq<Drainer>)

  /** What an idle thread decides to do next; `Continue` runs its pending operation. */
  datatype Op =
    | Continue | Close
    | Reserve | ReserveOwned
    | Admit(shared: bool) | AdmitOwned(position: nat)
    | DropLocal(early: bool) | DropShared(early: bool) | DropOwned(position: nat, early: bool)
    | Register | Retire(early: bool, shared: bool) | RetireBare(early: bool)

  datatype Event = ThreadStep(t: nat, op: Op) | DrainStep(d: nat)

  function Init(stripeCount: nat, threadCount: nat, drainerCount: nat): State
    requires stripeCount > 0
  {
    State(seq(stripeCount, _ => Stripe(0, 0, 0, Guards(0, 0))), false, Guards(0, 0),
          seq(threadCount, t requires t >= 0 => Thread((t + 1) % stripeCount, Idle, Guards(0, 0), Guards(0, 0))),
          seq(drainerCount, _ => Drainer(Off, false, false)))
  }

  // ---- Threads ---------------------------------------------------------------------------

  /** The pending access of a thread, on its own stripe. */
  function Continues(t: nat, th: Thread, st: Stripe, closing: bool): (Thread, Stripe) {
    match th.pc
    case Idle => (th, st)
    case LoadOwner =>
      (th.(pc := if st.owner == t + 1 then LoadLocal else if st.owner == 0 then ClaimOwner else AddShared), st)
    case ClaimOwner =>
      if st.owner == 0 then (th.(pc := LoadLocal), st.(owner := t + 1)) else (th.(pc := AddShared), st)
    case LoadLocal => (th.(pc := StoreLocal(st.local)), st)
    case StoreLocal(count) => (th.(pc := Idle, local := Add(th.local, false)), st.(local := count + 1))
    case AddShared => (th.(pc := Idle, shared := Add(th.shared, false)), st.(shared := st.shared + 1))
    case DropLoad(early) => (th.(pc := DropStore(st.local, early)), st)
    case DropStore(count, early) =>
      (th.(pc := if count == 1 then CheckClosed else Idle, local := Remove(th.local, early)),
       st.(local := Minus(count)))
    case CheckClosed => (th.(pc := if closing then Notify else Idle), st)
    case Notify => (th.(pc := Idle), st)
  }

  function Minus(count: nat): nat { if count == 0 then WRAPPED else count - 1 }

  /** An idle thread's operation on the stripe it targets; ones it has no guard for do nothing. */
  function Starts(th: Thread, st: Stripe, op: Op, closing: bool): (Thread, Stripe) {
    match op
    case Reserve => (th.(pc := LoadOwner), st)
    case ReserveOwned => (th, st.(shared := st.shared + 1, owned := Add(st.owned, false)))
    case Admit(shared) =>
      if closing then (th, st)
      else if shared then (th.(shared := Promote(th.shared)), st)
      else (th.(local := Promote(th.local)), st)
    case AdmitOwned(_) => (th, if closing then st else st.(owned := Promote(st.owned)))
    case DropLocal(early) => (if Has(th.local, early) then th.(pc := DropLoad(early)) else th, st)
    case DropShared(early) =>
      if !Has(th.shared, early) then (th, st)
      else (th.(pc := AfterDrop(st.shared), shared := Remove(th.shared, early)), st.(shared := Minus(st.shared)))
    case DropOwned(_, early) =>
      if !Has(st.owned, early) then (th, st)
      else (th.(pc := AfterDrop(st.shared)), st.(shared := Minus(st.shared), owned := Remove(st.owned, early)))
    case Retire(early, shared) =>
      if !early then (th, st)
      else if shared then (th.(shared := Promote(th.shared)), st)
      else (th.(local := Promote(th.local)), st)
    case _ => (th, st)
  }

  function AfterDrop(count: nat): Pc { if count == 1 then CheckClosed else Idle }

  /** Whether the thread may give back such a task token: only under an activity. */
  predicate Retires(th: Thread, op: Op, tasks: Guards) {
    op.Retire? && Has(tasks, op.early) && Total(if op.shared then th.shared else th.local) > 0
  }

  function Tasks(th: Thread, op: Op, closing: bool, tasks: Guards): Guards {
    if Retires(th, op, tasks) || op.RetireBare? then Remove(tasks, op.early)
    else if op.Register? && Total(th.local) + Total(th.shared) > 0 then Add(tasks, !closing)
    else tasks
  }

  /** The stripe a thread's step works on: its own, except for transferred permits. */
  function Target(s: State, t: nat, op: Op): nat
    requires t < |s.threads|
  {
    if s.threads[t].pc.Idle? && op.DropOwned? then op.position
    else if s.threads[t].pc.Idle? && op.AdmitOwned? then op.position
    else s.threads[t].home
  }

  function NotifyAll(drainers: seq<Drainer>): (r: seq<Drainer>)
    ensures |r| == |drainers| && forall d | 0 <= d < |r| :: r[d] == drainers[d].(notified := true)
  {
    seq(|drainers|, d requires 0 <= d < |drainers| => drainers[d].(notified := true))
  }

  /** A token given back outside any activity, as by a cache-bound request, notifies nobody. */
  function Strand(drainers: seq<Drainer>, tasks: Guards): (r: seq<Drainer>)
    ensures |r| == |drainers|
    ensures forall d | 0 <= d < |r| ::
              r[d] == drainers[d].(stranded := drainers[d].stranded || (Total(tasks) == 0 && drainers[d].pc.Recheck?))
  {
    seq(|drainers|, d requires 0 <= d < |drainers| =>
                      drainers[d].(stranded := drainers[d].stranded || (Total(tasks) == 0 && drainers[d].pc.Recheck?)))
  }

  function AgedThread(th: Thread): Thread {
    th.(local := Aged(th.local), shared := Aged(th.shared),
        pc := match th.pc
          case DropLoad(_) => DropLoad(true)
          case DropStore(count, _) => DropStore(count, true)
          case other => other)
  }

  function AgeAll(threads: seq<Thread>): (r: seq<Thread>)
    ensures |r| == |threads| && forall t | 0 <= t < |r| :: r[t] == AgedThread(threads[t])
  {
    seq(|threads|, t requires 0 <= t < |threads| => AgedThread(threads[t]))
  }

  function AgeOwned(stripes: seq<Stripe>): (r: seq<Stripe>)
    ensures |r| == |stripes| && forall i | 0 <= i < |r| :: r[i] == stripes[i].(owned := Aged(stripes[i].owned))
  {
    seq(|stripes|, i requires 0 <= i < |stripes| => stripes[i].(owned := Aged(stripes[i].owned)))
  }

  /** The first `close` makes every activity and permit published so far early. */
  function Closed(s: State): State {
    if s.closing then s
    else s.(closing := true, threads := AgeAll(s.threads), stripes := AgeOwned(s.stripes))
  }

  function StepThread(s: State, t: nat, op: Op): State
    requires t < |s.threads|
  {
    var th := s.threads[t];
    var k := Target(s, t, op);
    if k >= |s.stripes| then s
    else if !th.pc.Idle? then
      var (th', st') := Continues(t, th, s.stripes[k], s.closing);
      s.(threads := s.threads[t := th'], stripes := s.stripes[k := st'],
         drainers := if th.pc.Notify? then NotifyAll(s.drainers) else s.drainers)
    else if op.Close? then Closed(s)
    else if op.Retire? && !Retires(th, op, s.tasks) then s
    else
      var (th', st') := Starts(th, s.stripes[k], op, s.closing);
      var tasks' := Tasks(th, op, s.closing, s.tasks);
      s.(threads := s.threads[t := th'], stripes := s.stripes[k := st'], tasks := tasks',
         drainers := if op.RetireBare? then Strand(s.drainers, tasks') else s.drainers)
  }

  // ---- Drainers ----------------------------------------------------------------------------

  /** `drained`, one load at a time. Callers close first, so it starts only behind `close`. */
  function Drains(d: Drainer, s: State): Drainer {
    match d.pc
    case Off => if s.closing then d.(pc := Enable) else d
    case Enable => Drainer(Scan(false, 0, false), false, false)
    case Scan(second, i, shared) =>
      if i >= |s.stripes| then d.(pc := if second then Done else CheckTasks)
      else if (if shared then s.stripes[i].shared else s.stripes[i].local) != 0 then d.(pc := Recheck)
      else d.(pc := NextCount(second, i, shared))
    case CheckTasks => d.(pc := if Total(s.tasks) == 0 then Scan(true, 0, false) else Recheck)
    case Recheck => d.(pc := Parked(Total(s.tasks) != 0))
    case Parked(select) => if CanWake(d, s.tasks) then d.(pc := Enable) else d
    case Done => d
  }

  function NextCount(second: bool, i: nat, shared: bool): DrainPc {
    if shared then Scan(second, i + 1, false) else Scan(second, i, true)
  }

  /** What ends the wait: the subscription, or the task tracker when it is selected on. */
  predicate CanWake(d: Drainer, tasks: Guards)
    requires d.pc.Parked?
  {
    d.notified || (d.pc.select && Total(tasks) == 0)
  }

  function Step(s: State, e: Event): State {
    match e
    case ThreadStep(t, op) => if t < |s.threads| then StepThread(s, t, op) else s
    case DrainStep(d) =>
      if d < |s.drainers| then s.(drainers := s.drainers[d := Drains(s.drainers[d], s)]) else s
  }

  function Run(s: State, schedule: seq<Event>): State
    decreases |schedule|
  {
    if schedule == [] then s
    else Step(Run(s, schedule[..|schedule| - 1]), schedule[|schedule| - 1])
  }
}

/** What draining guarantees, for every schedule of Activity. */
module ActivityDrain {
  import opened Prelude
  import opened Activity

  /** Shared activities of the threads whose stripe is `i`. */
  function SharedTotal(threads: seq<Thread>, i: nat): nat {
    if threads == [] then 0
    else
      var last := threads[|threads| - 1];
      SharedTotal(threads[..|threads| - 1], i) + if last.home == i then Total(last.shared) else 0
  }

  lemma {:induction false} SharedTotalUpdate(threads: seq<Thread>, i: nat, t: nat, th: Thread)
    requires t < |threads| && th.home == threads[t].home
    ensures SharedTotal(threads[t := th], i)
         == SharedTotal(threads, i) + if th.home == i then Total(th.shared) - Total(threads[t].shared) else 0
    ensures th.home == i ==> Total(threads[t].shared) <= SharedTotal(threads, i)
    decreases |threads|
  {
    var n := |threads| - 1;
    if t == n {
      assert threads[t := th][..n] == threads[..n];
    } else {
      assert threads[t := th][..n] == threads[..n][t := th];
      SharedTotalUpdate(threads[..n], i, t, th);
    }
  }

  // ---- The inductive invariant ----------------------------------------------------------

  /** A thread and its stripe agree: the plain-store count loses no update. */
  predicate Linked(t: nat, th: Thread, st: Stripe) {
    && (Total(th.local) > 0 || th.pc.LoadLocal? || th.pc.StoreLocal? ==> st.owner == t + 1)
    && (th.pc.StoreLocal? || th.pc.DropStore? ==> th.pc.count == st.local)
    && (th.pc.DropLoad? || th.pc.DropStore? ==> Has(th.local, th.pc.early))
    && (st.owner == t + 1 ==> st.local == Total(th.local))
    && Total(th.shared) + Total(st.owned) <= st.shared
  }

  ghost predicate ThreadOk(s: State, t: nat)
    requires t < |s.threads|
  {
    s.threads[t].home < |s.stripes| && Linked(t, s.threads[t], s.stripes[s.threads[t].home])
  }

  ghost predicate StripeOk(s: State, i: nat)
    requires i < |s.stripes|
  {
    var st := s.stripes[i];
    && st.shared == SharedTotal(s.threads, i) + Total(st.owned)
    && (st.owner == 0 ==> st.local == 0)
    && (st.owner != 0 ==> st.owner - 1 < |s.threads| && s.threads[st.owner - 1].home == i)
  }

  ghost predicate CountsOk(s: State) {
    (forall t | 0 <= t < |s.threads| :: ThreadOk(s, t)) && (forall i | 0 <= i < |s.stripes| :: StripeOk(s, i))
  }

  /** The counts the last scan has already seen at zero. */
  predicate Passed(pc: DrainPc, i: nat, shared: bool) {
    pc.Done? || (pc.Scan? && pc.second && (i < pc.i || (i == pc.i && pc.shared && !shared)))
  }

  predicate Clear(pc: DrainPc, th: Thread) {
    (Passed(pc, th.home, false) ==> th.local.early == 0) && (Passed(pc, th.home, true) ==> th.shared.early == 0)
  }

  predicate ClearOwned(pc: DrainPc, i: nat, st: Stripe) { Passed(pc, i, true) ==> st.owned.early == 0 }

  /** The task check and the last scan come after `close`. */
  predicate Settled(d: Drainer, closing: bool, tasks: Guards) {
    && (!d.pc.Off? ==> closing)
    && (d.pc.Done? || (d.pc.Scan? && d.pc.second) ==> tasks.early == 0)
  }

  ghost predicate DrainOk(s: State, d: Drainer) {
    && Settled(d, s.closing, s.tasks)
    && (forall t | 0 <= t < |s.threads| :: Clear(d.pc, s.threads[t]))
    && (forall i | 0 <= i < |s.stripes| :: ClearOwned(d.pc, i, s.stripes[i]))
  }

  predicate Counted(st: Stripe) { st.local > 0 || st.shared > 0 }

  predicate Notifying(pc: Pc) { pc.CheckClosed? || pc.Notify? }

  /** An activity is live, or its last holder is about to notify. */
  ghost predicate Stirring(s: State) {
    || (exists i | 0 <= i < |s.stripes| :: Counted(s.stripes[i]))
    || (exists t | 0 <= t < |s.threads| :: Notifying(s.threads[t].pc))
  }

  /** Something is left to drain, or its last holder is about to notify. */
  ghost predicate Busy(s: State) { Total(s.tasks) > 0 || Stirring(s) }

  /** What an unnotified drainer still waits for, before and after it has decided to wait
      for a notification alone. */
  ghost predicate WaitOk(s: State, d: Drainer) {
    && (d.pc.Recheck? && !d.notified ==> Busy(s) || d.stranded)
    && (d.pc == Parked(false) && !d.notified ==> Stirring(s) || d.stranded)
  }

  /** Safety: counts, and what drainers have passed. */
  ghost predicate Inv(s: State) {
    && CountsOk(s)
    && (forall d | 0 <= d < |s.drainers| :: DrainOk(s, s.drainers[d]))
  }

  ghost predicate WaitsOk(s: State) { forall d | 0 <= d < |s.drainers| :: WaitOk(s, s.drainers[d]) }

  // ---- Effects of a step -------------------------------------------------------------------

  /** The step moves one thread and one stripe. */
  predicate Moves(s: State, s': State, t: nat, k: nat) {
    && t < |s.threads| && k < |s.stripes| && |s'.threads| == |s.threads| && |s'.stripes| == |s.stripes|
    && s'.threads == s.threads[t := s'.threads[t]] && s'.stripes == s.stripes[k := s'.stripes[k]]
    && s'.threads[t].home == s.threads[t].home
  }

  /** Counts move with the guards they count, and another owner's local count stays. */
  predicate Accounted(t: nat, k: nat, th: Thread, st: Stripe, th': Thread, st': Stripe) {
    && th'.home == th.home
    && (th.home == k ==> Linked(t, th', st'))
    && (th.home != k ==> th'.local == th.local && !th'.pc.LoadLocal? && !th'.pc.StoreLocal? && !th'.pc.DropLoad? && !th'.pc.DropStore?)
    && (th.home != k ==> th'.shared == th.shared)
    && st'.shared + Total(th.shared) + Total(st.owned) == st.shared + Total(th'.shared) + Total(st'.owned)
    && (st'.owner == st.owner || (st.owner == 0 && st'.owner == t + 1 && th.home == k))
    && (st'.owner != t + 1 || th.home != k ==> st'.local == st.local)
  }

  lemma ContinuesAccounted(t: nat, th: Thread, st: Stripe, closing: bool)
    requires Linked(t, th, st) && (st.owner == 0 ==> st.local == 0)
    ensures var (th', st') := Continues(t, th, st, closing);
      Accounted(t, th.home, th, st, th', st')
  {
  }

  lemma StartsAccounted(t: nat, k: nat, th: Thread, st: Stripe, op: Op, closing: bool)
    requires th.pc.Idle? && (th.home == k ==> Linked(t, th, st)) && Total(st.owned) <= st.shared
    requires th.home != k ==> op.DropOwned? || op.AdmitOwned?
    ensures var (th', st') := Starts(th, st, op, closing);
      Accounted(t, k, th, st, th', st')
  {
  }

  lemma CountsMove(s: State, s': State, t: nat, k: nat)
    requires CountsOk(s) && Moves(s, s', t, k)
    requires Accounted(t, k, s.threads[t], s.stripes[k], s'.threads[t], s'.stripes[k])
    ensures CountsOk(s')
  {
    forall i | 0 <= i < |s.stripes| ensures StripeOk(s', i) {
      assert StripeOk(s, i);
      SharedTotalUpdate(s.threads, i, t, s'.threads[t]);
    }
    forall u | 0 <= u < |s.threads| ensures ThreadOk(s', u) {
      assert ThreadOk(s, u) && StripeOk(s', s.threads[u].home);
      SharedTotalUpdate(s'.threads, s.threads[u].home, u, s'.threads[u]);
    }
  }

  /** Early work appears only before `close`, or out of an early task. */
  predicate NoNewEarly(th: Thread, st: Stripe, th': Thread, st': Stripe) {
    th'.local.early <= th.local.early && th'.shared.early <= th.shared.early && st'.owned.early <= st.owned.early
  }

  lemma DrainMoves(s: State, s': State, t: nat, k: nat, d: Drainer, d': Drainer)
    requires Moves(s, s', t, k) && DrainOk(s, d) && d'.pc == d.pc
    requires Settled(d', s'.closing, s'.tasks)
    requires s.closing && s.tasks.early == 0 ==> NoNewEarly(s.threads[t], s.stripes[k], s'.threads[t], s'.stripes[k])
    ensures DrainOk(s', d')
  {
    forall u | 0 <= u < |s.threads| ensures Clear(d'.pc, s'.threads[u]) {
      assert Clear(d.pc, s.threads[u]);
    }
    forall i | 0 <= i < |s.stripes| ensures ClearOwned(d'.pc, i, s'.stripes[i]) {
      assert ClearOwned(d.pc, i, s.stripes[i]);
    }
  }

  /** A stripe that stops being counted leaves its thread about to notify. */
  predicate HandsOver(th: Thread, st: Stripe, th': Thread, st': Stripe, closing: bool) {
    && (Counted(st) ==> Counted(st') || Notifying(th'.pc))
    && (Notifying(th.pc) && closing && !th.pc.Notify? ==> Notifying(th'.pc))
  }

  lemma StirringMoves(s: State, s': State, t: nat, k: nat)
    requires Moves(s, s', t, k) && Stirring(s) && s.closing && !s.threads[t].pc.Notify?
    requires HandsOver(s.threads[t], s.stripes[k], s'.threads[t], s'.stripes[k], s.closing)
    ensures Stirring(s')
  {
    if i :| 0 <= i < |s.stripes| && Counted(s.stripes[i]) {
      assert Counted(s'.stripes[i]) || Notifying(s'.threads[t].pc);
    } else {
      var u :| 0 <= u < |s.threads| && Notifying(s.threads[u].pc);
      assert Notifying(s'.threads[u].pc);
    }
  }

  /** A drainer goes on waiting for a reason, or is notified, or is stranded. */
  lemma WaitMoves(s: State, s': State, t: nat, k: nat, d: Drainer, d': Drainer)
    requires Moves(s, s', t, k) && WaitOk(s, d) && (!d.pc.Off? ==> s.closing)
    requires HandsOver(s.threads[t], s.stripes[k], s'.threads[t], s'.stripes[k], s.closing)
    requires d'.pc == d.pc && (d.notified ==> d'.notified) && (d.stranded ==> d'.stranded)
    requires s.threads[t].pc.Notify? ==> d'.notified
    requires Total(s'.tasks) > 0 || Total(s.tasks) == 0 || Stirring(s') || (d.pc.Recheck? ==> d'.stranded)
    ensures WaitOk(s', d')
  {
    if Stirring(s) && s.closing && !s.threads[t].pc.Notify? {
      StirringMoves(s, s', t, k);
    }
  }

  lemma ContinuesHandsOver(t: nat, th: Thread, st: Stripe, closing: bool)
    requires Linked(t, th, st)
    ensures var (th', st') := Continues(t, th, st, closing);
      HandsOver(th, st, th', st', closing) && NoNewEarly(th, st, th', st')
  {
  }

  lemma StartsHandsOver(th: Thread, st: Stripe, op: Op, closing: bool)
    requires th.pc.Idle?
    ensures var (th', st') := Starts(th, st, op, closing);
      && HandsOver(th, st, th', st', closing)
      && (closing && (op.Retire? ==> !op.early) ==> NoNewEarly(th, st, th', st'))
  {
  }

  /** A thread with an activity has it counted in its stripe. */
  lemma HolderIsCounted(s: State, t: nat)
    requires CountsOk(s) && t < |s.threads| && Total(s.threads[t].local) + Total(s.threads[t].shared) > 0
    ensures s.threads[t].home < |s.stripes| && Counted(s.stripes[s.threads[t].home])
  {
    assert ThreadOk(s, t);
  }

  // ---- Every step ----------------------------------------------------------------------------

  lemma ContinueKeeps(s: State, t: nat, op: Op)
    requires Inv(s) && t < |s.threads| && !s.threads[t].pc.Idle?
    ensures Inv(StepThread(s, t, op))
  {
    var s' := StepThread(s, t, op);
    var th := s.threads[t];
    var k := th.home;
    assert ThreadOk(s, t) && StripeOk(s, k);
    ContinuesAccounted(t, th, s.stripes[k], s.closing);
    CountsMove(s, s', t, k);
    ContinuesHandsOver(t, th, s.stripes[k], s.closing);
    forall d | 0 <= d < |s'.drainers| ensures DrainOk(s', s'.drainers[d]) {
      DrainMoves(s, s', t, k, s.drainers[d], s'.drainers[d]);
    }
  }

  lemma ContinueMoves(s: State, t: nat, op: Op)
    requires t < |s.threads| && !s.threads[t].pc.Idle? && s.threads[t].home < |s.stripes|
    ensures var s' := StepThread(s, t, op); var k := s.threads[t].home;
      && Moves(s, s', t, k) && |s'.drainers| == |s.drainers| && s'.tasks == s.tasks
      && (s'.threads[t], s'.stripes[k]) == Continues(t, s.threads[t], s.stripes[k], s.closing)
      && (forall d | 0 <= d < |s.drainers| ::
            s'.drainers[d] == if s.threads[t].pc.Notify? then s.drainers[d].(notified := true) else s.drainers[d])
  {
  }

  lemma ContinueWaits(s: State, t: nat, op: Op)
    requires Inv(s) && WaitsOk(s) && t < |s.threads| && !s.threads[t].pc.Idle?
    ensures WaitsOk(StepThread(s, t, op))
  {
    var s' := StepThread(s, t, op);
    var k := s.threads[t].home;
    assert ThreadOk(s, t);
    ContinueMoves(s, t, op);
    ContinuesHandsOver(t, s.threads[t], s.stripes[k], s.closing);
    forall d | 0 <= d < |s'.drainers| ensures WaitOk(s', s'.drainers[d]) {
      assert WaitOk(s, s.drainers[d]) && DrainOk(s, s.drainers[d]);
      WaitMoves(s, s', t, k, s.drainers[d], s'.drainers[d]);
    }
  }

  lemma StartKeeps(s: State, t: nat, op: Op)
    requires Inv(s) && t < |s.threads| && s.threads[t].pc.Idle? && !op.Close?
    requires Target(s, t, op) < |s.stripes| && (op.Retire? ==> Retires(s.threads[t], op, s.tasks))
    ensures Inv(StepThread(s, t, op))
  {
    var s' := StepThread(s, t, op);
    var th := s.threads[t];
    var k := Target(s, t, op);
    assert ThreadOk(s, t) && StripeOk(s, k);
    StartsAccounted(t, k, th, s.stripes[k], op, s.closing);
    CountsMove(s, s', t, k);
    StartsHandsOver(th, s.stripes[k], op, s.closing);
    forall d | 0 <= d < |s'.drainers| ensures DrainOk(s', s'.drainers[d]) {
      assert DrainOk(s, s.drainers[d]);
      DrainMoves(s, s', t, k, s.drainers[d], s'.drainers[d]);
    }
  }

  /** An emptied tracker leaves the retiring activity, or strands who was deciding. */
  ghost predicate TasksHandOver(s: State, s': State) {
    || Total(s'.tasks) > 0 || Total(s.tasks) == 0 || Stirring(s')
    || (|s'.drainers| == |s.drainers| && forall d | 0 <= d < |s.drainers| && s.drainers[d].pc.Recheck? :: s'.drainers[d].stranded)
  }

  lemma StartTasks(s: State, t: nat, op: Op)
    requires Inv(s) && t < |s.threads| && s.threads[t].pc.Idle? && !op.Close?
    requires Target(s, t, op) < |s.stripes| && (op.Retire? ==> Retires(s.threads[t], op, s.tasks))
    ensures TasksHandOver(s, StepThread(s, t, op))
  {
    var s' := StepThread(s, t, op);
    if op.Retire? {
      HolderIsCounted(s, t);
      assert Counted(s'.stripes[s.threads[t].home]);
    }
  }

  lemma StartWaits(s: State, t: nat, op: Op)
    requires Inv(s) && WaitsOk(s) && t < |s.threads| && s.threads[t].pc.Idle? && !op.Close?
    requires Target(s, t, op) < |s.stripes| && (op.Retire? ==> Retires(s.threads[t], op, s.tasks))
    ensures WaitsOk(StepThread(s, t, op))
  {
    var s' := StepThread(s, t, op);
    var k := Target(s, t, op);
    assert ThreadOk(s, t) && StripeOk(s, k);
    StartsHandsOver(s.threads[t], s.stripes[k], op, s.closing);
    StartTasks(s, t, op);
    StartMoves(s, t, op);
    forall d | 0 <= d < |s'.drainers| ensures WaitOk(s', s'.drainers[d]) {
      assert WaitOk(s, s.drainers[d]) && DrainOk(s, s.drainers[d]);
      WaitMoves(s, s', t, k, s.drainers[d], s'.drainers[d]);
    }
  }

  lemma StartMoves(s: State, t: nat, op: Op)
    requires t < |s.threads| && s.threads[t].pc.Idle? && !op.Close? && s.threads[t].home < |s.stripes|
    requires Target(s, t, op) < |s.stripes| && (op.Retire? ==> Retires(s.threads[t], op, s.tasks))
    ensures var s' := StepThread(s, t, op); var k := Target(s, t, op);
      && Moves(s, s', t, k) && |s'.drainers| == |s.drainers|
      && (s'.threads[t], s'.stripes[k]) == Starts(s.threads[t], s.stripes[k], op, s.closing)
      && (forall d | 0 <= d < |s.drainers| ::
            s'.drainers[d].pc == s.drainers[d].pc && s'.drainers[d].notified == s.drainers[d].notified
            && (s.drainers[d].stranded ==> s'.drainers[d].stranded))
  {
  }

  lemma {:induction false} AgedTotal(threads: seq<Thread>, i: nat)
    ensures SharedTotal(AgeAll(threads), i) == SharedTotal(threads, i)
    decreases |threads|
  {
    if threads != [] {
      var n := |threads| - 1;
      assert AgeAll(threads)[..n] == AgeAll(threads[..n]);
      AgedTotal(threads[..n], i);
    }
  }

  /** Closing changes no count, and no drainer has started before it. */
  lemma CloseKeeps(s: State)
    requires Inv(s)
    ensures Inv(Closed(s))
  {
    if !s.closing {
      var s' := Closed(s);
      forall i | 0 <= i < |s.stripes| ensures StripeOk(s', i) {
        assert StripeOk(s, i);
        AgedTotal(s.threads, i);
      }
      forall u | 0 <= u < |s.threads| ensures ThreadOk(s', u) {
        assert ThreadOk(s, u);
      }
      forall d | 0 <= d < |s.drainers| ensures s.drainers[d].pc.Off? && DrainOk(s', s'.drainers[d]) {
        assert DrainOk(s, s.drainers[d]);
      }
    }
  }

  /** A zero count leaves no early guard behind it. */
  lemma ZeroIsClear(s: State, i: nat, shared: bool)
    requires CountsOk(s) && i < |s.stripes|
    requires (if shared then s.stripes[i].shared else s.stripes[i].local) == 0
    ensures forall t | 0 <= t < |s.threads| && s.threads[t].home == i ::
              Total(if shared then s.threads[t].shared else s.threads[t].local) == 0
    ensures shared ==> Total(s.stripes[i].owned) == 0
  {
    assert StripeOk(s, i);
    forall t | 0 <= t < |s.threads| && s.threads[t].home == i
      ensures Total(if shared then s.threads[t].shared else s.threads[t].local) == 0
    {
      assert ThreadOk(s, t);
    }
  }

  lemma ThreadPassed(second: bool, i: nat, shared: bool, th: Thread)
    requires Clear(Scan(second, i, shared), th)
    requires th.home == i ==> Total(if shared then th.shared else th.local) == 0
    ensures Clear(NextCount(second, i, shared), th)
  {
  }

  lemma OwnedPassed(second: bool, i: nat, shared: bool, j: nat, st: Stripe)
    requires ClearOwned(Scan(second, i, shared), j, st)
    requires shared && j == i ==> Total(st.owned) == 0
    ensures ClearOwned(NextCount(second, i, shared), j, st)
  {
  }

  /** Passing one more zero count clears one more place. */
  lemma ScanPasses(s: State, d: Drainer, second: bool, i: nat, shared: bool)
    requires CountsOk(s) && DrainOk(s, d) && d.pc == Scan(second, i, shared) && i < |s.stripes|
    requires (if shared then s.stripes[i].shared else s.stripes[i].local) == 0
    ensures DrainOk(s, d.(pc := NextCount(second, i, shared)))
  {
    ZeroIsClear(s, i, shared);
    forall t | 0 <= t < |s.threads| ensures Clear(NextCount(second, i, shared), s.threads[t]) {
      ThreadPassed(second, i, shared, s.threads[t]);
    }
    forall j | 0 <= j < |s.stripes| ensures ClearOwned(NextCount(second, i, shared), j, s.stripes[j]) {
      OwnedPassed(second, i, shared, j, s.stripes[j]);
    }
  }

  /** Before the last scan has seen a count, it has nothing to answer for. */
  lemma NothingPassed(s: State, d: Drainer)
    requires Settled(d, s.closing, s.tasks)
    requires !d.pc.Done? && (d.pc.Scan? && d.pc.second ==> d.pc.i == 0 && !d.pc.shared)
    ensures DrainOk(s, d)
  {
    assert forall i, shared :: !Passed(d.pc, i, shared);
  }

  /** Past the last stripe, everything has been seen. */
  lemma EverythingPassed(s: State, d: Drainer)
    requires CountsOk(s) && DrainOk(s, d) && d.pc.Scan? && d.pc.second && d.pc.i >= |s.stripes|
    ensures DrainOk(s, d.(pc := Done))
  {
    forall t | 0 <= t < |s.threads| ensures Clear(Done, s.threads[t]) {
      assert Clear(d.pc, s.threads[t]) && ThreadOk(s, t);
    }
    forall i | 0 <= i < |s.stripes| ensures ClearOwned(Done, i, s.stripes[i]) {
      assert ClearOwned(d.pc, i, s.stripes[i]);
    }
  }

  function CountAt(st: Stripe, shared: bool): nat { if shared then st.shared else st.local }

  /** Where a load of a scan leads. */
  lemma ScanCases(s: State, d: Drainer, second: bool, i: nat, shared: bool)
    requires d.pc == Scan(second, i, shared)
    ensures Drains(d, s).pc == if i >= |s.stripes| then (if second then Done else CheckTasks)
                               else if CountAt(s.stripes[i], shared) != 0 then Recheck else NextCount(second, i, shared)
    ensures Drains(d, s) == d.(pc := Drains(d, s).pc)
  {
  }

  lemma ScanAdvances(s: State, d: Drainer, second: bool, i: nat, shared: bool)
    requires CountsOk(s) && DrainOk(s, d) && d.pc == Scan(second, i, shared)
    ensures DrainOk(s, Drains(d, s))
  {
    ScanCases(s, d, second, i, shared);
    if i >= |s.stripes| && second {
      EverythingPassed(s, d);
    } else if i < |s.stripes| && CountAt(s.stripes[i], shared) == 0 {
      ScanPasses(s, d, second, i, shared);
    } else {
      NothingPassed(s, Drains(d, s));
    }
  }

  lemma DrainAdvances(s: State, d: Drainer)
    requires CountsOk(s) && DrainOk(s, d)
    ensures DrainOk(s, Drains(d, s))
  {
    match d.pc {
      case Scan(second, i, shared) => ScanAdvances(s, d, second, i, shared);
      case Done =>
      case _ => NothingPassed(s, Drains(d, s));
    }
  }

  /** A drainer starts waiting only on something it has seen. */
  lemma WaitsForSomething(s: State, d: Drainer)
    requires WaitOk(s, d)
    ensures WaitOk(s, Drains(d, s))
  {
    if d.pc.Scan? && Drains(d, s).pc.Recheck? {
      assert Counted(s.stripes[d.pc.i]);
    }
  }

  /** Drainers do not touch what they wait for. */
  predicate OnlyDrainers(s: State, s': State) {
    s'.stripes == s.stripes && s'.threads == s.threads && s'.tasks == s.tasks && s'.closing == s.closing
  }

  lemma CountsUntouched(s: State, s': State)
    requires CountsOk(s) && OnlyDrainers(s, s')
    ensures CountsOk(s')
  {
    forall i | 0 <= i < |s.stripes| ensures StripeOk(s', i) {
      assert StripeOk(s, i);
    }
    forall u | 0 <= u < |s.threads| ensures ThreadOk(s', u) {
      assert ThreadOk(s, u);
    }
  }

  lemma DrainerUntouched(s: State, s': State, d: Drainer)
    requires OnlyDrainers(s, s')
    ensures DrainOk(s, d) ==> DrainOk(s', d)
    ensures WaitOk(s, d) ==> WaitOk(s', d)
  {
    assert Stirring(s) ==> Stirring(s');
  }

  lemma DrainKeeps(s: State, d: nat)
    requires Inv(s) && d < |s.drainers|
    ensures Inv(Step(s, DrainStep(d)))
    ensures WaitsOk(s) ==> WaitsOk(Step(s, DrainStep(d)))
  {
    var s' := Step(s, DrainStep(d));
    CountsUntouched(s, s');
    assert DrainOk(s, s.drainers[d]);
    DrainAdvances(s, s.drainers[d]);
    forall e | 0 <= e < |s'.drainers| ensures DrainOk(s', s'.drainers[e]) {
      assert e != d ==> DrainOk(s, s.drainers[e]);
      DrainerUntouched(s, s', s'.drainers[e]);
    }
    if WaitsOk(s) {
      assert WaitOk(s, s.drainers[d]);
      WaitsForSomething(s, s.drainers[d]);
      forall e | 0 <= e < |s'.drainers| ensures WaitOk(s', s'.drainers[e]) {
        assert e != d ==> WaitOk(s, s.drainers[e]);
        DrainerUntouched(s, s', s'.drainers[e]);
      }
    }
  }

  lemma CloseWaits(s: State)
    requires Inv(s) && WaitsOk(s)
    ensures WaitsOk(Closed(s))
  {
    if !s.closing {
      forall d | 0 <= d < |s.drainers| ensures WaitOk(Closed(s), s.drainers[d]) {
        assert DrainOk(s, s.drainers[d]);
      }
    }
  }

  lemma StepKeeps(s: State, e: Event)
    requires Inv(s)
    ensures Inv(Step(s, e)) && (WaitsOk(s) ==> WaitsOk(Step(s, e)))
  {
    match e
    case DrainStep(d) =>
      if d < |s.drainers| {
        DrainKeeps(s, d);
      }
    case ThreadStep(t, op) =>
      if t < |s.threads| {
        if !s.threads[t].pc.Idle? {
          ContinueKeeps(s, t, op);
          if WaitsOk(s) {
            ContinueWaits(s, t, op);
          }
        } else if op.Close? {
          CloseKeeps(s);
          if WaitsOk(s) {
            CloseWaits(s);
          }
        } else if Target(s, t, op) < |s.stripes| && (op.Retire? ==> Retires(s.threads[t], op, s.tasks)) {
          StartKeeps(s, t, op);
          if WaitsOk(s) {
            StartWaits(s, t, op);
          }
        }
      }
  }

  // ---- Every schedule --------------------------------------------------------------------------

  lemma {:induction false} InitTotal(threads: seq<Thread>, i: nat)
    requires forall t | 0 <= t < |threads| :: Total(threads[t].shared) == 0
    ensures SharedTotal(threads, i) == 0
    decreases |threads|
  {
    if threads != [] {
      InitTotal(threads[..|threads| - 1], i);
    }
  }

  lemma {:induction false} ReachableInv(n: nat, threads: nat, drainers: nat, schedule: seq<Event>)
    requires n > 0
    ensures Inv(Run(Init(n, threads, drainers), schedule)) && WaitsOk(Run(Init(n, threads, drainers), schedule))
    decreases |schedule|
  {
    var s := Init(n, threads, drainers);
    if schedule == [] {
      forall i | 0 <= i < |s.stripes| ensures StripeOk(s, i) {
        InitTotal(s.threads, i);
      }
      assert forall t | 0 <= t < |s.threads| :: ThreadOk(s, t);
    } else {
      ReachableInv(n, threads, drainers, schedule[..|schedule| - 1]);
      StepKeeps(Run(s, schedule[..|schedule| - 1]), schedule[|schedule| - 1]);
    }
  }

  /** The stripe's counts are its live activities and permits. */
  ghost predicate ExactCounts(s: State, i: nat)
    requires i < |s.stripes|
  {
    var st := s.stripes[i];
    && st.shared == SharedTotal(s.threads, i) + Total(st.owned)
    && st.owner <= |s.threads|
    && st.local == if st.owner == 0 then 0 else Total(s.threads[st.owner - 1].local)
  }

  lemma CountsFollow(s: State, i: nat)
    requires CountsOk(s) && i < |s.stripes|
    ensures ExactCounts(s, i)
  {
    assert StripeOk(s, i);
    if s.stripes[i].owner != 0 {
      assert ThreadOk(s, s.stripes[i].owner - 1);
    }
  }

  /** Each stripe's counts equal its live activities and permits: no plain store loses an
      update and no subtraction wraps. */
  lemma CountsAreExact(n: nat, threads: nat, drainers: nat, schedule: seq<Event>, i: nat)
    requires n > 0 && i < |Run(Init(n, threads, drainers), schedule).stripes|
    ensures ExactCounts(Run(Init(n, threads, drainers), schedule), i)
  {
    ReachableInv(n, threads, drainers, schedule);
    CountsFollow(Run(Init(n, threads, drainers), schedule), i);
  }

  /** No activity or permit published, and no work registered, before `close` is left
      anywhere, nor an activity that took such work over. */
  ghost predicate Drained(s: State) {
    && s.closing && s.tasks.early == 0
    && (forall t | 0 <= t < |s.threads| :: s.threads[t].local.early == 0 && s.threads[t].shared.early == 0)
    && (forall i | 0 <= i < |s.stripes| :: s.stripes[i].owned.early == 0)
  }

  /** What counts as published before `close`: when it happens, everything that is live. */
  lemma CloseCoversAllLive(s: State, t: nat)
    requires !s.closing && t < |s.threads| && s.threads[t].pc.Idle? && s.threads[t].home < |s.stripes|
    ensures var s' := Step(s, ThreadStep(t, Close));
      && s'.closing
      && (forall u | 0 <= u < |s.threads| ::
            s'.threads[u].local == Guards(0, Total(s.threads[u].local)) && s'.threads[u].shared == Guards(0, Total(s.threads[u].shared)))
      && (forall i | 0 <= i < |s.stripes| :: s'.stripes[i].owned == Guards(0, Total(s.stripes[i].owned)))
  {
  }

  /** `drained` returns only once every activity and permit published before `close` has
      been dropped, admitted ones included, all work registered before it has given back its
      token, and the activities that gave those back have ended, in every schedule of any
      number of threads, stripes and drainers. */
  lemma DrainedMeansDrained(n: nat, threads: nat, drainers: nat, schedule: seq<Event>, d: nat)
    requires n > 0
    requires var s := Run(Init(n, threads, drainers), schedule);
      d < |s.drainers| && s.drainers[d].pc.Done?
    ensures Drained(Run(Init(n, threads, drainers), schedule))
  {
    ReachableInv(n, threads, drainers, schedule);
    var s := Run(Init(n, threads, drainers), schedule);
    assert DrainOk(s, s.drainers[d]);
    assert forall t | 0 <= t < |s.threads| :: Clear(s.drainers[d].pc, s.threads[t]);
    assert forall i | 0 <= i < |s.stripes| :: ClearOwned(s.drainers[d].pc, i, s.stripes[i]);
  }

  /** A drainer that cannot proceed still has something to wait for, a live activity, a
      task, or a thread that is about to notify it, unless it is stranded: a token given back
      outside any activity emptied the tracker right before it decided to wait. */
  lemma NoLostDrain(n: nat, threads: nat, drainers: nat, schedule: seq<Event>, d: nat)
    requires n > 0
    requires var s := Run(Init(n, threads, drainers), schedule);
      d < |s.drainers| && s.drainers[d].pc.Parked? && !CanWake(s.drainers[d], s.tasks)
    ensures var s := Run(Init(n, threads, drainers), schedule);
      Busy(s) || s.drainers[d].stranded
  {
    ReachableInv(n, threads, drainers, schedule);
    var s := Run(Init(n, threads, drainers), schedule);
    assert WaitOk(s, s.drainers[d]);
  }

  /** Every token is given back under an activity, as scopes and flights do. */
  predicate UnderActivity(schedule: seq<Event>) {
    forall i | 0 <= i < |schedule| :: schedule[i].ThreadStep? ==> !schedule[i].op.RetireBare?
  }

  predicate Unstranded(s: State) { forall d | 0 <= d < |s.drainers| :: !s.drainers[d].stranded }

  lemma {:induction false} NeverStranded(n: nat, threads: nat, drainers: nat, schedule: seq<Event>)
    requires n > 0 && UnderActivity(schedule)
    ensures Unstranded(Run(Init(n, threads, drainers), schedule))
    decreases |schedule|
  {
    if schedule != [] {
      var last := |schedule| - 1;
      assert schedule[last].ThreadStep? ==> !schedule[last].op.RetireBare?;
      NeverStranded(n, threads, drainers, schedule[..last]);
      StaysUnstranded(Run(Init(n, threads, drainers), schedule[..last]), schedule[last]);
    }
  }

  lemma StaysUnstranded(s: State, e: Event)
    requires Unstranded(s) && (e.ThreadStep? ==> !e.op.RetireBare?)
    ensures Unstranded(Step(s, e))
  {
  }

  /** No lost wakeup as long as tokens are given back under activities. */
  lemma NoLostDrainUnderActivity(n: nat, threads: nat, drainers: nat, schedule: seq<Event>, d: nat)
    requires n > 0 && UnderActivity(schedule)
    requires var s := Run(Init(n, threads, drainers), schedule);
      d < |s.drainers| && s.drainers[d].pc.Parked? && !CanWake(s.drainers[d], s.tasks)
    ensures Busy(Run(Init(n, threads, drainers), schedule))
  {
    NoLostDrain(n, threads, drainers, schedule, d);
    NeverStranded(n, threads, drainers, schedule);
  }

  // ---- A drain that nothing holds up ---------------------------------------------------------------

  /** No activity, permit or task is left. */
  predicate Quiet(s: State) {
    s.closing && Total(s.tasks) == 0 && forall i | 0 <= i < |s.stripes| :: s.stripes[i].local == 0 && s.stripes[i].shared == 0
  }

  function Steps(d: nat, n: nat): seq<Event> { seq(n, _ => DrainStep(d)) }

  /** The drainer after `n` steps in an unchanging registry. */
  function Alone(s: State, d: Drainer, n: nat): Drainer {
    if n == 0 then d else Drains(Alone(s, d, n - 1), s)
  }

  lemma {:induction false} AloneFirst(s: State, d: Drainer, n: nat)
    ensures Alone(s, d, n + 1) == Alone(s, Drains(d, s), n)
    decreases n
  {
    if n > 0 {
      AloneFirst(s, d, n - 1);
    }
  }

  lemma SameRegistry(s: State, s': State, d: Drainer)
    requires OnlyDrainers(s, s')
    ensures Drains(d, s') == Drains(d, s)
  {
  }

  lemma {:induction false} RunAlone(s: State, d: nat, n: nat)
    requires d < |s.drainers|
    ensures Run(s, Steps(d, n)) == s.(drainers := s.drainers[d := Alone(s, s.drainers[d], n)])
    decreases n
  {
    if n > 0 {
      RunAlone(s, d, n - 1);
      assert Steps(d, n)[..n - 1] == Steps(d, n - 1) && Steps(d, n)[n - 1] == DrainStep(d);
      var before := Run(s, Steps(d, n - 1));
      SameRegistry(s, before, Alone(s, s.drainers[d], n - 1));
    }
  }

  predicate Proceeding(pc: DrainPc) { !pc.Recheck? && !pc.Parked? }

  /** Stages still ahead, and stripes in the current one. */
  function Stage(pc: DrainPc): nat {
    match pc
    case Off => 5
    case Enable => 4
    case Scan(second, _, _) => if second then 1 else 3
    case CheckTasks => 2
    case _ => 0
  }

  function Ahead(pc: DrainPc, stripes: nat): nat {
    if pc.Scan? && pc.i <= stripes then 2 * (stripes - pc.i) + (if pc.shared then 0 else 1) else 0
  }

  lemma QuietStep(s: State, d: Drainer)
    requires Quiet(s) && Proceeding(d.pc) && !d.pc.Done?
    ensures var pc := Drains(d, s).pc;
      Proceeding(pc) && (Stage(pc) < Stage(d.pc) || (Stage(pc) == Stage(d.pc) && Ahead(pc, |s.stripes|) < Ahead(d.pc, |s.stripes|)))
  {
    match d.pc {
      case Scan(second, i, shared) => ScanCases(s, d, second, i, shared);
      case _ =>
    }
  }

  lemma {:induction false} QuietDrain(s: State, d: Drainer) returns (n: nat)
    requires Quiet(s) && Proceeding(d.pc)
    ensures Alone(s, d, n).pc.Done?
    decreases Stage(d.pc), Ahead(d.pc, |s.stripes|)
  {
    if d.pc.Done? {
      n := 0;
    } else {
      QuietStep(s, d);
      var m := QuietDrain(s, Drains(d, s));
      AloneFirst(s, d, m);
      n := m + 1;
    }
  }

  predicate CanStart(d: Drainer, tasks: Guards) {
    d.pc.Off? || d.pc.Enable? || (d.pc.Parked? && CanWake(d, tasks))
  }

  lemma StartedDrainEnds(s: State, d: Drainer) returns (n: nat)
    requires Quiet(s) && CanStart(d, s.tasks)
    ensures Alone(s, d, n).pc.Done?
  {
    if d.pc.Parked? {
      assert Drains(d, s).pc.Enable?;
      var m := QuietDrain(s, Drains(d, s));
      AloneFirst(s, d, m);
      n := m + 1;
    } else {
      n := QuietDrain(s, d);
    }
  }

  ghost predicate Returns(s: State, d: nat) { exists n: nat :: DoneAfter(s, d, n) }

  predicate DoneAfter(s: State, d: nat, n: nat) {
    var r := Run(s, Steps(d, n));
    d < |r.drainers| && r.drainers[d].pc.Done?
  }

  /** A drain that nothing holds up returns: after `close`, with no activity, permit or task
      left, a drainer that runs alone from its start ends, and so does one that can leave its
      wait. */
  lemma QuietDrainReturns(s: State, d: nat)
    requires d < |s.drainers| && Quiet(s) && CanStart(s.drainers[d], s.tasks)
    ensures Returns(s, d)
  {
    var n := StartedDrainEnds(s, s.drainers[d]);
    RunAlone(s, d, n);
    assert DoneAfter(s, d, n);
  }

  // ---- Why the second scan is there --------------------------------------------------------------

  /** One stripe, one thread that owns it, one drainer, and nothing admitted. */
  function Solo(closing: bool, tasks: Guards, pc: Pc, local: Guards, drain: DrainPc): State {
    State([Stripe(1, Total(local), 0, Guards(0, 0))], closing, tasks,
          [Thread(0, pc, local, Guards(0, 0))], [Drainer(drain, false, false)])
  }

  lemma RunTwo(s: State, a: seq<Event>, b: seq<Event>)
    ensures Run(s, a + b) == Run(Run(s, a), b)
    decreases |b|
  {
    if b == [] {
      assert a + b == a;
    } else {
      var n := |b| - 1;
      assert (a + b)[..|a + b| - 1] == a + b[..n];
      RunTwo(s, a, b[..n]);
    }
  }

  lemma RunOne(s: State, e: Event)
    ensures Run(s, [e]) == Step(s, e)
  {
    assert Run(s, [e][..0]) == s;
  }

  const GO: Event := ThreadStep(0, Continue)

  /** Work registered before `close` moves, between the first scan and the task check, from
      its task token into an activity: the first scan and the task check both pass while it
      is still being destroyed. Only the second scan sees it. */
  lemma FirstScanMissesWork()
    ensures exists schedule: seq<Event> ::
              var s := Run(Init(1, 1, 1), schedule);
              |s.drainers| == 1 && s.drainers[0].pc == Scan(true, 0, false) && |s.threads| == 1 && s.threads[0].local.early == 1
  {
    var owned := ClaimsStripe();
    var registered := RegistersWork(owned);
    var closed := ClosesBehindWork(registered);
    var scanned := FirstScan(closed);
    var reserved := ReservesAgain(scanned);
    var schedule := WorkMoves(reserved);
    assert Run(Init(1, 1, 1), schedule) == Solo(true, Guards(0, 0), Idle, Guards(0, 1), Scan(true, 0, false));
  }

  lemma Then(prefix: seq<Event>, s: State, e: Event, s': State) returns (r: seq<Event>)
    requires Run(Init(1, 1, 1), prefix) == s && Step(s, e) == s'
    ensures Run(Init(1, 1, 1), r) == s'
  {
    r := prefix + [e];
    RunTwo(Init(1, 1, 1), prefix, [e]);
    RunOne(s, e);
  }

  lemma ClaimsStripe() returns (r: seq<Event>)
    ensures Run(Init(1, 1, 1), r) == Solo(false, Guards(0, 0), LoadLocal, Guards(0, 0), Off)
  {
    var none := Guards(0, 0);
    var s0 := Init(1, 1, 1);
    r := Then([], s0, ThreadStep(0, Reserve), s0.(threads := [Thread(0, LoadOwner, none, none)]));
    r := Then(r, s0.(threads := [Thread(0, LoadOwner, none, none)]), GO, s0.(threads := [Thread(0, ClaimOwner, none, none)]));
    r := Then(r, s0.(threads := [Thread(0, ClaimOwner, none, none)]), GO, Solo(false, none, LoadLocal, none, Off));
  }

  lemma RegistersWork(before: seq<Event>) returns (r: seq<Event>)
    requires Run(Init(1, 1, 1), before) == Solo(false, Guards(0, 0), LoadLocal, Guards(0, 0), Off)
    ensures Run(Init(1, 1, 1), r) == Solo(false, Guards(0, 1), Idle, Guards(1, 0), Off)
  {
    var none, one := Guards(0, 0), Guards(1, 0);
    r := Then(before, Solo(false, none, LoadLocal, none, Off), GO, Solo(false, none, StoreLocal(0), none, Off));
    r := Then(r, Solo(false, none, StoreLocal(0), none, Off), GO, Solo(false, none, Idle, one, Off));
    r := TakesToken(r);
  }

  lemma TakesToken(before: seq<Event>) returns (r: seq<Event>)
    requires Run(Init(1, 1, 1), before) == Solo(false, Guards(0, 0), Idle, Guards(1, 0), Off)
    ensures Run(Init(1, 1, 1), r) == Solo(false, Guards(0, 1), Idle, Guards(1, 0), Off)
  {
    var none, one := Guards(0, 0), Guards(1, 0);
    r := Then(before, Solo(false, none, Idle, one, Off), ThreadStep(0, Register), Solo(false, Guards(0, 1), Idle, one, Off));
  }

  lemma ClosesBehindWork(before: seq<Event>) returns (r: seq<Event>)
    requires Run(Init(1, 1, 1), before) == Solo(false, Guards(0, 1), Idle, Guards(1, 0), Off)
    ensures Run(Init(1, 1, 1), r) == Solo(true, Guards(0, 1), Idle, Guards(0, 0), Off)
  {
    var none, one, task := Guards(0, 0), Guards(1, 0), Guards(0, 1);
    r := Then(before, Solo(false, task, Idle, one, Off), ThreadStep(0, DropLocal(false)), Solo(false, task, DropLoad(false), one, Off));
    r := Then(r, Solo(false, task, DropLoad(false), one, Off), GO, Solo(false, task, DropStore(1, false), one, Off));
    r := DropsActivity(r);
    r := Then(r, Solo(false, task, Idle, none, Off), ThreadStep(0, Close), Solo(true, task, Idle, none, Off));
  }

  lemma DropsActivity(before: seq<Event>) returns (r: seq<Event>)
    requires Run(Init(1, 1, 1), before) == Solo(false, Guards(0, 1), DropStore(1, false), Guards(1, 0), Off)
    ensures Run(Init(1, 1, 1), r) == Solo(false, Guards(0, 1), Idle, Guards(0, 0), Off)
  {
    var none, one, task := Guards(0, 0), Guards(1, 0), Guards(0, 1);
    r := Then(before, Solo(false, task, DropStore(1, false), one, Off), GO, Solo(false, task, CheckClosed, none, Off));
    r := Then(r, Solo(false, task, CheckClosed, none, Off), GO, Solo(false, task, Idle, none, Off));
  }

  lemma FirstScan(before: seq<Event>) returns (r: seq<Event>)
    requires Run(Init(1, 1, 1), before) == Solo(true, Guards(0, 1), Idle, Guards(0, 0), Off)
    ensures Run(Init(1, 1, 1), r) == Solo(true, Guards(0, 1), Idle, Guards(0, 0), CheckTasks)
  {
    var none, task := Guards(0, 0), Guards(0, 1);
    r := Then(before, Solo(true, task, Idle, none, Off), DrainStep(0), Solo(true, task, Idle, none, Enable));
    r := Then(r, Solo(true, task, Idle, none, Enable), DrainStep(0), Solo(true, task, Idle, none, Scan(false, 0, false)));
    r := Then(r, Solo(true, task, Idle, none, Scan(false, 0, false)), DrainStep(0), Solo(true, task, Idle, none, Scan(false, 0, true)));
    r := Then(r, Solo(true, task, Idle, none, Scan(false, 0, true)), DrainStep(0), Solo(true, task, Idle, none, Scan(false, 1, false)));
    r := Then(r, Solo(true, task, Idle, none, Scan(false, 1, false)), DrainStep(0), Solo(true, task, Idle, none, CheckTasks));
  }

  lemma ReservesAgain(before: seq<Event>) returns (r: seq<Event>)
    requires Run(Init(1, 1, 1), before) == Solo(true, Guards(0, 1), Idle, Guards(0, 0), CheckTasks)
    ensures Run(Init(1, 1, 1), r) == Solo(true, Guards(0, 1), Idle, Guards(1, 0), CheckTasks)
  {
    var none, one, task := Guards(0, 0), Guards(1, 0), Guards(0, 1);
    r := Then(before, Solo(true, task, Idle, none, CheckTasks), ThreadStep(0, Reserve), Solo(true, task, LoadOwner, none, CheckTasks));
    r := Then(r, Solo(true, task, LoadOwner, none, CheckTasks), GO, Solo(true, task, LoadLocal, none, CheckTasks));
    r := Then(r, Solo(true, task, LoadLocal, none, CheckTasks), GO, Solo(true, task, StoreLocal(0), none, CheckTasks));
    r := Then(r, Solo(true, task, StoreLocal(0), none, CheckTasks), GO, Solo(true, task, Idle, one, CheckTasks));
  }

  lemma WorkMoves(before: seq<Event>) returns (r: seq<Event>)
    requires Run(Init(1, 1, 1), before) == Solo(true, Guards(0, 1), Idle, Guards(1, 0), CheckTasks)
    ensures Run(Init(1, 1, 1), r) == Solo(true, Guards(0, 0), Idle, Guards(0, 1), Scan(true, 0, false))
  {
    var none, one, task := Guards(0, 0), Guards(1, 0), Guards(0, 1);
    r := Then(before, Solo(true, task, Idle, one, CheckTasks), ThreadStep(0, Retire(true, false)), Solo(true, none, Idle, task, CheckTasks));
    r := Then(r, Solo(true, none, Idle, task, CheckTasks), DrainStep(0), Solo(true, none, Idle, task, Scan(true, 0, false)));
  }

  function Stranded(drain: DrainPc): State {
    Solo(true, Guards(0, 0), Idle, Guards(0, 0), drain).(drainers := [Drainer(drain, false, true)])
  }

  lemma BareRetires(before: seq<Event>) returns (r: seq<Event>)
    requires Run(Init(1, 1, 1), before) == Solo(true, Guards(0, 1), Idle, Guards(0, 0), CheckTasks)
    ensures Run(Init(1, 1, 1), r) == Stranded(Parked(false))
  {
    var none, task := Guards(0, 0), Guards(0, 1);
    r := Then(before, Solo(true, task, Idle, none, CheckTasks), DrainStep(0), Solo(true, task, Idle, none, Recheck));
    r := Then(r, Solo(true, task, Idle, none, Recheck), ThreadStep(0, RetireBare(true)), Stranded(Recheck));
    r := Then(r, Stranded(Recheck), DrainStep(0), Stranded(Parked(false)));
  }

  /** A stranded drainer can be stuck for good: after the first scan it finds a task, the
      task's token is given back outside any activity, and it waits for a notification that
      nobody is left to send. */
  lemma BareRetirementCanStrand()
    ensures exists schedule: seq<Event> ::
              var s := Run(Init(1, 1, 1), schedule);
              |s.drainers| == 1 && s.drainers[0].pc.Parked? && !CanWake(s.drainers[0], s.tasks) && !Busy(s)
  {
    var owned := ClaimsStripe();
    var registered := RegistersWork(owned);
    var closed := ClosesBehindWork(registered);
    var scanned := FirstScan(closed);
    var schedule := BareRetires(scanned);
    assert !Busy(Stranded(Parked(false)));
    assert Run(Init(1, 1, 1), schedule) == Stranded(Parked(false));
  }
}
