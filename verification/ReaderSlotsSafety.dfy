/** Mutual exclusion and absence of lost wakeups for every schedule of ReaderSlots. */
module ReaderSlotsSafety {
  import opened Prelude
  import opened ReaderSlots

  // ---- What a thread accounts for -------------------------------------------

  /** Local reservations a thread has published and not yet withdrawn. */
  function LocalOf(th: Thread): nat {
    th.localGuards + if th.pc == CheckGate(true) || th.pc.ReleaseLoad? || th.pc.ReleaseStore? then 1 else 0
  }

  function SharedOf(th: Thread): nat {
    th.sharedGuards + if th.pc == CheckGate(false) || th.pc.ReleaseShared? then 1 else 0
  }

  function WaitingOf(th: Thread): nat {
    if th.pc.LockWaiters? || th.pc.RecheckGate? || th.pc.EnterWait? || th.pc.Parked?
       || th.pc.UnlockWaiters? || th.pc.SubWaiting? then 1 else 0
  }

  predicate Waker(pc: Pc) { pc.LoadWaiting? || pc.LockNotify? || pc.NotifyAll? }

  /** The thread keeps the gate closed. */
  predicate KeepsClosed(th: Thread) { th.writeGuard || InScan(th.pc) || th.pc.OpenGate? }

  predicate WriterPc(pc: Pc) {
    pc.CloseGate? || InScan(pc) || pc.OpenGate? || Waker(pc) || pc.UnlockNotify? || pc.UnlockSerial?
  }

  predicate HoldsWaiters(pc: Pc) {
    pc.RecheckGate? || pc.EnterWait? || pc.UnlockWaiters? || pc.NotifyAll? || pc.UnlockNotify?
  }

  predicate Sleepy(pc: Pc) { pc.EnterWait? || pc.Parked? }

  predicate NoGuards(th: Thread) { th.localGuards == 0 && th.sharedGuards == 0 }

  /** Total shared reservations of the threads whose slot is `i`. */
  function SharedTotal(threads: seq<Thread>, i: nat): nat {
    if threads == [] then 0
    else
      var last := threads[|threads| - 1];
      SharedTotal(threads[..|threads| - 1], i) + if last.home == i then SharedOf(last) else 0
  }

  function WaitingTotal(threads: seq<Thread>): nat {
    if threads == [] then 0
    else WaitingTotal(threads[..|threads| - 1]) + WaitingOf(threads[|threads| - 1])
  }

  lemma {:induction false} SharedTotalUpdate(threads: seq<Thread>, i: nat, t: nat, th: Thread)
    requires t < |threads| && th.home == threads[t].home
    ensures SharedTotal(threads[t := th], i)
         == SharedTotal(threads, i) + if th.home == i then SharedOf(th) - SharedOf(threads[t]) else 0
    ensures th.home == i ==> SharedOf(threads[t]) <= SharedTotal(threads, i)
    decreases |threads|
  {
    var n := |threads| - 1;
    if t == n {
      assert threads[t := th][..n] == threads[..n];
    } else {
      assert threads[t := th][..n] == threads[..n][t := th];
      SharedTotalUpdate(threads[..n], i, t, th);
    }
  }

  lemma {:induction false} WaitingTotalUpdate(threads: seq<Thread>, t: nat, th: Thread)
    requires t < |threads|
    ensures WaitingTotal(threads[t := th]) == WaitingTotal(threads) + WaitingOf(th) - WaitingOf(threads[t])
    ensures WaitingOf(threads[t]) <= WaitingTotal(threads)
    decreases |threads|
  {
    var n := |threads| - 1;
    if t == n {
      assert threads[t := th][..n] == threads[..n];
    } else {
      assert threads[t := th][..n] == threads[..n][t := th];
      WaitingTotalUpdate(threads[..n], t, th);
    }
  }

  /** Waking the parked threads changes neither total. */
  lemma {:induction false} WakeAllTotals(threads: seq<Thread>, i: nat)
    ensures SharedTotal(WakeAll(threads), i) == SharedTotal(threads, i)
    ensures WaitingTotal(WakeAll(threads)) == WaitingTotal(threads)
    decreases |threads|
  {
    if threads != [] {
      var n := |threads| - 1;
      assert WakeAll(threads)[..n] == WakeAll(threads[..n]);
      WakeAllTotals(threads[..n], i);
    }
  }

  // ---- The inductive invariant ----------------------------------------------

  /** How a thread and its slot agree: the owner's plain-store count loses no update. */
  predicate Linked(t: nat, th: Thread, slot: Slot) {
    && (LocalOf(th) > 0 || th.pc.LoadLocal? || th.pc.StoreLocal? ==> slot.owner == t + 1)
    && (th.pc.StoreLocal? || th.pc.ReleaseStore? ==> th.pc.count == slot.local)
    && (slot.owner == t + 1 ==> slot.local == LocalOf(th))
    && (slot.owner == 0 ==> slot.local == 0)
    && SharedOf(th) <= slot.shared
  }

  ghost predicate ReaderOk(s: State, t: nat)
    requires t < |s.threads| && s.threads[t].home < |s.slots|
  {
    var th := s.threads[t];
    && Linked(t, th, s.slots[th.home])
    && (SharedOf(th) > 0 || th.pc.AddShared? || th.pc.ClaimOwner? ==> th.home in s.bits)
  }

  /** A slot in use is in the bitmap, and its shared count is exact. */
  ghost predicate SlotOk(s: State, i: nat)
    requires i < |s.slots|
  {
    var slot := s.slots[i];
    && slot.shared == SharedTotal(s.threads, i)
    && (slot.owner == 0 ==> slot.local == 0)
    && (slot.owner != 0 ==> slot.owner - 1 < |s.threads| && s.threads[slot.owner - 1].home == i && i in s.bits)
  }

  predicate MutexOk(c: Control, t: nat, th: Thread) {
    && (c.serial == Some(t) <==> th.writeGuard || WriterPc(th.pc))
    && !(th.writeGuard && WriterPc(th.pc))
    && (c.waiters == Some(t) <==> HoldsWaiters(th.pc))
    && (KeepsClosed(th) ==> c.closed)
  }

  /** The slots that the scan at `pc` has already passed, for local or for shared guards. */
  predicate Passed(pc: Pc, i: nat, local: bool) {
    match pc
    case ScanWord(_, g) => i / WORD_BITS < g
    case ScanLocal(_, g, used) => i / WORD_BITS < g || (i / WORD_BITS == g && i !in used)
    case ScanShared(_, g, used) =>
      i / WORD_BITS < g || (i / WORD_BITS == g && (i !in used || (local && i == Lowest(used))))
    case _ => false
  }

  /** No guard is left in a slot the writer has passed, and none at all once it is admitted. */
  predicate ScanOk(writer: Thread, th: Thread) {
    && (writer.writeGuard ==> NoGuards(th))
    && (Passed(writer.pc, th.home, true) ==> th.localGuards == 0)
    && (Passed(writer.pc, th.home, false) ==> th.sharedGuards == 0)
  }

  predicate WordOk(slotCount: nat, pc: Pc) {
    match pc
    case ScanWord(_, g) => g <= GroupCount(slotCount)
    case ScanLocal(_, g, used) => g < GroupCount(slotCount) && used != {} && forall i | i in used :: i < slotCount && i / WORD_BITS == g
    case ScanShared(_, g, used) => g < GroupCount(slotCount) && used != {} && forall i | i in used :: i < slotCount && i / WORD_BITS == g
    case _ => true
  }

  predicate WakeupPending(s: State) {
    s.control.serial.Some? && s.control.serial.value < |s.threads| && Waker(s.threads[s.control.serial.value].pc)
  }

  ghost predicate ReadersOk(s: State) {
    && HomesOk(s)
    && (forall i | i in s.bits :: i < |s.slots|)
    && (forall i | 0 <= i < |s.slots| :: SlotOk(s, i))
    && (forall t | 0 <= t < |s.threads| :: ReaderOk(s, t))
  }

  ghost predicate ScansOk(s: State) {
    && (forall t | 0 <= t < |s.threads| :: WordOk(|s.slots|, s.threads[t].pc))
    && (forall w, u | 0 <= w < |s.threads| && 0 <= u < |s.threads| :: ScanOk(s.threads[w], s.threads[u]))
  }

  ghost predicate ControlOk(s: State) {
    var c := s.control;
    && (c.serial.Some? ==> c.serial.value < |s.threads|)
    && (c.waiters.Some? ==> c.waiters.value < |s.threads|)
    && (c.closed ==> c.serial.Some? && KeepsClosed(s.threads[c.serial.value]))
    && c.waiting == WaitingTotal(s.threads)
    && (forall t | 0 <= t < |s.threads| :: MutexOk(c, t, s.threads[t]))
    && (forall t | 0 <= t < |s.threads| && Sleepy(s.threads[t].pc) :: c.closed || WakeupPending(s))
  }

  ghost predicate Inv(s: State) { ReadersOk(s) && ScansOk(s) && ControlOk(s) }

  // ---- Local effects of a step -------------------------------------------------

  /** A reader step keeps a thread and its slot in agreement, moves the shared count by
      the change of the thread's own share, and never disturbs another owner. */
  lemma ReadEffect(t: nat, th: Thread, slot: Slot, closed: bool)
    requires InRead(th.pc) && Linked(t, th, slot)
    ensures var (th', slot') := ReadStep(t, th, slot, closed);
      && Linked(t, th', slot')
      && slot'.shared == slot.shared + SharedOf(th') - SharedOf(th)
      && slot'.owner == (if th.pc.ClaimOwner? && slot.owner == 0 then t + 1 else slot.owner)
      && (slot'.owner != t + 1 ==> slot'.local == slot.local)
  {
  }

  /** The thread plays the same part in the gate, mutex and wakeup protocols, and gains
      no guard behind a closed gate. */
  predicate SameRole(th: Thread, th': Thread, closed: bool) {
    && th'.home == th.home && th'.writeGuard == th.writeGuard
    && !WriterPc(th.pc) && !WriterPc(th'.pc)
    && !HoldsWaiters(th.pc) && !HoldsWaiters(th'.pc)
    && WaitingOf(th) == 0 && WaitingOf(th') == 0
    && (closed ==> th'.localGuards <= th.localGuards && th'.sharedGuards <= th.sharedGuards)
  }

  lemma ReadRole(t: nat, th: Thread, slot: Slot, closed: bool)
    requires InRead(th.pc)
    ensures SameRole(th, ReadStep(t, th, slot, closed).0, closed)
  {
  }

  predicate Updates(s: State, s': State, t: nat)
    requires t < |s.threads|
  {
    |s'.slots| == |s.slots| && |s'.threads| == |s.threads| && s'.threads == s.threads[t := s'.threads[t]]
    && s'.threads[t].home == s.threads[t].home
  }

  lemma RoleControl(s: State, s': State, t: nat)
    requires t < |s.threads| && Updates(s, s', t) && s'.control == s.control
    requires SameRole(s.threads[t], s'.threads[t], s.control.closed)
    requires ControlOk(s)
    ensures ControlOk(s')
  {
    WaitingTotalUpdate(s.threads, t, s'.threads[t]);
    forall u | 0 <= u < |s.threads| ensures MutexOk(s'.control, u, s'.threads[u]) {
      assert MutexOk(s.control, u, s.threads[u]);
    }
  }

  /** Guards appear only behind an open gate, where no writer is scanning or admitted. */
  lemma RoleScans(s: State, s': State, t: nat)
    requires t < |s.threads| && Updates(s, s', t) && s'.control == s.control
    requires SameRole(s.threads[t], s'.threads[t], s.control.closed)
    requires ControlOk(s) && ScansOk(s)
    ensures ScansOk(s')
  {
    forall w, u | 0 <= w < |s.threads| && 0 <= u < |s.threads| ensures ScanOk(s'.threads[w], s'.threads[u]) {
      assert ScanOk(s.threads[w], s.threads[u]) && MutexOk(s.control, w, s.threads[w]);
    }
    forall u | 0 <= u < |s.threads| ensures WordOk(|s'.slots|, s'.threads[u].pc) {
      assert WordOk(|s.slots|, s.threads[u].pc);
    }
  }

  /** What the slot side of the invariant needs to know about a reader's step. */
  ghost predicate Accounted(s: State, s': State, t: nat)
    requires t < |s.threads| && s.threads[t].home < |s.slots| && Updates(s, s', t)
  {
    var i := s.threads[t].home;
    var slot, slot' := s.slots[i], s'.slots[i];
    && s'.slots == s.slots[i := slot']
    && s.bits <= s'.bits <= s.bits + {i}
    && Linked(t, s'.threads[t], slot')
    && slot'.shared == slot.shared + SharedOf(s'.threads[t]) - SharedOf(s.threads[t])
    && (slot'.owner == slot.owner || (slot.owner == 0 && slot'.owner == t + 1))
    && (slot'.owner != t + 1 ==> slot'.local == slot.local)
    && (slot'.owner != 0 ==> i in s'.bits)
    && (SharedOf(s'.threads[t]) > 0 || s'.threads[t].pc.AddShared? || s'.threads[t].pc.ClaimOwner? ==> i in s'.bits)
  }

  lemma AccountedSlots(s: State, s': State, t: nat)
    requires ReadersOk(s) && t < |s.threads| && Updates(s, s', t) && Accounted(s, s', t)
    ensures forall j | 0 <= j < |s'.slots| :: SlotOk(s', j)
  {
    forall j | 0 <= j < |s.slots| ensures SlotOk(s', j) {
      assert SlotOk(s, j);
      SharedTotalUpdate(s.threads, j, t, s'.threads[t]);
    }
  }

  lemma AccountedReaders(s: State, s': State, t: nat)
    requires ReadersOk(s) && t < |s.threads| && Updates(s, s', t) && Accounted(s, s', t)
    ensures ReadersOk(s')
  {
    AccountedSlots(s, s', t);
    forall u | 0 <= u < |s.threads| ensures ReaderOk(s', u) {
      assert ReaderOk(s, u) && SlotOk(s', s.threads[u].home);
      SharedTotalUpdate(s'.threads, s.threads[u].home, u, s'.threads[u]);
    }
  }

  lemma ReadAccounted(s: State, t: nat, op: Op)
    requires ReadersOk(s) && t < |s.threads| && InRead(s.threads[t].pc)
    ensures Updates(s, Step(s, t, op), t) && Accounted(s, Step(s, t, op), t)
  {
    var i := s.threads[t].home;
    assert ReaderOk(s, t) && SlotOk(s, i);
    ReadEffect(t, s.threads[t], s.slots[i], s.control.closed);
  }

  lemma ReadKeeps(s: State, t: nat, op: Op)
    requires Inv(s) && t < |s.threads| && InRead(s.threads[t].pc)
    ensures Inv(Step(s, t, op))
  {
    var s' := Step(s, t, op);
    ReadAccounted(s, t, op);
    ReadRole(t, s.threads[t], s.slots[s.threads[t].home], s.control.closed);
    AccountedReaders(s, s', t);
    RoleControl(s, s', t);
    RoleScans(s, s', t);
  }

  // ---- Steps on the control words ----------------------------------------------

  /** The step leaves the thread's reservations as they are. */
  predicate Steady(th: Thread, th': Thread) {
    && th'.home == th.home && LocalOf(th') == LocalOf(th) && SharedOf(th') == SharedOf(th)
    && !th'.pc.LoadLocal? && !th'.pc.StoreLocal? && !th'.pc.ReleaseStore? && !th'.pc.AddShared? && !th'.pc.ClaimOwner?
  }

  lemma SteadyReaders(s: State, s': State, t: nat)
    requires ReadersOk(s) && t < |s.threads| && Updates(s, s', t) && Steady(s.threads[t], s'.threads[t])
    requires s'.slots == s.slots && s'.bits == s.bits
    ensures ReadersOk(s')
  {
    var i := s.threads[t].home;
    assert ReaderOk(s, t) && SlotOk(s, i);
    assert s'.slots == s.slots[i := s'.slots[i]];
    AccountedReaders(s, s', t);
  }

  /** How a step may move the control words: a thread takes a free mutex or gives up
      its own, only the writer moves the gate, and a promised wakeup stays promised
      until nobody waits or everybody has been notified. */
  predicate ControlMove(t: nat, th: Thread, c: Control, th': Thread, c': Control) {
    && MutexOk(c', t, th')
    && c'.waiting == c.waiting + WaitingOf(th') - WaitingOf(th)
    && (c'.serial == c.serial || (c.serial.None? && c'.serial == Some(t)) || (c.serial == Some(t) && c'.serial.None?))
    && (c'.waiters == c.waiters || (c.waiters.None? && c'.waiters == Some(t)) || (c.waiters == Some(t) && c'.waiters.None?))
    && (c'.closed != c.closed ==> c.serial == Some(t) && c'.serial == Some(t))
    && (c'.closed && c'.serial == Some(t) ==> KeepsClosed(th'))
    && (c.serial == Some(t) && c'.serial.None? ==> !c'.closed)
    && (Sleepy(th'.pc) ==> c'.closed || Sleepy(th.pc))
    && (c.serial == Some(t) && (c.closed || Waker(th.pc)) ==>
          c'.closed || (c'.serial == Some(t) && Waker(th'.pc)) || (th.pc.LoadWaiting? && c.waiting == 0) || th.pc.NotifyAll?)
  }

  lemma WaiterEffect(t: nat, th: Thread, op: Op, c: Control)
    requires !th.pc.Idle? && !InRead(th.pc) && !WriterPc(th.pc)
    requires MutexOk(c, t, th) && WaitingOf(th) <= c.waiting
    requires c.closed ==> c.serial.Some?
    requires c.closed && c.serial == Some(t) ==> KeepsClosed(th)
    ensures var (th', c') := ControlStep(t, th, op, c); ControlMove(t, th, c, th', c')
  {
  }

  lemma WriterEffect(t: nat, th: Thread, op: Op, c: Control)
    requires WriterPc(th.pc) && !InScan(th.pc)
    requires MutexOk(c, t, th)
    requires c.closed && c.serial == Some(t) ==> KeepsClosed(th)
    ensures var (th', c') := ControlStep(t, th, op, c); ControlMove(t, th, c, th', c')
  {
  }

  lemma StartEffect(t: nat, th: Thread, op: Op, c: Control)
    requires th.pc.Idle? && MutexOk(c, t, th)
    requires c.closed ==> c.serial.Some?
    requires c.closed && c.serial == Some(t) ==> KeepsClosed(th)
    ensures var (th', c') := Start(t, th, op, c); ControlMove(t, th, c, th', c')
  {
  }

  lemma ScanEffect(t: nat, th: Thread, slots: seq<Slot>, bits: set<nat>, c: Control)
    requires InScan(th.pc) && MutexOk(c, t, th)
    ensures ControlMove(t, th, c, ScanStep(th, slots, bits), c) && Steady(th, ScanStep(th, slots, bits))
  {
  }

  lemma MovedControl(s: State, s': State, t: nat)
    requires ControlOk(s) && t < |s.threads| && Updates(s, s', t)
    requires ControlMove(t, s.threads[t], s.control, s'.threads[t], s'.control)
    requires s.threads[t].pc.NotifyAll? ==> forall u | 0 <= u < |s.threads| :: !Sleepy(s.threads[u].pc)
    ensures ControlOk(s')
  {
    WaitingTotalUpdate(s.threads, t, s'.threads[t]);
    assert MutexOk(s.control, t, s.threads[t]);
    forall u | 0 <= u < |s.threads| ensures MutexOk(s'.control, u, s'.threads[u]) {
      assert MutexOk(s.control, u, s.threads[u]);
    }
    forall u | 0 <= u < |s.threads| && Sleepy(s'.threads[u].pc) ensures s'.control.closed || WakeupPending(s') {
      if Sleepy(s.threads[u].pc) {
        WaitingTotalUpdate(s.threads, u, s.threads[u]);
      }
    }
  }

  /** The step neither scans on, nor admits a writer, nor adds guards. */
  predicate Passive(th: Thread, th': Thread) {
    && th'.home == th.home && th'.localGuards <= th.localGuards && th'.sharedGuards <= th.sharedGuards
    && (th'.writeGuard ==> th.writeGuard)
    && (InScan(th'.pc) ==> th'.pc.ScanWord? && th'.pc.group == 0)
  }

  lemma ControlIsPassive(t: nat, th: Thread, op: Op, c: Control)
    requires !th.pc.Idle? && !InRead(th.pc) && !InScan(th.pc)
    ensures Steady(th, ControlStep(t, th, op, c).0) && Passive(th, ControlStep(t, th, op, c).0)
  {
  }

  lemma StartIsPassive(t: nat, th: Thread, op: Op, c: Control)
    requires th.pc.Idle?
    ensures Steady(th, Start(t, th, op, c).0) && Passive(th, Start(t, th, op, c).0)
  {
  }

  lemma PassiveScans(s: State, s': State, t: nat)
    requires ScansOk(s) && t < |s.threads| && Updates(s, s', t) && Passive(s.threads[t], s'.threads[t])
    ensures ScansOk(s')
  {
    forall w, u | 0 <= w < |s.threads| && 0 <= u < |s.threads| ensures ScanOk(s'.threads[w], s'.threads[u]) {
      assert ScanOk(s.threads[w], s.threads[u]);
    }
    forall u | 0 <= u < |s.threads| ensures WordOk(|s'.slots|, s'.threads[u].pc) {
      assert WordOk(|s.slots|, s.threads[u].pc);
    }
  }

  // ---- The writer's scan ---------------------------------------------------------

  /** A slot outside the bitmap, or with a zero count, has no guard of that kind. */
  lemma ZeroMeansNoGuard(s: State, u: nat)
    requires ReadersOk(s) && u < |s.threads|
    ensures var th := s.threads[u]; var slot := s.slots[th.home];
      && (th.home !in s.bits ==> NoGuards(th))
      && (slot.local == 0 ==> th.localGuards == 0)
      && (slot.shared == 0 ==> th.sharedGuards == 0)
  {
    assert ReaderOk(s, u) && SlotOk(s, s.threads[u].home);
  }

  /** One load of the scan extends the passed region only over guard-free slots. */
  lemma ScanAdvances(s: State, th: Thread, u: nat)
    requires ReadersOk(s) && u < |s.threads| && InScan(th.pc)
    requires WordOk(|s.slots|, th.pc) && ScanOk(th, s.threads[u])
    ensures ScanOk(ScanStep(th, s.slots, s.bits), s.threads[u])
  {
    ZeroMeansNoGuard(s, u);
    var home := s.threads[u].home;
    assert home / WORD_BITS < GroupCount(|s.slots|);
    match th.pc
    case ScanWord(once, g) =>
      var word := set i | i in s.bits && i / WORD_BITS == g;
      assert home in word <==> home in s.bits && home / WORD_BITS == g;
    case ScanLocal(once, g, used) =>
    case ScanShared(once, g, used) =>
  }

  lemma ScanWords(s: State, th: Thread)
    requires ReadersOk(s) && InScan(th.pc) && WordOk(|s.slots|, th.pc)
    ensures WordOk(|s.slots|, ScanStep(th, s.slots, s.bits).pc)
  {
  }

  lemma ScanKeepsScans(s: State, s': State, t: nat)
    requires ReadersOk(s) && ScansOk(s) && t < |s.threads| && InScan(s.threads[t].pc) && !s.threads[t].writeGuard
    requires Updates(s, s', t) && s'.threads[t] == ScanStep(s.threads[t], s.slots, s.bits)
    ensures ScansOk(s')
  {
    var th := s.threads[t];
    forall w, u | 0 <= w < |s.threads| && 0 <= u < |s.threads| ensures ScanOk(s'.threads[w], s'.threads[u]) {
      assert ScanOk(s.threads[w], s.threads[u]);
      if w == t {
        ScanAdvances(s, th, u);
      }
      assert s'.threads[u].home == s.threads[u].home && s'.threads[u].localGuards == s.threads[u].localGuards;
    }
    ScanWords(s, th);
    forall u | 0 <= u < |s.threads| ensures WordOk(|s'.slots|, s'.threads[u].pc) {
      assert WordOk(|s.slots|, s.threads[u].pc);
    }
  }

  // ---- Notification ----------------------------------------------------------------

  lemma WakeReaders(s: State)
    requires ReadersOk(s)
    ensures ReadersOk(s.(threads := WakeAll(s.threads)))
  {
    var s' := s.(threads := WakeAll(s.threads));
    forall i | 0 <= i < |s.slots| ensures SlotOk(s', i) {
      assert SlotOk(s, i);
      WakeAllTotals(s.threads, i);
    }
    forall u | 0 <= u < |s.threads| ensures ReaderOk(s', u) {
      assert ReaderOk(s, u);
    }
  }

  lemma WakeScans(s: State)
    requires ScansOk(s)
    ensures ScansOk(s.(threads := WakeAll(s.threads)))
  {
    var s' := s.(threads := WakeAll(s.threads));
    forall w, u | 0 <= w < |s.threads| && 0 <= u < |s.threads| ensures ScanOk(s'.threads[w], s'.threads[u]) {
      assert ScanOk(s.threads[w], s.threads[u]);
    }
    forall u | 0 <= u < |s.threads| ensures WordOk(|s'.slots|, s'.threads[u].pc) {
      assert WordOk(|s.slots|, s.threads[u].pc);
    }
  }

  /** Notifying under the waiter mutex leaves nobody asleep. */
  lemma WakeControl(s: State, t: nat)
    requires ControlOk(s) && t < |s.threads| && s.threads[t].pc.NotifyAll?
    ensures var s' := s.(threads := WakeAll(s.threads));
      ControlOk(s') && forall u | 0 <= u < |s'.threads| :: !Sleepy(s'.threads[u].pc)
  {
    var s' := s.(threads := WakeAll(s.threads));
    WakeAllTotals(s.threads, 0);
    assert MutexOk(s.control, t, s.threads[t]);
    forall u | 0 <= u < |s.threads| ensures MutexOk(s'.control, u, s'.threads[u]) && !Sleepy(s'.threads[u].pc) {
      assert MutexOk(s.control, u, s.threads[u]);
    }
  }

  // ---- Every step, every schedule ----------------------------------------------------

  lemma MovedKeeps(s: State, s': State, t: nat)
    requires Inv(s) && t < |s.threads| && Updates(s, s', t)
    requires Steady(s.threads[t], s'.threads[t]) && Passive(s.threads[t], s'.threads[t])
    requires ControlMove(t, s.threads[t], s.control, s'.threads[t], s'.control)
    requires s.threads[t].pc.NotifyAll? ==> forall u | 0 <= u < |s.threads| :: !Sleepy(s.threads[u].pc)
    requires s'.slots == s.slots && s'.bits == s.bits
    ensures Inv(s')
  {
    SteadyReaders(s, s', t);
    PassiveScans(s, s', t);
    MovedControl(s, s', t);
  }

  lemma StepKeeps(s: State, t: nat, op: Op)
    requires Inv(s) && t < |s.threads|
    ensures Inv(Step(s, t, op))
  {
    var th := s.threads[t];
    var c := s.control;
    assert MutexOk(c, t, th);
    if th.pc.Idle? {
      StartEffect(t, th, op, c);
      StartIsPassive(t, th, op, c);
      MovedKeeps(s, Step(s, t, op), t);
    } else if InRead(th.pc) {
      ReadKeeps(s, t, op);
    } else if InScan(th.pc) {
      var s' := Step(s, t, op);
      ScanEffect(t, th, s.slots, s.bits, c);
      SteadyReaders(s, s', t);
      ScanKeepsScans(s, s', t);
      MovedControl(s, s', t);
    } else {
      ControlStepKeeps(s, t, op);
    }
  }

  lemma ControlStepKeeps(s: State, t: nat, op: Op)
    requires Inv(s) && t < |s.threads|
    requires var pc := s.threads[t].pc; !pc.Idle? && !InRead(pc) && !InScan(pc)
    ensures Inv(Step(s, t, op))
  {
    var th := s.threads[t];
    var c := s.control;
    WaitingTotalUpdate(s.threads, t, th);
    assert MutexOk(c, t, th);
    ControlIsPassive(t, th, op, c);
    if WriterPc(th.pc) {
      WriterEffect(t, th, op, c);
    } else {
      WaiterEffect(t, th, op, c);
    }
    if th.pc.NotifyAll? {
      WakeReaders(s);
      WakeScans(s);
      WakeControl(s, t);
      MovedKeeps(s.(threads := WakeAll(s.threads)), Step(s, t, op), t);
    } else {
      MovedKeeps(s, Step(s, t, op), t);
    }
  }

  lemma {:induction false} InitTotals(threads: seq<Thread>, i: nat)
    requires forall t | 0 <= t < |threads| :: threads[t].pc.Idle? && NoGuards(threads[t])
    ensures SharedTotal(threads, i) == 0 && WaitingTotal(threads) == 0
    decreases |threads|
  {
    if threads != [] {
      InitTotals(threads[..|threads| - 1], i);
    }
  }

  lemma InitHolds(slotCount: nat, threadCount: nat)
    requires slotCount > 0
    ensures Inv(Init(slotCount, threadCount))
  {
    var s := Init(slotCount, threadCount);
    forall i | 0 <= i < |s.slots| ensures SlotOk(s, i) {
      InitTotals(s.threads, i);
    }
    InitTotals(s.threads, 0);
    assert forall t | 0 <= t < |s.threads| :: ReaderOk(s, t) && MutexOk(s.control, t, s.threads[t]);
  }

  lemma {:induction false} ReachableInv(slotCount: nat, threadCount: nat, schedule: seq<(nat, Op)>)
    requires slotCount > 0
    ensures HomesOk(Init(slotCount, threadCount)) && Inv(Run(Init(slotCount, threadCount), schedule))
    decreases |schedule|
  {
    InitHolds(slotCount, threadCount);
    if schedule != [] {
      var n := |schedule| - 1;
      ReachableInv(slotCount, threadCount, schedule[..n]);
      var before := Run(Init(slotCount, threadCount), schedule[..n]);
      if schedule[n].0 < |before.threads| {
        StepKeeps(before, schedule[n].0, schedule[n].1);
      }
    }
  }

  predicate Excludes(s: State) {
    forall w, u | 0 <= w < |s.threads| && 0 <= u < |s.threads| && s.threads[w].writeGuard ::
      NoGuards(s.threads[u]) && (s.threads[u].writeGuard ==> u == w)
  }

  /** Mutual exclusion: in every schedule of any number of threads over any number of
      slots, a write guard coexists with no read guard and no other write guard. */
  lemma MutualExclusion(slotCount: nat, threadCount: nat, schedule: seq<(nat, Op)>)
    requires slotCount > 0
    ensures HomesOk(Init(slotCount, threadCount)) && Excludes(Run(Init(slotCount, threadCount), schedule))
  {
    ReachableInv(slotCount, threadCount, schedule);
    var s := Run(Init(slotCount, threadCount), schedule);
    forall w, u | 0 <= w < |s.threads| && 0 <= u < |s.threads| && s.threads[w].writeGuard
      ensures NoGuards(s.threads[u]) && (s.threads[u].writeGuard ==> u == w)
    {
      assert ScanOk(s.threads[w], s.threads[u]);
      assert MutexOk(s.control, w, s.threads[w]) && MutexOk(s.control, u, s.threads[u]);
    }
  }

  /** No lost wakeup: whenever a reader is parked, the gate is still closed by a writer,
      or the writer that reopened it is about to check interest or notify and is bound to
      see it, since `waiting` counts every parked reader. */
  lemma NoLostWakeup(slotCount: nat, threadCount: nat, schedule: seq<(nat, Op)>, t: nat)
    requires slotCount > 0
    requires HomesOk(Init(slotCount, threadCount))
    requires t < threadCount && Run(Init(slotCount, threadCount), schedule).threads[t].pc.Parked?
    ensures var s := Run(Init(slotCount, threadCount), schedule);
      && s.control.waiting > 0
      && s.control.serial.Some? && s.control.serial.value < |s.threads|
      && var writer := s.threads[s.control.serial.value];
         if s.control.closed then KeepsClosed(writer) else Waker(writer.pc)
  {
    ReachableInv(slotCount, threadCount, schedule);
    var s := Run(Init(slotCount, threadCount), schedule);
    WaitingTotalUpdate(s.threads, t, s.threads[t]);
  }

  /** The slot's counts are its live reservations. */
  ghost predicate ExactCounts(s: State, i: nat)
    requires i < |s.slots|
  {
    var slot := s.slots[i];
    && slot.shared == SharedTotal(s.threads, i)
    && slot.owner <= |s.threads|
    && slot.local == if slot.owner == 0 then 0 else LocalOf(s.threads[slot.owner - 1])
  }

  lemma CountsFollow(s: State, i: nat)
    requires ReadersOk(s) && i < |s.slots|
    ensures ExactCounts(s, i)
  {
    assert SlotOk(s, i);
    if s.slots[i].owner != 0 {
      assert ReaderOk(s, s.slots[i].owner - 1);
    }
  }

  /** Each slot's counts equal its live reservations: the owner's plain stores lose no
      update and no count ever wraps. */
  lemma CountsAreExact(slotCount: nat, threadCount: nat, schedule: seq<(nat, Op)>, i: nat)
    requires slotCount > 0 && i < slotCount
    ensures HomesOk(Init(slotCount, threadCount)) && ExactCounts(Run(Init(slotCount, threadCount), schedule), i)
  {
    ReachableInv(slotCount, threadCount, schedule);
    CountsFollow(Run(Init(slotCount, threadCount), schedule), i);
  }

  predicate Quiescent(s: State) {
    forall t | 0 <= t < |s.threads| :: s.threads[t].pc.Idle? && NoGuards(s.threads[t]) && !s.threads[t].writeGuard
  }

  /** Nothing is left behind: whatever was admitted, refused or retried before, once every
      guard is dropped the gate is open, both mutexes are free, nobody is counted as
      waiting, and every slot count is back at zero. */
  lemma QuiescentIsClean(slotCount: nat, threadCount: nat, schedule: seq<(nat, Op)>)
    requires slotCount > 0
    requires HomesOk(Init(slotCount, threadCount)) && Quiescent(Run(Init(slotCount, threadCount), schedule))
    ensures var s := Run(Init(slotCount, threadCount), schedule);
      && s.control == Control(false, None, None, 0)
      && forall i | 0 <= i < |s.slots| :: s.slots[i].local == 0 && s.slots[i].shared == 0
  {
    ReachableInv(slotCount, threadCount, schedule);
    var s := Run(Init(slotCount, threadCount), schedule);
    InitTotals(s.threads, 0);
    forall t | 0 <= t < |s.threads| ensures s.control.serial != Some(t) && s.control.waiters != Some(t) {
      assert MutexOk(s.control, t, s.threads[t]);
    }
    forall i | 0 <= i < |s.slots| ensures s.slots[i].local == 0 && s.slots[i].shared == 0 {
      InitTotals(s.threads, i);
      assert SlotOk(s, i);
      if s.slots[i].owner != 0 {
        assert ReaderOk(s, s.slots[i].owner - 1);
      }
    }
  }
}
