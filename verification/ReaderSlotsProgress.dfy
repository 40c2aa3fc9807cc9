/** What the reader-slot lock grants: a thread that runs alone from any reachable state gets
    the guard it asks for, or is refused for a reason that is really there. */
module ReaderSlotsProgress {
  import opened Prelude
  import opened ReaderSlots
  import opened ReaderSlotsSafety

  /** Thread `t` starts an operation and then takes `n` more steps, with nobody else running. */
  function Alone(t: nat, op: Op, n: nat): seq<(nat, Op)> { [(t, op)] + seq(n, _ => (t, Continue)) }

  /** A published slot with a reservation in it. */
  predicate InUse(s: State, i: nat) {
    i in s.bits && i < |s.slots| && (s.slots[i].local != 0 || s.slots[i].shared != 0)
  }

  predicate Unused(s: State) { forall i | 0 <= i < |s.slots| :: s.slots[i].local == 0 && s.slots[i].shared == 0 }

  // ---- Running alone ---------------------------------------------------------------------

  /** `n` steps of one thread. */
  function Solo(s: State, t: nat, n: nat): (r: State)
    requires HomesOk(s) && t < |s.threads|
    ensures HomesOk(r) && |r.slots| == |s.slots| && |r.threads| == |s.threads|
    decreases n
  {
    if n == 0 then s
    else
      StepShape(s, t, Continue);
      Solo(Step(s, t, Continue), t, n - 1)
  }

  lemma {:induction false} SoloThen(s: State, t: nat, m: nat, n: nat)
    requires HomesOk(s) && t < |s.threads|
    ensures Solo(s, t, m + n) == Solo(Solo(s, t, m), t, n)
    decreases m
  {
    if m > 0 {
      StepShape(s, t, Continue);
      SoloThen(Step(s, t, Continue), t, m - 1, n);
    }
  }

  lemma {:induction false} AloneIsSolo(s: State, t: nat, op: Op, n: nat)
    requires HomesOk(s) && t < |s.threads|
    ensures HomesOk(Step(s, t, op)) && t < |Step(s, t, op).threads|
    ensures Run(s, Alone(t, op, n)) == Solo(Step(s, t, op), t, n)
    decreases n
  {
    StepShape(s, t, op);
    if n == 0 {
      assert Alone(t, op, 0) == [(t, op)] && [(t, op)][..0] == [];
    } else {
      AloneIsSolo(s, t, op, n - 1);
      var schedule := Alone(t, op, n);
      assert schedule[..n] == Alone(t, op, n - 1) && schedule[n] == (t, Continue);
      SoloThen(Step(s, t, op), t, n - 1, 1);
      var before := Solo(Step(s, t, op), t, n - 1);
      assert Solo(before, t, 1) == Step(before, t, Continue);
    }
  }

  // ---- The writer's scan, alone ---------------------------------------------------------------

  /** Nothing the scan at `pc` has yet to look at is in use. */
  ghost predicate AheadIsFree(s: State, pc: Pc) {
    match pc
    case ScanWord(_, g) => forall i | i in s.bits && i / WORD_BITS >= g :: !InUse(s, i)
    case ScanLocal(_, g, used) =>
      (forall i | i in used :: !InUse(s, i)) && forall i | i in s.bits && i / WORD_BITS > g :: !InUse(s, i)
    case ScanShared(_, g, used) =>
      && used != {} && Lowest(used) < |s.slots| && s.slots[Lowest(used)].shared == 0
      && (forall i | i in used && i != Lowest(used) :: !InUse(s, i))
      && (forall i | i in s.bits && i / WORD_BITS > g :: !InUse(s, i))
    case _ => false
  }

  /** Where a lone scan ends. */
  function Verdict(th: Thread, free: bool): Thread {
    if free then th.(pc := Idle, writeGuard := true) else th.(pc := OpenGate)
  }

  predicate Published(s: State, pc: Pc) {
    match pc
    case ScanLocal(_, g, used) => used <= s.bits
    case ScanShared(_, g, used) => used <= s.bits
    case _ => true
  }

  predicate Scanning(s: State, th: Thread) {
    InScan(th.pc) && WordOk(|s.slots|, th.pc) && Published(s, th.pc) && forall i | i in s.bits :: i < |s.slots|
  }

  lemma WordDecides(s: State, th: Thread, once: bool, g: nat)
    requires Scanning(s, th) && th.pc == ScanWord(once, g)
    ensures var th' := ScanStep(th, s.slots, s.bits);
      if g >= GroupCount(|s.slots|) then AheadIsFree(s, th.pc) && th' == Verdict(th, true)
      else InScan(th'.pc) && th'.pc != ScanWord(false, 0) && Scanning(s, th') && th' == th.(pc := th'.pc) && th'.pc.once == once
           && (AheadIsFree(s, th'.pc) <==> AheadIsFree(s, th.pc))
  {
    var word := set i | i in s.bits && i / WORD_BITS == g;
    forall i | i in s.bits ensures i / WORD_BITS < GroupCount(|s.slots|) {
      assert i < |s.slots|;
    }
    assert forall i | i in s.bits && i / WORD_BITS >= g :: i in word || i / WORD_BITS > g;
  }

  lemma LocalDecides(s: State, th: Thread, once: bool, g: nat, used: set<nat>)
    requires Scanning(s, th) && th.pc == ScanLocal(once, g, used)
    ensures var th' := ScanStep(th, s.slots, s.bits);
      if s.slots[Lowest(used)].local != 0 then !AheadIsFree(s, th.pc) && th' == th.(pc := ScanFailed(once))
      else th'.pc == ScanShared(once, g, used) && Scanning(s, th') && th' == th.(pc := th'.pc)
           && (AheadIsFree(s, th'.pc) <==> AheadIsFree(s, th.pc))
  {
    var low := Lowest(used);
    assert low in used;
    assert InUse(s, low) <==> s.slots[low].local != 0 || s.slots[low].shared != 0;
  }

  lemma SharedDecides(s: State, th: Thread, once: bool, g: nat, used: set<nat>)
    requires Scanning(s, th) && th.pc == ScanShared(once, g, used)
    ensures var th' := ScanStep(th, s.slots, s.bits);
      if s.slots[Lowest(used)].shared != 0 then !AheadIsFree(s, th.pc) && th' == th.(pc := ScanFailed(once))
      else th'.pc == NextInWord(once, g, used - {Lowest(used)}) && Scanning(s, th') && th' == th.(pc := th'.pc)
           && (AheadIsFree(s, th'.pc) <==> AheadIsFree(s, th.pc))
  {
    var rest := used - {Lowest(used)};
    assert forall i | i in rest :: i in used && i != Lowest(used);
    assert forall i | i in used && i != Lowest(used) :: i in rest;
  }

  /** How much of the scan is left. */
  function WordsLeft(slotCount: nat, pc: Pc): nat
    requires InScan(pc)
  {
    if pc.group <= GroupCount(slotCount) then GroupCount(slotCount) - pc.group else 0
  }

  function UsedLeft(pc: Pc): nat
    requires InScan(pc)
  {
    if pc.ScanWord? then 0 else |pc.used|
  }

  predicate Nearer(slotCount: nat, pc': Pc, pc: Pc)
    requires InScan(pc) && InScan(pc')
  {
    var a, b := WordsLeft(slotCount, pc'), WordsLeft(slotCount, pc);
    a < b || (a == b && pc.ScanWord? && !pc'.ScanWord?)
    || (a == b && !pc.ScanWord? && !pc'.ScanWord?
        && (UsedLeft(pc') < UsedLeft(pc) || (UsedLeft(pc') == UsedLeft(pc) && pc.ScanLocal? && pc'.ScanShared?)))
  }

  /** One load ends the scan with its verdict, or brings it nearer without changing that. */
  lemma ScanOnce(s: State, th: Thread)
    requires Scanning(s, th) && (th.pc.once || AheadIsFree(s, th.pc))
    ensures var th' := ScanStep(th, s.slots, s.bits);
      || th' == Verdict(th, AheadIsFree(s, th.pc))
      || (&& Scanning(s, th') && th' == th.(pc := th'.pc) && th'.pc.once == th.pc.once
          && (AheadIsFree(s, th'.pc) <==> AheadIsFree(s, th.pc)) && Nearer(|s.slots|, th'.pc, th.pc))
  {
    match th.pc {
      case ScanWord(once, g) => WordDecides(s, th, once, g);
      case ScanLocal(once, g, used) => LocalDecides(s, th, once, g, used);
      case ScanShared(once, g, used) => SharedDecides(s, th, once, g, used);
    }
  }

  /** The thread after `n` loads of its scan. */
  function Scanned(s: State, th: Thread, n: nat): Thread
    decreases n
  {
    if n == 0 || !InScan(th.pc) then th else Scanned(s, ScanStep(th, s.slots, s.bits), n - 1)
  }

  predicate ScansFor(s: State, th: Thread, n: nat)
    decreases n
  {
    n == 0 || (InScan(th.pc) && ScansFor(s, ScanStep(th, s.slots, s.bits), n - 1))
  }

  lemma {:induction false} ScanSolo(s: State, t: nat, n: nat)
    requires HomesOk(s) && t < |s.threads| && ScansFor(s, s.threads[t], n)
    ensures Solo(s, t, n) == s.(threads := s.threads[t := Scanned(s, s.threads[t], n)])
    decreases n
  {
    if n > 0 {
      var th1 := ScanStep(s.threads[t], s.slots, s.bits);
      var s1 := s.(threads := s.threads[t := th1]);
      assert Step(s, t, Continue) == s1;
      StepShape(s, t, Continue);
      SameScan(s, s1, th1, n - 1);
      ScanSolo(s1, t, n - 1);
      assert s1.threads[t := Scanned(s, th1, n - 1)] == s.threads[t := Scanned(s, th1, n - 1)];
    }
  }

  lemma {:induction false} SameScan(s: State, s': State, th: Thread, n: nat)
    requires s'.slots == s.slots && s'.bits == s.bits
    ensures Scanned(s', th, n) == Scanned(s, th, n) && (ScansFor(s', th, n) <==> ScansFor(s, th, n))
    decreases n
  {
    if n > 0 && InScan(th.pc) {
      SameScan(s, s', ScanStep(th, s.slots, s.bits), n - 1);
    }
  }

  /** A lone scan ends with the guard exactly if nothing ahead of it is in use. */
  lemma {:induction false} ScanEnds(s: State, th: Thread) returns (n: nat)
    requires Scanning(s, th) && (th.pc.once || AheadIsFree(s, th.pc))
    ensures ScansFor(s, th, n) && Scanned(s, th, n) == Verdict(th, AheadIsFree(s, th.pc))
    decreases WordsLeft(|s.slots|, th.pc), if th.pc.ScanWord? then 1 else 0, UsedLeft(th.pc), if th.pc.ScanLocal? then 1 else 0
  {
    var th' := ScanStep(th, s.slots, s.bits);
    ScanOnce(s, th);
    if th' == Verdict(th, AheadIsFree(s, th.pc)) {
      n := 1;
      assert ScansFor(s, th', 0);
    } else {
      var m := ScanEnds(s, th');
      n := m + 1;
    }
  }

  // ---- What a lone operation gets ----------------------------------------------------------------

  /** The state after a writer has taken the serial mutex and closed the gate. */
  function Closing(s: State, t: nat, once: bool): State
    requires t < |s.threads|
  {
    s.(threads := s.threads[t := s.threads[t].(pc := ScanWord(once, 0))],
       control := s.control.(serial := Some(t), closed := true))
  }

  lemma TryWriteCloses(s: State, t: nat)
    requires HomesOk(s) && t < |s.threads| && s.threads[t].pc.Idle? && s.control.serial.None?
    ensures HomesOk(Step(s, t, TryWrite)) && Solo(Step(s, t, TryWrite), t, 1) == Closing(s, t, true)
  {
    StepShape(s, t, TryWrite);
    var s1 := Step(s, t, TryWrite);
    assert Solo(s1, t, 1) == Step(s1, t, Continue);
    assert s1.threads[t := Closing(s, t, true).threads[t]] == Closing(s, t, true).threads;
  }

  lemma WriteCloses(s: State, t: nat)
    requires HomesOk(s) && t < |s.threads| && s.threads[t].pc.Idle? && s.control.serial.None?
    ensures HomesOk(Step(s, t, Write)) && Solo(Step(s, t, Write), t, 2) == Closing(s, t, false)
  {
    StepShape(s, t, Write);
    var s1 := Step(s, t, Write);
    StepShape(s1, t, Continue);
    var s2 := Step(s1, t, Continue);
    assert Solo(s2, t, 1) == Step(s2, t, Continue);
    assert Solo(s1, t, 2) == Solo(s2, t, 1);
    assert s2.threads[t].pc == CloseGate(false);
    assert s2.threads[t := Closing(s, t, false).threads[t]] == Closing(s, t, false).threads;
  }

  lemma ClosingScans(s: State, t: nat, once: bool)
    requires ReadersOk(s) && t < |s.threads|
    ensures HomesOk(Closing(s, t, once)) && Scanning(Closing(s, t, once), Closing(s, t, once).threads[t])
    ensures AheadIsFree(Closing(s, t, once), ScanWord(once, 0)) <==> forall i | i in s.bits :: !InUse(s, i)
  {
    var c := Closing(s, t, once);
    assert forall i :: InUse(c, i) <==> InUse(s, i);
  }

  /** A lone writer's answer. */
  lemma WriterAlone(s: State, t: nat, op: Op, once: bool, k: nat) returns (n: nat)
    requires ReadersOk(s) && t < |s.threads| && !s.threads[t].writeGuard && HomesOk(Step(s, t, op)) && |Step(s, t, op).threads| == |s.threads|
    requires Solo(Step(s, t, op), t, k) == Closing(s, t, once)
    requires once || forall i | i in s.bits :: !InUse(s, i)
    ensures var th := Run(s, Alone(t, op, n)).threads[t];
      if forall i | i in s.bits :: !InUse(s, i) then th.pc.Idle? && th.writeGuard else th.pc.OpenGate? && !th.writeGuard
  {
    ClosingScans(s, t, once);
    var c := Closing(s, t, once);
    var m := ScanEnds(c, c.threads[t]);
    ScanSolo(c, t, m);
    SoloThen(Step(s, t, op), t, k, m);
    n := k + m;
    AloneIsSolo(s, t, op, n);
  }

  ghost predicate Granted(s: State, t: nat, op: Op)
    requires HomesOk(s) && t < |s.threads|
  {
    exists n: nat :: GuardAfter(s, t, op, n)
  }

  predicate GuardAfter(s: State, t: nat, op: Op, n: nat)
    requires HomesOk(s) && t < |s.threads|
  {
    var th := Run(s, Alone(t, op, n)).threads[t];
    th.pc.Idle? && th.writeGuard
  }

  ghost predicate Refused(s: State, t: nat)
    requires HomesOk(s) && t < |s.threads|
  {
    exists n: nat :: RefusalAfter(s, t, n)
  }

  /** The hold is being dropped without having become a guard. */
  predicate RefusalAfter(s: State, t: nat, n: nat)
    requires HomesOk(s) && t < |s.threads|
  {
    var th := Run(s, Alone(t, TryWrite, n)).threads[t];
    th.pc.OpenGate? && !th.writeGuard
  }

  /** `try_write`, run alone from any reachable state with the writer mutex free, ends with
      the guard if no published slot is in use, and is refused if some is. */
  lemma TryWriteAlone(slotCount: nat, threadCount: nat, schedule: seq<(nat, Op)>, t: nat)
    requires slotCount > 0 && HomesOk(Init(slotCount, threadCount))
    requires var s := Run(Init(slotCount, threadCount), schedule);
      t < |s.threads| && s.threads[t].pc.Idle? && s.control.serial.None?
    ensures var s := Run(Init(slotCount, threadCount), schedule);
      if exists i :: InUse(s, i) then Refused(s, t) else Granted(s, t, TryWrite)
  {
    ReachableInv(slotCount, threadCount, schedule);
    var s := Run(Init(slotCount, threadCount), schedule);
    assert MutexOk(s.control, t, s.threads[t]);
    TryWriteCloses(s, t);
    StepShape(s, t, TryWrite);
    var n := WriterAlone(s, t, TryWrite, true, 1);
    if exists i :: InUse(s, i) {
      assert RefusalAfter(s, t, n);
    } else {
      assert GuardAfter(s, t, TryWrite, n);
    }
  }

  /** An unused lock is granted: `try_write` and `write`, run alone from any reachable state
      with the writer mutex free and every count zero, end with the guard. */
  lemma UnusedLockIsGranted(slotCount: nat, threadCount: nat, schedule: seq<(nat, Op)>, t: nat)
    requires slotCount > 0 && HomesOk(Init(slotCount, threadCount))
    requires var s := Run(Init(slotCount, threadCount), schedule);
      t < |s.threads| && s.threads[t].pc.Idle? && s.control.serial.None? && Unused(s)
    ensures var s := Run(Init(slotCount, threadCount), schedule);
      Granted(s, t, TryWrite) && Granted(s, t, Write)
  {
    TryWriteAlone(slotCount, threadCount, schedule, t);
    ReachableInv(slotCount, threadCount, schedule);
    var s := Run(Init(slotCount, threadCount), schedule);
    assert MutexOk(s.control, t, s.threads[t]);
    WriteCloses(s, t);
    StepShape(s, t, Write);
    var n := WriterAlone(s, t, Write, false, 2);
    assert GuardAfter(s, t, Write, n);
  }

  /** A refused writer leaves nothing behind: run alone with the waiter mutex free, it ends
      idle, without the guard, with the gate open and the writer mutex free. */
  lemma RefusedWriterLeaves(s: State, t: nat) returns (n: nat)
    requires HomesOk(s) && t < |s.threads| && s.threads[t].pc.OpenGate? && s.control.waiters.None?
    ensures var r := Solo(s, t, n);
      && r.threads[t] == s.threads[t].(pc := Idle)
      && r.control == s.control.(closed := false, serial := None)
  {
    var s2 := Opens(s, t);
    if s.control.waiting != 0 {
      var s5 := Notifies(s2, t);
      SoloThen(s, t, 2, 3);
      SoloThen(s, t, 5, 1);
      Unlocks(s5, t);
      n := 6;
    } else {
      SoloThen(s, t, 2, 1);
      Unlocks(s2, t);
      n := 3;
    }
  }

  lemma Unlocks(s: State, t: nat)
    requires HomesOk(s) && t < |s.threads| && s.threads[t].pc.UnlockSerial?
    ensures Solo(s, t, 1).threads[t] == s.threads[t].(pc := Idle) && Solo(s, t, 1).control == s.control.(serial := None)
  {
    StepShape(s, t, Continue);
    assert Solo(s, t, 1) == Step(s, t, Continue);
  }

  lemma Opens(s: State, t: nat) returns (r: State)
    requires HomesOk(s) && t < |s.threads| && s.threads[t].pc.OpenGate?
    ensures r == Solo(s, t, 2) && r.control == s.control.(closed := false)
    ensures r.threads[t] == s.threads[t].(pc := if s.control.waiting != 0 then LockNotify else UnlockSerial)
  {
    StepShape(s, t, Continue);
    var s1 := Step(s, t, Continue);
    StepShape(s1, t, Continue);
    r := Step(s1, t, Continue);
    assert Solo(s1, t, 1) == r;
  }

  lemma Notifies(s: State, t: nat) returns (r: State)
    requires HomesOk(s) && t < |s.threads| && s.threads[t].pc.LockNotify? && s.control.waiters.None?
    ensures r == Solo(s, t, 3) && r.control == s.control && r.threads[t] == s.threads[t].(pc := UnlockSerial)
  {
    StepShape(s, t, Continue);
    var s1 := Step(s, t, Continue);
    StepShape(s1, t, Continue);
    var s2 := Step(s1, t, Continue);
    StepShape(s2, t, Continue);
    r := Step(s2, t, Continue);
    assert Solo(s2, t, 1) == r && Solo(s1, t, 2) == Solo(s2, t, 1);
  }

  /** Guards of either kind. */
  function ReadGuards(th: Thread): nat { th.localGuards + th.sharedGuards }

  /** The next counter of a lone reader in an open lock. */
  lemma ReaderSteps(s: State, t: nat)
    requires HomesOk(s) && t < |s.threads| && !s.control.closed && InRead(s.threads[t].pc)
    requires var slot := s.slots[s.threads[t].home]; slot.local < MAX_COUNT && slot.shared < MAX_COUNT
    ensures var s' := Step(s, t, Continue); var th, th' := s.threads[t], s'.threads[t]; var slot, slot' := s.slots[th.home], s'.slots[th.home];
      && HomesOk(s') && s'.control == s.control && th'.home == th.home
      && (match th.pc
          case LoadOwner => slot' == slot && th' == th.(pc := th'.pc) && (th'.pc.PublishBit? || th'.pc.LoadLocal? || th'.pc.AddShared?)
          case PublishBit => slot' == slot && th' == th.(pc := ClaimOwner)
          case ClaimOwner => slot'.local == slot.local && slot'.shared == slot.shared && th' == th.(pc := th'.pc) && (th'.pc.LoadLocal? || th'.pc.AddShared?)
          case LoadLocal => slot' == slot && th' == th.(pc := StoreLocal(slot.local))
          case StoreLocal(count) => count < MAX_COUNT ==> th' == th.(pc := CheckGate(true))
          case AddShared => th' == th.(pc := CheckGate(false))
          case CheckGate(local) => th'.pc.Idle? && ReadGuards(th') == ReadGuards(th) + 1
          case _ => true)
  {
    StepShape(s, t, Continue);
  }

  /** From any point of a reservation in an open lock, the reader gets its guard. */
  lemma {:induction false} ReaderArrives(s: State, t: nat, fuel: nat) returns (n: nat)
    requires HomesOk(s) && t < |s.threads| && !s.control.closed
    requires var th := s.threads[t]; var slot := s.slots[th.home];
      && (match th.pc
          case LoadOwner => fuel == 6 case PublishBit => fuel == 5 case ClaimOwner => fuel == 4 case LoadLocal => fuel == 3
          case StoreLocal(_) => fuel == 2 case AddShared => fuel == 2 case CheckGate(_) => fuel == 1 case _ => false)
      && (th.pc.CheckGate? || (slot.local < MAX_COUNT && slot.shared < MAX_COUNT))
      && (th.pc.StoreLocal? ==> th.pc.count < MAX_COUNT)
    ensures var r := Solo(s, t, n).threads[t]; r.pc.Idle? && ReadGuards(r) == ReadGuards(s.threads[t]) + 1
    decreases fuel
  {
    var s1 := Step(s, t, Continue);
    StepShape(s, t, Continue);
    assert Solo(s, t, 1) == Solo(s1, t, 0) == s1;
    if s.threads[t].pc.CheckGate? {
      n := 1;
    } else {
      ReaderSteps(s, t);
      var pc := s1.threads[t].pc;
      var next := if pc.PublishBit? then 5 else if pc.ClaimOwner? then 4 else if pc.LoadLocal? then 3
                  else if pc.StoreLocal? || pc.AddShared? then 2 else 1;
      var m := ReaderArrives(s1, t, next);
      SoloThen(s, t, 1, m);
      n := 1 + m;
    }
  }

  /** A reader is admitted: `read`, run alone from any reachable state with the gate open,
      ends with one more guard, as long as its slot's counts can still be incremented. */
  lemma ReadAlone(slotCount: nat, threadCount: nat, schedule: seq<(nat, Op)>, t: nat)
    requires slotCount > 0 && HomesOk(Init(slotCount, threadCount))
    requires var s := Run(Init(slotCount, threadCount), schedule);
      && t < |s.threads| && s.threads[t].pc.Idle? && !s.control.closed
      && s.slots[s.threads[t].home].local < MAX_COUNT && s.slots[s.threads[t].home].shared < MAX_COUNT
    ensures var s := Run(Init(slotCount, threadCount), schedule);
      exists n: nat ::
        var th := Run(s, Alone(t, Read, n)).threads[t];
        th.pc.Idle? && ReadGuards(th) == ReadGuards(s.threads[t]) + 1
  {
    var s := Run(Init(slotCount, threadCount), schedule);
    StepShape(s, t, Read);
    var n := ReaderArrives(Step(s, t, Read), t, 6);
    AloneIsSolo(s, t, Read, n);
    var th := Run(s, Alone(t, Read, n)).threads[t];
    assert th.pc.Idle? && ReadGuards(th) == ReadGuards(s.threads[t]) + 1;
  }
}
