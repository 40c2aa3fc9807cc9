/** The reader-slot admission protocol (src/reader_slots.rs) as an interleaving of
    atomic steps.

    Every shared access of `read`, `write`, `try_write`, `wait_for_writer`, `idle`
    and of the guards' destructors is one step of one thread; a schedule is an
    arbitrary sequence of thread choices. Thread `t` is the thread whose process-wide
    reader index is `t`: it uses slot `t % N` and publishes the identity `t + 1`. */
module ReaderSlots {
  import opened Prelude

  const WORD_BITS: nat := 64
  const MAX_COUNT: nat := 0xFFFF_FFFF_FFFF_FFFF

  datatype Slot = Slot(owner: nat, local: nat, shared: nat)

  /** Program counters: the name says which shared access comes next. */
  datatype Pc =
    | Idle
    // reserve
    | LoadOwner | PublishBit | ClaimOwner | LoadLocal | StoreLocal(count: nat) | AddShared
    // read, after the reservation
    | CheckGate(local: bool)
    // dropping a reservation; `retry` tells a refused `read` from a dropped guard
    | ReleaseLoad(retry: bool) | ReleaseStore(count: nat, retry: bool) | ReleaseShared(retry: bool)
    // wait_for_writer
    | AddWaiting | LockWaiters | RecheckGate | EnterWait | Parked | UnlockWaiters | SubWaiting
    // write and try_write
    | LockSerial | CloseGate(once: bool)
    | ScanWord(once: bool, group: nat)
    | ScanLocal(once: bool, group: nat, used: set<nat>)
    | ScanShared(once: bool, group: nat, used: set<nat>)
    // dropping the writer hold
    | OpenGate | LoadWaiting | LockNotify | NotifyAll | UnlockNotify | UnlockSerial

  /** A thread owns admitted read guards (nested ones included) and perhaps a write
      guard; `home` is its slot and `pc` the operation it is in the middle of. */
  datatype Thread = Thread(home: nat, pc: Pc, localGuards: nat, sharedGuards: nat, writeGuard: bool)

  /** The words outside the slots: the gate, the holders of the writer mutex and of the
      waiter mutex, and the waiter count. */
  datatype Control = Control(closed: bool, serial: Option<nat>, waiters: Option<nat>, waiting: nat)

  /** `bits` holds the bitmap words as the set of published slot indices. */
  datatype State = State(slots: seq<Slot>, bits: set<nat>, control: Control, threads: seq<Thread>)

  /** What an idle thread decides to do next; `Continue` runs its pending operation. */
  datatype Op = Continue | Read | DropLocal | DropShared | Write | TryWrite | DropWrite | SpuriousWake

  function Init(slotCount: nat, threadCount: nat): State
    requires slotCount > 0
  {
    State(seq(slotCount, _ => Slot(0, 0, 0)), {}, Control(false, None, None, 0),
          seq(threadCount, t requires t >= 0 => Thread(t % slotCount, Idle, 0, 0, false)))
  }

  predicate InRead(pc: Pc) {
    pc.LoadOwner? || pc.PublishBit? || pc.ClaimOwner? || pc.LoadLocal? || pc.StoreLocal? || pc.AddShared?
    || pc.CheckGate? || pc.ReleaseLoad? || pc.ReleaseStore? || pc.ReleaseShared?
  }

  predicate InScan(pc: Pc) { pc.ScanWord? || pc.ScanLocal? || pc.ScanShared? }

  /** An idle thread starts an operation it is entitled to, or stays idle. */
  function Start(t: nat, th: Thread, op: Op, c: Control): (Thread, Control)
  {
    match op
    case Read => (th.(pc := LoadOwner), c)
    case DropLocal =>
      (if th.localGuards == 0 then th else th.(pc := ReleaseLoad(false), localGuards := th.localGuards - 1), c)
    case DropShared =>
      (if th.sharedGuards == 0 then th else th.(pc := ReleaseShared(false), sharedGuards := th.sharedGuards - 1), c)
    case Write => (th.(pc := LockSerial), c)
    case TryWrite => if c.serial.Some? then (th, c) else (th.(pc := CloseGate(true)), c.(serial := Some(t)))
    case DropWrite => (if th.writeGuard then th.(pc := OpenGate, writeGuard := false) else th, c)
    case _ => (th, c)
  }

  /** `reserve`, the gate check of `read`, and the reservation's destructor, on the
      thread's own slot. The checked additions panic before anything is published. */
  function ReadStep(t: nat, th: Thread, slot: Slot, closed: bool): (Thread, Slot)
    requires InRead(th.pc)
  {
    match th.pc
    case LoadOwner =>
      (th.(pc := if slot.owner == 0 then PublishBit else if slot.owner == t + 1 then LoadLocal else AddShared), slot)
    case PublishBit => (th.(pc := ClaimOwner), slot)
    case ClaimOwner =>
      if slot.owner == 0 then (th.(pc := LoadLocal), slot.(owner := t + 1)) else (th.(pc := AddShared), slot)
    case LoadLocal => (th.(pc := StoreLocal(slot.local)), slot)
    case StoreLocal(count) =>
      if count >= MAX_COUNT then (th.(pc := Idle), slot)
      else (th.(pc := CheckGate(true)), slot.(local := count + 1))
    case AddShared =>
      if slot.shared >= MAX_COUNT then (th.(pc := Idle), slot)
      else (th.(pc := CheckGate(false)), slot.(shared := slot.shared + 1))
    case CheckGate(local) =>
      if closed then (th.(pc := if local then ReleaseLoad(true) else ReleaseShared(true)), slot)
      else if local then (th.(pc := Idle, localGuards := th.localGuards + 1), slot)
      else (th.(pc := Idle, sharedGuards := th.sharedGuards + 1), slot)
    case ReleaseLoad(retry) => (th.(pc := ReleaseStore(slot.local, retry)), slot)
    case ReleaseStore(count, retry) =>
      (th.(pc := if retry then AddWaiting else Idle), slot.(local := if count == 0 then MAX_COUNT else count - 1))
    case ReleaseShared(retry) =>
      (th.(pc := if retry then AddWaiting else Idle),
       slot.(shared := if slot.shared == 0 then MAX_COUNT else slot.shared - 1))
  }

  /** `wait_for_writer`, the writer mutex, and the destructor of the writer hold. A busy
      mutex leaves the thread where it is; entering the wait unlocks and parks at once. */
  function ControlStep(t: nat, th: Thread, op: Op, c: Control): (Thread, Control)
  {
    match th.pc
    case AddWaiting => (th.(pc := LockWaiters), c.(waiting := c.waiting + 1))
    case LockWaiters => if c.waiters.Some? then (th, c) else (th.(pc := RecheckGate), c.(waiters := Some(t)))
    case RecheckGate => (th.(pc := if c.closed then EnterWait else UnlockWaiters), c)
    case EnterWait => (th.(pc := Parked), c.(waiters := None))
    case Parked => (if op.SpuriousWake? then th.(pc := LockWaiters) else th, c)
    case UnlockWaiters => (th.(pc := SubWaiting), c.(waiters := None))
    case SubWaiting => (th.(pc := LoadOwner), c.(waiting := if c.waiting == 0 then MAX_COUNT else c.waiting - 1))
    case LockSerial => if c.serial.Some? then (th, c) else (th.(pc := CloseGate(false)), c.(serial := Some(t)))
    case CloseGate(once) => (th.(pc := ScanWord(once, 0)), c.(closed := true))
    case OpenGate => (th.(pc := LoadWaiting), c.(closed := false))
    case LoadWaiting => (th.(pc := if c.waiting != 0 then LockNotify else UnlockSerial), c)
    case LockNotify => if c.waiters.Some? then (th, c) else (th.(pc := NotifyAll), c.(waiters := Some(t)))
    case NotifyAll => (th.(pc := UnlockNotify), c)
    case UnlockNotify => (th.(pc := UnlockSerial), c.(waiters := None))
    case UnlockSerial => (th.(pc := Idle), c.(serial := None))
    case _ => (th, c)
  }

  function GroupCount(slotCount: nat): nat { (slotCount + WORD_BITS - 1) / WORD_BITS }

  /** The scan of `idle`, one load at a time: a bitmap word, then each published slot's
      local and shared counts from the lowest bit up. Passing every word admits the
      writer; a busy slot restarts `write` and ends `try_write` (`once`). */
  function ScanStep(th: Thread, slots: seq<Slot>, bits: set<nat>): Thread
    requires InScan(th.pc)
  {
    match th.pc
    case ScanWord(once, g) =>
      if g >= GroupCount(|slots|) then th.(pc := Idle, writeGuard := true)
      else th.(pc := NextInWord(once, g, set i | i in bits && i / WORD_BITS == g))
    case ScanLocal(once, g, used) =>
      th.(pc := if Busy(slots, used, true) then ScanFailed(once) else ScanShared(once, g, used))
    case ScanShared(once, g, used) =>
      th.(pc := if Busy(slots, used, false) then ScanFailed(once)
                else NextInWord(once, g, if used == {} then {} else used - {Lowest(used)}))
  }

  predicate Busy(slots: seq<Slot>, used: set<nat>, local: bool) {
    used != {} && Lowest(used) < |slots|
    && (if local then slots[Lowest(used)].local else slots[Lowest(used)].shared) != 0
  }

  function NextInWord(once: bool, g: nat, used: set<nat>): Pc {
    if used == {} then ScanWord(once, g + 1) else ScanLocal(once, g, used)
  }

  function ScanFailed(once: bool): Pc {
    if once then OpenGate else ScanWord(once, 0)
  }

  function Lowest(used: set<nat>): (least: nat)
    requires used != {}
    ensures least in used && forall x | x in used :: least <= x
  {
    LowestExists(used);
    var least :| least in used && forall x | x in used :: least <= x;
    least
  }

  lemma LowestExists(used: set<nat>)
    requires used != {}
    ensures exists least :: least in used && forall x | x in used :: least <= x
  {
    var x :| x in used;
    var least := LowestAmong(used, used, x);
  }

  lemma {:induction false} LowestAmong(used: set<nat>, candidates: set<nat>, x: nat) returns (least: nat)
    requires candidates <= used && x in used
    ensures least in used && least <= x && forall y | y in candidates :: least <= y
    decreases candidates
  {
    if y :| y in candidates {
      least := LowestAmong(used, candidates - {y}, if y < x then y else x);
      assert forall z | z in candidates :: z == y || z in candidates - {y};
    } else {
      least := x;
    }
  }

  function WakeAll(threads: seq<Thread>): (r: seq<Thread>)
    ensures |r| == |threads|
  {
    seq(|threads|, u requires 0 <= u < |threads| =>
                     if threads[u].pc.Parked? then threads[u].(pc := LockWaiters) else threads[u])
  }

  predicate HomesOk(s: State) {
    forall t | 0 <= t < |s.threads| :: s.threads[t].home < |s.slots|
  }

  /** One step of thread `t`. */
  function Step(s: State, t: nat, op: Op): State
    requires t < |s.threads| && s.threads[t].home < |s.slots|
  {
    var th := s.threads[t];
    if th.pc.Idle? then
      var (th', c') := Start(t, th, op, s.control);
      s.(threads := s.threads[t := th'], control := c')
    else if InRead(th.pc) then
      var (th', slot') := ReadStep(t, th, s.slots[th.home], s.control.closed);
      s.(threads := s.threads[t := th'], slots := s.slots[th.home := slot'],
         bits := if th.pc.PublishBit? then s.bits + {th.home} else s.bits)
    else if InScan(th.pc) then
      s.(threads := s.threads[t := ScanStep(th, s.slots, s.bits)])
    else
      var (th', c') := ControlStep(t, th, op, s.control);
      s.(threads := (if th.pc.NotifyAll? then WakeAll(s.threads) else s.threads)[t := th'], control := c')
  }

  lemma StepShape(s: State, t: nat, op: Op)
    requires HomesOk(s) && t < |s.threads|
    ensures |Step(s, t, op).slots| == |s.slots| && |Step(s, t, op).threads| == |s.threads|
    ensures HomesOk(Step(s, t, op))
  {
  }

  /** Runs a schedule; a choice of a thread that does not exist is skipped. */
  function Run(s: State, schedule: seq<(nat, Op)>): (r: State)
    requires HomesOk(s)
    ensures HomesOk(r) && |r.slots| == |s.slots| && |r.threads| == |s.threads|
    decreases |schedule|
  {
    if schedule == [] then s
    else
      var (t, op) := schedule[|schedule| - 1];
      var before := Run(s, schedule[..|schedule| - 1]);
      if t < |before.threads| then
        StepShape(before, t, op);
        Step(before, t, op)
      else before
  }
}
