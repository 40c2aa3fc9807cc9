/** Compare-and-insert admission of marker observations (src/marker_reads.rs): any number
    of admitters, maximum merges and fail-safe fallbacks race on one stored observation. */
module MarkerReads {
  import opened Prelude

  type Version = int

  datatype Presence = Present(version: Version) | Absent

  datatype Observation =
    | Confirmed(presence: Presence)
    | Local(presence: Presence)
    | KnownMaximum(version: Version)
    | Retained(presence: Presence, failure: nat)

  function PresenceOf(o: Observation): Presence { if o.KnownMaximum? then Present(o.version) else o.presence }

  function VersionOf(o: Observation): Option<Version> {
    if PresenceOf(o).Present? then Some(PresenceOf(o).version) else None
  }

  function Reconcile(o: Observation, maximum: Option<Version>): Observation {
    match (PresenceOf(o), maximum)
    case (Absent, Some(m)) => KnownMaximum(m)
    case (Present(v), Some(m)) => if m > v then KnownMaximum(m) else o
    case (_, None) => o
  }

  predicate NoLower(a: Option<Version>, b: Option<Version>) { b.Some? ==> a.Some? && a.value >= b.value }

  function Higher(a: Option<Version>, b: Option<Version>): Option<Version> {
    if NoLower(a, b) then a else b
  }

  /** Reconciliation is the maximum of both facts and keeps the record when it already is. */
  lemma ReconcileIsMaximum(o: Observation, maximum: Option<Version>)
    ensures VersionOf(Reconcile(o, maximum)) == Higher(VersionOf(o), maximum)
    ensures NoLower(VersionOf(o), maximum) <==> Reconcile(o, maximum) == o
  {
  }

  // ---- The shared store -------------------------------------------------------------------

  /** A stored entry: every insertion makes a new instance. */
  datatype Stored = Stored(instance: nat, value: Observation)

  /** What a task is doing: the name says which access comes next. */
  datatype Task =
    | Idle
    | AdmitRead(value: Observation)
    | AdmitInsert(value: Observation, expected: Option<nat>, merged: Observation)
    | MergeRead(maximum: Version)
    | MergeInsert(maximum: Version, source: nat, merged: Observation)
    | FallbackRead(failure: nat)
    | FallbackInsert(source: nat, merged: Observation)

  datatype State = State(cell: Option<Stored>, next: nat, tasks: seq<Task>)

  /** `Evict` is expiry or eviction; `Refuse` is an insertion the store turns down for
      another reason than a changed version; `Outdate` is a continuity stamp that stopped
      being current. */
  datatype Op =
    | Continue | Refuse | Outdate | Evict
    | Admit(value: Observation) | Merge(maximum: Version) | Fallback(failure: nat)

  function Init(tasks: nat): State { State(None, 0, seq(tasks, _ => Idle)) }

  function Current(s: State): Option<nat> { if s.cell.None? then None else Some(s.cell.value.instance) }

  /** Conditional insertion; `retry` is where a changed version sends the task. */
  function Insert(s: State, t: nat, op: Op, expected: Option<nat>, merged: Observation, retry: Task): State
    requires t < |s.tasks|
  {
    if Current(s) != expected then s.(tasks := s.tasks[t := retry])
    else if op.Refuse? then s.(tasks := s.tasks[t := Idle])
    else State(Some(Stored(s.next, merged)), s.next + 1, s.tasks[t := Idle])
  }

  function Step(s: State, t: nat, op: Op): State {
    if t >= |s.tasks| then s
    else match s.tasks[t]
      case Idle =>
        (match op
         case Admit(value) => s.(tasks := s.tasks[t := AdmitRead(value)])
         case Merge(maximum) => s.(tasks := s.tasks[t := MergeRead(maximum)])
         case Fallback(failure) => s.(tasks := s.tasks[t := FallbackRead(failure)])
         case Evict => s.(cell := None)
         case _ => s)
      case AdmitRead(value) =>
        if op.Outdate? then s.(tasks := s.tasks[t := Idle])
        else
          var maximum := if s.cell.None? then None else VersionOf(s.cell.value.value);
          s.(tasks := s.tasks[t := AdmitInsert(value, Current(s), Reconcile(value, maximum))])
      case AdmitInsert(value, expected, merged) => Insert(s, t, op, expected, merged, AdmitRead(value))
      case MergeRead(maximum) =>
        if op.Outdate? || s.cell.None? then s.(tasks := s.tasks[t := Idle])
        else
          var current := s.cell.value;
          var merged := Reconcile(current.value, Some(maximum));
          s.(tasks := s.tasks[t := if merged == current.value then Idle else MergeInsert(maximum, current.instance, merged)])
      case MergeInsert(maximum, expected, merged) => Insert(s, t, op, Some(expected), merged, MergeRead(maximum))
      case FallbackRead(failure) =>
        if s.cell.None? then s.(tasks := s.tasks[t := Idle])
        else s.(tasks := s.tasks[t := FallbackInsert(s.cell.value.instance, Retained(PresenceOf(s.cell.value.value), failure))])
      case FallbackInsert(expected, merged) => Insert(s, t, op, Some(expected), merged, Idle)
  }

  function Run(s: State, schedule: seq<(nat, Op)>): State
    decreases |schedule|
  {
    if schedule == [] then s else Run(Step(s, schedule[0].0, schedule[0].1), schedule[1..])
  }

  // ---- The invariant ------------------------------------------------------------------------

  function Expected(task: Task): Option<nat> {
    match task
    case AdmitInsert(_, expected, _) => expected
    case MergeInsert(_, expected, _) => Some(expected)
    case FallbackInsert(expected, _) => Some(expected)
    case _ => None
  }

  /** A pending insertion does not lower the very instance it expects to replace. */
  predicate TaskOk(s: State, task: Task) {
    && (Expected(task).Some? ==> Expected(task).value < s.next)
    && (Expected(task).Some? && Expected(task) == Current(s) ==> NoLower(VersionOf(task.merged), VersionOf(s.cell.value.value)))
    && (task.AdmitInsert? ==> NoLower(VersionOf(task.merged), VersionOf(task.value)))
    && (task.MergeInsert? ==> NoLower(VersionOf(task.merged), Some(task.maximum)))
  }

  predicate Inv(s: State) {
    (s.cell.Some? ==> s.cell.value.instance < s.next) && forall t | 0 <= t < |s.tasks| :: TaskOk(s, s.tasks[t])
  }

  /** A step that only replaces the task keeps the others' promises. */
  lemma TaskMoves(s: State, t: nat, task: Task)
    requires Inv(s) && t < |s.tasks| && TaskOk(s, task)
    ensures Inv(s.(tasks := s.tasks[t := task]))
  {
    var s' := s.(tasks := s.tasks[t := task]);
    forall u | 0 <= u < |s'.tasks| ensures TaskOk(s', s'.tasks[u]) {
      assert u != t ==> TaskOk(s, s.tasks[u]);
      assert TaskOk(s, s'.tasks[u]);
    }
  }

  /** An insertion replaces only the instance its task expected, and no other pending
      insertion expects the new one. */
  lemma InsertKeeps(s: State, t: nat, op: Op, expected: Option<nat>, merged: Observation, retry: Task)
    requires Inv(s) && t < |s.tasks| && TaskOk(s, retry)
    requires expected.Some? && expected == Current(s) ==> NoLower(VersionOf(merged), VersionOf(s.cell.value.value))
    ensures var s' := Insert(s, t, op, expected, merged, retry);
      Inv(s') && (s.cell.Some? ==> s'.cell.Some? && NoLower(VersionOf(s'.cell.value.value), VersionOf(s.cell.value.value)))
  {
    var s' := Insert(s, t, op, expected, merged, retry);
    forall u | 0 <= u < |s'.tasks| ensures TaskOk(s', s'.tasks[u]) {
      assert u != t ==> TaskOk(s, s.tasks[u]);
    }
  }

  lemma ReadKeeps(s: State, t: nat, op: Op)
    requires Inv(s) && t < |s.tasks|
    requires s.tasks[t].AdmitRead? || s.tasks[t].MergeRead? || s.tasks[t].FallbackRead?
    ensures Inv(Step(s, t, op)) && Step(s, t, op).cell == s.cell
  {
    if s.cell.Some? {
      var held := s.cell.value.value;
      match s.tasks[t] {
        case AdmitRead(value) => ReconcileIsMaximum(value, VersionOf(held));
        case MergeRead(maximum) => ReconcileIsMaximum(held, Some(maximum));
        case FallbackRead(_) =>
      }
    }
    TaskMoves(s, t, Step(s, t, op).tasks[t]);
  }

  lemma StepKeeps(s: State, t: nat, op: Op)
    requires Inv(s)
    ensures Inv(Step(s, t, op))
    ensures s.cell.Some? && Step(s, t, op).cell.Some? ==> NoLower(VersionOf(Step(s, t, op).cell.value.value), VersionOf(s.cell.value.value))
  {
    if t < |s.tasks| {
      assert TaskOk(s, s.tasks[t]);
      match s.tasks[t] {
        case Idle =>
          IdleKeeps(s, t, op);
        case AdmitInsert(value, expected, merged) => InsertKeeps(s, t, op, expected, merged, AdmitRead(value));
        case MergeInsert(maximum, source, merged) => InsertKeeps(s, t, op, Some(source), merged, MergeRead(maximum));
        case FallbackInsert(source, merged) => InsertKeeps(s, t, op, Some(source), merged, Idle);
        case _ => ReadKeeps(s, t, op);
      }
    }
  }

  lemma IdleKeeps(s: State, t: nat, op: Op)
    requires Inv(s) && t < |s.tasks| && s.tasks[t].Idle?
    ensures Inv(Step(s, t, op)) && (Step(s, t, op).cell == s.cell || op.Evict?)
    ensures op.Evict? ==> Step(s, t, op).cell.None?
  {
    var s' := Step(s, t, op);
    if op.Evict? {
      forall u | 0 <= u < |s'.tasks| ensures TaskOk(s', s'.tasks[u]) {
        assert TaskOk(s, s.tasks[u]);
      }
    } else {
      assert s.tasks == s.tasks[t := Idle];
      TaskMoves(s, t, s'.tasks[t]);
    }
  }

  /** Nothing was evicted along the way. */
  predicate Kept(s: State, schedule: seq<(nat, Op)>)
    decreases |schedule|
  {
    schedule == [] || (Step(s, schedule[0].0, schedule[0].1).cell.Some? && Kept(Step(s, schedule[0].0, schedule[0].1), schedule[1..]))
  }

  /** While an observation stays retained, no race of admissions, maximum merges and
      fallbacks lowers its revision or turns it into absence. */
  lemma {:induction false} RetainedNeverLowers(s: State, schedule: seq<(nat, Op)>)
    requires Inv(s) && s.cell.Some? && Kept(s, schedule)
    ensures var r := Run(s, schedule);
      Inv(r) && r.cell.Some? && NoLower(VersionOf(r.cell.value.value), VersionOf(s.cell.value.value))
    decreases |schedule|
  {
    if schedule != [] {
      StepKeeps(s, schedule[0].0, schedule[0].1);
      RetainedNeverLowers(Step(s, schedule[0].0, schedule[0].1), schedule[1..]);
    }
  }

  lemma {:induction false} ReachableInv(s: State, schedule: seq<(nat, Op)>)
    requires Inv(s)
    ensures Inv(Run(s, schedule))
    decreases |schedule|
  {
    if schedule != [] {
      StepKeeps(s, schedule[0].0, schedule[0].1);
      ReachableInv(Step(s, schedule[0].0, schedule[0].1), schedule[1..]);
    }
  }

  /** Whatever raced before, a merge that ends with its fact retained has brought the stored
      revision up to the maximum, and an admission that stores has not lost its own fact. */
  lemma FactsArrive(tasks: nat, schedule: seq<(nat, Op)>, t: nat, op: Op)
    ensures var s := Run(Init(tasks), schedule);
      var s' := Step(s, t, op);
      t < |s.tasks| && s'.cell.Some? && s'.tasks[t].Idle? && !op.Outdate? && !op.Refuse? ==>
        && (s.tasks[t].MergeRead? || s.tasks[t].MergeInsert? ==> NoLower(VersionOf(s'.cell.value.value), Some(s.tasks[t].maximum)))
        && (s.tasks[t].AdmitInsert? ==> NoLower(VersionOf(s'.cell.value.value), VersionOf(s.tasks[t].value)))
  {
    ReachableInv(Init(tasks), schedule);
    var s := Run(Init(tasks), schedule);
    if t < |s.tasks| {
      assert TaskOk(s, s.tasks[t]);
      if s.tasks[t].MergeRead? && s.cell.Some? {
        ReconcileIsMaximum(s.cell.value.value, Some(s.tasks[t].maximum));
      }
    }
  }

  /** What a pending insertion would store over the very instance it expects. */
  predicate Exact(s: State, task: Task) {
    Expected(task).Some? && Expected(task) == Current(s) ==>
      var held := s.cell.value.value;
      match task
      case AdmitInsert(value, _, merged) => VersionOf(merged) == Higher(VersionOf(value), VersionOf(held))
      case MergeInsert(maximum, _, merged) => VersionOf(merged) == Higher(VersionOf(held), Some(maximum))
      case FallbackInsert(_, merged) => merged.Retained? && merged.presence == PresenceOf(held)
      case _ => true
  }

  predicate AllExact(s: State) {
    && Inv(s)
    && (forall t | 0 <= t < |s.tasks| :: Exact(s, s.tasks[t]))
    && (forall t | 0 <= t < |s.tasks| && s.tasks[t].AdmitInsert? && s.tasks[t].expected.None? :: s.tasks[t].merged == s.tasks[t].value)
  }

  lemma ExactMoves(s: State, s': State, t: nat)
    requires AllExact(s) && t < |s.tasks| == |s'.tasks| && s'.tasks == s.tasks[t := s'.tasks[t]] && Inv(s')
    requires s'.cell == s.cell || s'.cell.None? || s'.cell.value.instance == s.next
    requires Exact(s', s'.tasks[t])
    requires s'.tasks[t].AdmitInsert? && s'.tasks[t].expected.None? ==> s'.tasks[t].merged == s'.tasks[t].value
    ensures AllExact(s')
  {
    forall u | 0 <= u < |s'.tasks| ensures Exact(s', s'.tasks[u]) {
      if u != t {
        assert Exact(s, s.tasks[u]) && TaskOk(s, s.tasks[u]);
      }
    }
  }

  lemma StepExact(s: State, t: nat, op: Op)
    requires AllExact(s)
    ensures AllExact(Step(s, t, op))
  {
    if t < |s.tasks| {
      StepKeeps(s, t, op);
      assert TaskOk(s, s.tasks[t]) && Exact(s, s.tasks[t]);
      if s.cell.Some? {
        match s.tasks[t] {
          case AdmitRead(value) => ReconcileIsMaximum(value, VersionOf(s.cell.value.value));
          case MergeRead(maximum) => ReconcileIsMaximum(s.cell.value.value, Some(maximum));
          case _ =>
        }
      }
      ExactMoves(s, Step(s, t, op), t);
    }
  }

  lemma {:induction false} RunExact(s: State, schedule: seq<(nat, Op)>)
    requires AllExact(s)
    ensures AllExact(Run(s, schedule))
    decreases |schedule|
  {
    if schedule != [] {
      StepExact(s, schedule[0].0, schedule[0].1);
      RunExact(Step(s, schedule[0].0, schedule[0].1), schedule[1..]);
    }
  }

  function CellVersion(s: State): Option<Version> { if s.cell.None? then None else VersionOf(s.cell.value.value) }

  /** Whatever raced before, a step that stores an observation stores exactly the maximum of
      its own fact and the one it replaces, or, as a fallback, the replaced presence marked
      as retained; no revision is invented. */
  lemma StoresExactly(tasks: nat, schedule: seq<(nat, Op)>, t: nat, op: Op)
    ensures var s := Run(Init(tasks), schedule);
      var s' := Step(s, t, op);
      t < |s.tasks| && s'.next != s.next ==>
        && s'.cell.Some? && s'.tasks[t] == Idle
        && match s.tasks[t]
           case AdmitInsert(value, _, _) => CellVersion(s') == Higher(VersionOf(value), CellVersion(s))
           case MergeInsert(maximum, _, _) => CellVersion(s') == Higher(CellVersion(s), Some(maximum))
           case FallbackInsert(_, _) => s.cell.Some? && s'.cell.value.value.Retained?
                                        && s'.cell.value.value.presence == PresenceOf(s.cell.value.value)
           case _ => false
  {
    RunExact(Init(tasks), schedule);
    var s := Run(Init(tasks), schedule);
    if t < |s.tasks| {
      assert TaskOk(s, s.tasks[t]) && Exact(s, s.tasks[t]);
    }
  }

  /** A lone task stores: run alone on an unchanging cell, admission, merge and fallback each
      end, and leave their fact behind. */
  lemma MergeAlone(s: State, t: nat, maximum: Version)
    requires t < |s.tasks| && s.tasks[t].Idle? && s.cell.Some?
    ensures var r := Step(Step(Step(s, t, Merge(maximum)), t, Continue), t, Continue);
      r.tasks[t] == Idle && CellVersion(r) == Higher(CellVersion(s), Some(maximum))
  {
    ReconcileIsMaximum(s.cell.value.value, Some(maximum));
  }

  lemma AdmitAlone(s: State, t: nat, value: Observation)
    requires t < |s.tasks| && s.tasks[t].Idle?
    ensures var r := Step(Step(Step(s, t, Admit(value)), t, Continue), t, Continue);
      r.tasks[t] == Idle && r.cell.Some? && CellVersion(r) == Higher(VersionOf(value), CellVersion(s))
  {
    ReconcileIsMaximum(value, CellVersion(s));
  }

  lemma FallbackAlone(s: State, t: nat, failure: nat)
    requires t < |s.tasks| && s.tasks[t].Idle? && s.cell.Some?
    ensures var r := Step(Step(Step(s, t, Fallback(failure)), t, Continue), t, Continue);
      r.tasks[t] == Idle && r.cell.Some? && r.cell.value.value == Retained(PresenceOf(s.cell.value.value), failure)
  {
  }
}
