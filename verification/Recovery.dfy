/** The exact-identity recovery queue (src/recovery.rs) as functions on values. */
module Recovery {
  import opened Prelude

  const MAX_U64: nat := 0xFFFF_FFFF_FFFF_FFFF
  const MAX_TIMESTAMP: int := 0x7FFF_FFFF_FFFF_FFFF

  // ---- Work --------------------------------------------------------------------

  datatype Mutation =
    | Legacy
    | Commit(payload: nat, notification: Option<nat>)
    | FencedCommit(payload: nat, notification: Option<nat>)
    | ColdExpire(logical: int, notification: Option<nat>)
    | Notify(command: nat)

  datatype Stage = AdvanceOnly | AdvanceAndNotify | NotifyOnly

  /** The remaining phase of a marker mutation; `extra` is the version of the clear fact
      that bounded-store compaction committed with it. */
  datatype Phase = Advance(quiet: bool) | Populate(quiet: bool, extra: Option<int>) | Notifying(extra: Option<int>)

  /** A committed clear that superseding work still owes. */
  datatype Debt = Debt(version: int, notifying: bool)

  datatype Work =
    | Data(key: string, timestamp: int, expiry: int, retries: Option<nat>, mutation: Mutation)
    | Marker(scope: string, kind: string, version: int, stage: Stage)
    | MarkerMutation(scope: string, kind: string, version: int, phase: Phase, debt: Option<Debt>)
    | MarkerSnapshot(scope: string, kind: string, version: int, created: int, expiry: int)

  datatype Key = DataKey(key: string) | MarkerKey(scope: string, kind: string) | SnapshotKey(scope: string, kind: string)

  function KeyOf(w: Work): Key {
    match w
    case Data(key, _, _, _, _) => DataKey(key)
    case Marker(scope, kind, _, _) => MarkerKey(scope, kind)
    case MarkerMutation(scope, kind, _, _, _) => MarkerKey(scope, kind)
    case MarkerSnapshot(scope, kind, _, _, _) => SnapshotKey(scope, kind)
  }

  function TimestampOf(w: Work): int { if w.Data? then w.timestamp else w.version }

  function ExpiresAt(w: Work): Option<int> {
    if w.Data? || w.MarkerSnapshot? then Some(w.expiry) else None
  }

  predicate Supersedes(w: Work, previous: Work) {
    if w.MarkerSnapshot? then
      previous.MarkerSnapshot?
      && (w.version > previous.version || (w.version == previous.version && w.created > previous.created))
    else TimestampOf(w) > TimestampOf(previous)
  }

  function Newer(a: Option<Debt>, b: Option<Debt>): Option<Debt> {
    if a.None? then b
    else if b.None? then a
    else if b.value.version > a.value.version || (b.value.version == a.value.version && (b.value.notifying || !a.value.notifying)) then b
    else a
  }

  /** The clear a marker mutation has itself committed. */
  function CompletedDebt(p: Phase): Option<Debt> {
    match p
    case Advance(_) => None
    case Populate(_, extra) => if extra.Some? then Some(Debt(extra.value, false)) else None
    case Notifying(extra) => if extra.Some? then Some(Debt(extra.value, true)) else None
  }

  function Owed(previous: Work): Option<Debt> {
    if previous.MarkerMutation? then Newer(CompletedDebt(previous.phase), previous.debt) else None
  }

  /** Superseding work takes over the compaction debt of the marker mutation it replaces. */
  function Inherit(w: Work, previous: Work): (r: Work)
    ensures KeyOf(r) == KeyOf(w) && TimestampOf(r) == TimestampOf(w) && ExpiresAt(r) == ExpiresAt(w)
  {
    if !previous.MarkerMutation? then w
    else match w
      case MarkerMutation(_, _, _, _, debt) => w.(debt := Newer(Owed(previous), debt))
      case Marker(scope, kind, version, NotifyOnly) =>
        if Owed(previous).Some? then MarkerMutation(scope, kind, version, Notifying(None), Owed(previous)) else w
      case _ => w
  }

  /** The stage left once storage has succeeded; None when there is nothing to advance. */
  function NotificationStage(w: Work): Option<Work> {
    match w
    case Data(_, _, _, _, m) =>
      if (m.Commit? || m.FencedCommit? || m.ColdExpire?) && m.notification.Some?
      then Some(w.(mutation := Notify(m.notification.value))) else None
    case Marker(_, _, _, stage) => if stage.AdvanceAndNotify? then Some(w.(stage := NotifyOnly)) else None
    case MarkerMutation(_, _, _, phase, _) =>
      if phase.Populate? && !phase.quiet then Some(w.(phase := Notifying(phase.extra))) else None
    case MarkerSnapshot(_, _, _, _, _) => None
  }

  // ---- Queue -------------------------------------------------------------------

  datatype Ticket = Ticket(id: nat, work: Work, generation: nat, fenced: bool)

  datatype Queued = Queued(ticket: Ticket, remaining: Option<nat>, inFlight: bool)

  datatype Queue = Queue(entries: map<Key, Queued>, nextId: Option<nat>)

  datatype Config = Config(enabled: bool, maxItems: Option<nat>, maxRetries: Option<nat>)

  /** A request as it reaches the queue mutex: `fence` is the captured generation. */
  datatype Request = Request(work: Work, fence: Option<nat>)

  datatype Outcome =
    | Admitted(id: nat) | Replaced(id: nat) | Superseded | Disabled | CapacityRejected | Expired
    | Stopped | IdentityExhausted

  const EMPTY: Queue := Queue(map[], Some(1))

  function Attempts(cfg: Config, w: Work): Option<nat> {
    var retries := if w.Data? && w.retries.Some? then w.retries else cfg.maxRetries;
    if retries.Some? then Some(retries.value + 1) else None
  }

  predicate Older(req: Request, existing: Ticket) {
    if req.fence.Some? && existing.fenced then req.fence.value <= existing.generation
    else !Supersedes(req.work, existing.work)
  }

  predicate Full(q: Queue, cfg: Config) {
    cfg.maxItems.Some? && |q.entries| >= cfg.maxItems.value
  }

  function Bound(w: Work): int {
    if ExpiresAt(w).Some? then ExpiresAt(w).value else MAX_TIMESTAMP
  }

  /** `v` is a queued key of least expiry among the work that expires at all. */
  predicate Earliest(q: Queue, v: Key) {
    && v in q.entries && ExpiresAt(q.entries[v].ticket.work).Some?
    && forall k | k in q.entries && ExpiresAt(q.entries[k].ticket.work).Some? ::
         ExpiresAt(q.entries[v].ticket.work).value <= ExpiresAt(q.entries[k].ticket.work).value
  }

  /** The queue after the capacity rule has evicted `victim`, if it may. */
  function MakeRoom(q: Queue, w: Work, victim: Option<Key>): Queue
    requires victim.Some? ==> victim.value in q.entries && ExpiresAt(q.entries[victim.value].ticket.work).Some?
  {
    if victim.Some? && ExpiresAt(q.entries[victim.value].ticket.work).value < Bound(w)
    then q.(entries := q.entries - {victim.value}) else q
  }

  /** Installs work under a new identity, which is never reused. */
  function Install(q: Queue, cfg: Config, req: Request): (Queue, Outcome) {
    if q.nextId.None? then (q, IdentityExhausted)
    else
      var id, key := q.nextId.value, KeyOf(req.work);
      var work := if key in q.entries then Inherit(req.work, q.entries[key].ticket.work) else req.work;
      var ticket := Ticket(id, work, if req.fence.Some? then req.fence.value else id, req.fence.Some?);
      (Queue(q.entries[key := Queued(ticket, Attempts(cfg, req.work), false)],
             if id < MAX_U64 then Some(id + 1) else None),
       if key in q.entries then Replaced(id) else Admitted(id))
  }

  /** `enqueue_work` under the queue mutex; `victim` is the least-expiring entry the
      scan found, which is arbitrary among equals. */
  function Enqueue(q: Queue, cfg: Config, req: Request, victim: Option<Key>): (Queue, Outcome)
    requires victim.Some? ==> Earliest(q, victim.value)
  {
    var key := KeyOf(req.work);
    if key in q.entries then
      if Older(req, q.entries[key].ticket) then (q, Superseded) else Install(q, cfg, req)
    else if Full(q, cfg) then
      var room := MakeRoom(q, req.work, victim);
      if Full(room, cfg) then (room, CapacityRejected) else Install(room, cfg, req)
    else Install(q, cfg, req)
  }

  predicate Holds(q: Queue, t: Ticket) {
    KeyOf(t.work) in q.entries && q.entries[KeyOf(t.work)].ticket.id == t.id
  }

  function Drop(q: Queue, key: Key): Queue { q.(entries := q.entries - {key}) }

  function Put(q: Queue, key: Key, queued: Queued): Queue { q.(entries := q.entries[key := queued]) }

  function Complete(q: Queue, t: Ticket): Queue {
    if Holds(q, t) then Drop(q, KeyOf(t.work)) else q
  }

  function RecordFailure(q: Queue, t: Ticket): Queue {
    if !Holds(q, t) then q
    else
      var key := KeyOf(t.work);
      var queued := q.entries[key];
      if queued.remaining.Some? && queued.remaining.value <= 1 then Drop(q, key)
      else if queued.remaining.Some? then
        Put(q, key, queued.(remaining := Some(queued.remaining.value - 1), inFlight := false))
      else Put(q, key, queued.(inFlight := false))
  }

  /** Dropping an unfinished claim, after a pause or a panic. */
  function ReleaseClaim(q: Queue, t: Ticket): Queue {
    if Holds(q, t) then Put(q, KeyOf(t.work), q.entries[KeyOf(t.work)].(inFlight := false)) else q
  }

  function Claim(q: Queue, key: Key): (Queue, Option<Ticket>) {
    if key !in q.entries || q.entries[key].inFlight then (q, None)
    else (Put(q, key, q.entries[key].(inFlight := true)), Some(q.entries[key].ticket))
  }

  function AdvanceStage(q: Queue, t: Ticket): Queue {
    if !Holds(q, t) then q
    else
      var queued := q.entries[KeyOf(t.work)];
      var next := NotificationStage(queued.ticket.work);
      if next.None? then q
      else Put(q, KeyOf(t.work), queued.(ticket := queued.ticket.(work := next.value)))
  }

  /** `marker_population_stage`: the same marker work, one stage further. */
  function PopulateStage(q: Queue, t: Ticket, w: Work): Queue {
    if Holds(q, t) then
      var queued := q.entries[KeyOf(t.work)];
      Put(q, KeyOf(t.work), queued.(ticket := queued.ticket.(work := w)))
    else q
  }

  function SupersedeThrough(q: Queue, key: string, generation: nat): Queue {
    if DataKey(key) in q.entries && q.entries[DataKey(key)].ticket.generation <= generation
    then Drop(q, DataKey(key)) else q
  }

  function CancelThrough(q: Queue, key: string, at: int): Queue {
    if DataKey(key) in q.entries && TimestampOf(q.entries[DataKey(key)].ticket.work) <= at
    then Drop(q, DataKey(key)) else q
  }
}
