/** Whole runs of the recovery queue: identities, capacity, retry budgets and claims. */
module RecoveryRuns {
  import opened Prelude
  import opened Recovery

  datatype Event =
    | Enqueued(req: Request, victim: Option<Key>)
    | Completed(ticket: Ticket)
    | Failed(ticket: Ticket)
    | Released(ticket: Ticket)
    | Claimed(key: Key)
    | Advanced(ticket: Ticket)
    | Populated(ticket: Ticket, work: Work)
    | SupersededThrough(name: string, generation: nat)
    | CancelledThrough(name: string, at: int)

  /** The queue and its history: per identity the key and work it was issued for, the attempts
      it was granted and the failures it suffered; and the identities some drain currently
      holds a claim on. */
  datatype World = World(q: Queue, homes: map<nat, Key>, origins: map<nat, Work>, attempts: map<nat, Option<nat>>,
                         failures: map<nat, nat>, claims: set<nat>)

  const START: World := World(EMPTY, map[], map[], map[], map[], {})

  /** The victim the capacity scan reports: an earliest one, absent only if nothing expires. */
  predicate Scanned(q: Queue, victim: Option<Key>) {
    if victim.Some? then Earliest(q, victim.value)
    else forall k | k in q.entries :: ExpiresAt(q.entries[k].ticket.work).None?
  }

  /** What the callers guarantee. Only the holder of a claim reports its failure or
      releases it; a populated stage keeps its marker identity. Tickets are otherwise
      arbitrary, however old. */
  predicate Allowed(w: World, e: Event) {
    match e
    case Enqueued(_, victim) => Scanned(w.q, victim)
    case Failed(t) => Claimant(w, t)
    case Released(t) => Claimant(w, t)
    case Populated(t, work) => KeyOf(work) == KeyOf(t.work)
    case _ => true
  }

  /** A claimed ticket names the key its identity was issued for. */
  predicate Claimant(w: World, t: Ticket) {
    t.id in w.claims && t.id in w.homes && w.homes[t.id] == KeyOf(t.work)
  }

  function Next(w: World, cfg: Config, e: Event): World
    requires Allowed(w, e)
  {
    match e
    case Enqueued(req, victim) =>
      var (q, outcome) := Enqueue(w.q, cfg, req, victim);
      if outcome.Admitted? || outcome.Replaced? then
        World(q, w.homes[outcome.id := KeyOf(req.work)], w.origins[outcome.id := req.work], w.attempts[outcome.id := Attempts(cfg, req.work)],
              w.failures[outcome.id := 0], w.claims)
      else w.(q := q)
    case Completed(t) => w.(q := Complete(w.q, t))
    case Failed(t) =>
      w.(q := RecordFailure(w.q, t), claims := w.claims - {t.id},
         failures := if Holds(w.q, t) && t.id in w.failures then w.failures[t.id := w.failures[t.id] + 1] else w.failures)
    case Released(t) => w.(q := ReleaseClaim(w.q, t), claims := w.claims - {t.id})
    case Claimed(key) =>
      var (q, t) := Claim(w.q, key);
      w.(q := q, claims := if t.Some? then w.claims + {t.value.id} else w.claims)
    case Advanced(t) => w.(q := AdvanceStage(w.q, t))
    case Populated(t, work) => w.(q := PopulateStage(w.q, t, work))
    case SupersededThrough(name, generation) => w.(q := SupersedeThrough(w.q, name, generation))
    case CancelledThrough(name, at) => w.(q := CancelThrough(w.q, name, at))
  }

  /** Runs from `w` to `w'`. */
  ghost predicate Runs(w: World, cfg: Config, events: seq<Event>, w': World)
    decreases |events|
  {
    if events == [] then w == w'
    else Allowed(w, events[0]) && Runs(Next(w, cfg, events[0]), cfg, events[1..], w')
  }

  predicate Issued(q: Queue, id: nat) { q.nextId.Some? ==> id < q.nextId.value }

  predicate Queues(q: Queue, id: nat) { exists k :: k in q.entries && q.entries[k].ticket.id == id }

  // ---- The invariant -------------------------------------------------------------

  /** What one queued entry agrees on with the history. */
  predicate EntryOk(w: World, k: Key)
    requires k in w.q.entries
  {
    var queued := w.q.entries[k];
    var id := queued.ticket.id;
    && KeyOf(queued.ticket.work) == k && id in w.homes && w.homes[id] == k
    && Issued(w.q, id)
    && (queued.inFlight <==> id in w.claims)
    && id in w.attempts && id in w.failures
    && (queued.remaining.Some? <==> w.attempts[id].Some?)
    && (queued.remaining.Some? ==> queued.remaining.value + w.failures[id] == w.attempts[id].value && queued.remaining.value > 0)
  }

  ghost predicate Inv(w: World, cfg: Config) {
    && (cfg.maxItems.Some? ==> |w.q.entries| <= cfg.maxItems.value)
    && (forall k | k in w.q.entries :: EntryOk(w, k))
    && (forall id | id in w.claims :: Issued(w.q, id))
    && (w.q.nextId.Some? ==> w.q.nextId.value <= MAX_U64)
    && (forall id | id in w.attempts :: id in w.origins && w.attempts[id] == Attempts(cfg, w.origins[id]))
  }

  lemma DropKeeps(w: World, cfg: Config, key: Key)
    requires Inv(w, cfg)
    ensures Inv(w.(q := Drop(w.q, key)), cfg)
  {
    var w' := w.(q := Drop(w.q, key));
    forall k | k in w'.q.entries ensures EntryOk(w', k) {
      assert EntryOk(w, k);
    }
  }

  function Enrolled(w: World, cfg: Config, req: Request): World
    requires w.q.nextId.Some?
  {
    var id := w.q.nextId.value;
    World(Install(w.q, cfg, req).0, w.homes[id := KeyOf(req.work)], w.origins[id := req.work], w.attempts[id := Attempts(cfg, req.work)], w.failures[id := 0], w.claims)
  }

  lemma InstallKeeps(w: World, cfg: Config, req: Request)
    requires Inv(w, cfg) && w.q.nextId.Some?
    requires KeyOf(req.work) in w.q.entries || !Full(w.q, cfg)
    ensures Inv(Enrolled(w, cfg, req), cfg)
  {
    var w' := Enrolled(w, cfg, req);
    var key := KeyOf(req.work);
    forall k | k in w'.q.entries ensures EntryOk(w', k) {
      if k != key {
        assert EntryOk(w, k);
      }
    }
  }

  lemma EnqueueKeeps(w: World, cfg: Config, req: Request, victim: Option<Key>)
    requires Inv(w, cfg) && Scanned(w.q, victim)
    ensures Inv(Next(w, cfg, Enqueued(req, victim)), cfg)
  {
    var w' := Next(w, cfg, Enqueued(req, victim));
    var key := KeyOf(req.work);
    if key !in w.q.entries && Full(w.q, cfg) {
      var room := MakeRoom(w.q, req.work, victim);
      if victim.Some? {
        DropKeeps(w, cfg, victim.value);
      }
      assert Inv(w.(q := room), cfg);
      if Full(room, cfg) || room.nextId.None? {
        assert w' == w.(q := room);
      } else {
        InstallKeeps(w.(q := room), cfg, req);
        assert w' == Enrolled(w.(q := room), cfg, req);
      }
    } else if (key in w.q.entries && Older(req, w.q.entries[key].ticket)) || w.q.nextId.None? {
      assert w' == w;
    } else {
      InstallKeeps(w, cfg, req);
      assert w' == Enrolled(w, cfg, req);
    }
  }

  /** A change to the single entry `key` that keeps its identity. */
  lemma PutKeeps(w: World, w': World, cfg: Config, key: Key)
    requires Inv(w, cfg) && key in w.q.entries && key in w'.q.entries
    requires w'.q.entries == w.q.entries[key := w'.q.entries[key]] && w'.q.nextId == w.q.nextId
    requires w'.q.entries[key].ticket.id == w.q.entries[key].ticket.id
    requires var id := w.q.entries[key].ticket.id;
      && w'.attempts == w.attempts && w'.homes == w.homes && w'.origins == w.origins
      && (w'.failures == w.failures || (id in w.failures && w'.failures == w.failures[id := w.failures[id] + 1]))
      && w'.claims - {id} == w.claims - {id}
    requires EntryOk(w', key)
    ensures Inv(w', cfg)
  {
    assert w'.q.entries.Keys == w.q.entries.Keys;
    assert EntryOk(w, key);
    forall k | k in w'.q.entries ensures EntryOk(w', k) {
      assert EntryOk(w, k);
      if k != key {
        var id := w.q.entries[k].ticket.id;
        assert id in w'.claims - {w.q.entries[key].ticket.id} <==> id in w.claims - {w.q.entries[key].ticket.id};
      }
    }
    forall i | i in w'.claims ensures Issued(w'.q, i) {
      assert i == w.q.entries[key].ticket.id || i in w.claims - {w.q.entries[key].ticket.id};
    }
  }

  /** Claims and failures of an identity that has left the queue change no entry. */
  lemma ForgetKeeps(w: World, cfg: Config, id: nat)
    requires Inv(w, cfg) && forall k | k in w.q.entries :: w.q.entries[k].ticket.id != id
    ensures Inv(w.(claims := w.claims - {id}), cfg)
  {
    var w' := w.(claims := w.claims - {id});
    forall k | k in w'.q.entries ensures EntryOk(w', k) {
      assert EntryOk(w, k);
    }
  }

  lemma OnlyAtHome(w: World, cfg: Config, t: Ticket)
    requires Inv(w, cfg) && t.id in w.homes && w.homes[t.id] == KeyOf(t.work) && !Holds(w.q, t)
    ensures forall k | k in w.q.entries :: w.q.entries[k].ticket.id != t.id
  {
    forall k | k in w.q.entries ensures w.q.entries[k].ticket.id != t.id {
      assert EntryOk(w, k);
    }
  }

  lemma FailureKeeps(w: World, cfg: Config, t: Ticket)
    requires Inv(w, cfg) && Allowed(w, Failed(t))
    ensures Inv(Next(w, cfg, Failed(t)), cfg)
  {
    var w' := Next(w, cfg, Failed(t));
    var key := KeyOf(t.work);
    if !Holds(w.q, t) {
      OnlyAtHome(w, cfg, t);
      ForgetKeeps(w, cfg, t.id);
    } else {
      assert EntryOk(w, key);
      if key in w'.q.entries {
        PutKeeps(w, w', cfg, key);
      } else {
        DropKeeps(w, cfg, key);
        var dropped := w.(q := Drop(w.q, key));
        forall k | k in w'.q.entries ensures EntryOk(w', k) {
          assert EntryOk(dropped, k) && EntryOk(w, k);
        }
      }
    }
  }

  lemma ReleaseKeeps(w: World, cfg: Config, t: Ticket)
    requires Inv(w, cfg) && Allowed(w, Released(t))
    ensures Inv(Next(w, cfg, Released(t)), cfg)
  {
    if Holds(w.q, t) {
      assert EntryOk(w, KeyOf(t.work));
      PutKeeps(w, Next(w, cfg, Released(t)), cfg, KeyOf(t.work));
    } else {
      OnlyAtHome(w, cfg, t);
      ForgetKeeps(w, cfg, t.id);
    }
  }

  lemma ClaimKeeps(w: World, cfg: Config, key: Key)
    requires Inv(w, cfg)
    ensures Inv(Next(w, cfg, Claimed(key)), cfg)
  {
    var w' := Next(w, cfg, Claimed(key));
    if key in w.q.entries && !w.q.entries[key].inFlight {
      assert EntryOk(w, key);
      PutKeeps(w, w', cfg, key);
    }
  }

  /** New work of the same key under the same identity. */
  lemma RestageKeeps(w: World, cfg: Config, key: Key, work: Work)
    requires Inv(w, cfg) && key in w.q.entries && KeyOf(work) == key
    ensures var queued := w.q.entries[key];
      Inv(w.(q := Put(w.q, key, queued.(ticket := queued.ticket.(work := work)))), cfg)
  {
    var queued := w.q.entries[key];
    var w' := w.(q := Put(w.q, key, queued.(ticket := queued.ticket.(work := work))));
    assert EntryOk(w, key);
    PutKeeps(w, w', cfg, key);
  }

  lemma StageKeepsKey(w: Work)
    ensures NotificationStage(w).Some? ==> KeyOf(NotificationStage(w).value) == KeyOf(w)
  {
  }

  lemma StageKeeps(w: World, cfg: Config, e: Event)
    requires Inv(w, cfg) && Allowed(w, e) && (e.Advanced? || e.Populated?)
    ensures Inv(Next(w, cfg, e), cfg)
  {
    var key := KeyOf(e.ticket.work);
    if Holds(w.q, e.ticket) {
      assert EntryOk(w, key);
      var current := w.q.entries[key].ticket.work;
      if e.Populated? {
        RestageKeeps(w, cfg, key, e.work);
      } else if NotificationStage(current).Some? {
        StageKeepsKey(current);
        RestageKeeps(w, cfg, key, NotificationStage(current).value);
      }
    }
  }

  /** Every allowed event keeps the invariant. */
  lemma NextKeeps(w: World, cfg: Config, e: Event)
    requires Inv(w, cfg) && Allowed(w, e)
    ensures Inv(Next(w, cfg, e), cfg)
  {
    match e
    case Enqueued(req, victim) => EnqueueKeeps(w, cfg, req, victim);
    case Completed(t) => DropKeeps(w, cfg, KeyOf(t.work));
    case Failed(t) => FailureKeeps(w, cfg, t);
    case Released(t) => ReleaseKeeps(w, cfg, t);
    case Claimed(key) => ClaimKeeps(w, cfg, key);
    case Advanced(t) => StageKeeps(w, cfg, e);
    case Populated(t, work) => StageKeeps(w, cfg, e);
    case SupersededThrough(name, generation) => DropKeeps(w, cfg, DataKey(name));
    case CancelledThrough(name, at) => DropKeeps(w, cfg, DataKey(name));
  }

  lemma {:induction false} RunKeeps(w: World, cfg: Config, events: seq<Event>, w': World)
    requires Inv(w, cfg) && Runs(w, cfg, events, w')
    ensures Inv(w', cfg)
    decreases |events|
  {
    if events != [] {
      NextKeeps(w, cfg, events[0]);
      RunKeeps(Next(w, cfg, events[0]), cfg, events[1..], w');
    }
  }

  // ---- Stale tickets ---------------------------------------------------------------

  /** Only admission introduces identities. */
  predicate SameIdentities(q: Queue, q': Queue) {
    q'.nextId == q.nextId
    && forall k | k in q'.entries :: k in q.entries && q.entries[k].ticket.id == q'.entries[k].ticket.id
  }

  lemma OthersIntroduceNone(w: World, cfg: Config, e: Event)
    requires Allowed(w, e) && !e.Enqueued?
    ensures SameIdentities(w.q, Next(w, cfg, e).q)
  {
  }

  /** Whatever carries the identity now carried it before. */
  predicate OnlyFresh(q: Queue, q': Queue, id: nat) {
    Issued(q', id) && forall k | k in q'.entries && q'.entries[k].ticket.id == id ::
      k in q.entries && q.entries[k].ticket.id == id
  }

  lemma InstallIsFresh(q: Queue, room: Queue, cfg: Config, req: Request, id: nat)
    requires OnlyFresh(q, room, id)
    ensures OnlyFresh(q, Install(room, cfg, req).0, id)
  {
  }

  lemma RoomIsFresh(q: Queue, req: Request, victim: Option<Key>, id: nat)
    requires Scanned(q, victim) && Issued(q, id)
    ensures OnlyFresh(q, q, id) && OnlyFresh(q, MakeRoom(q, req.work, victim), id)
  {
  }

  lemma EnqueueIntroducesFresh(w: World, cfg: Config, req: Request, victim: Option<Key>, id: nat)
    requires Scanned(w.q, victim) && Issued(w.q, id)
    ensures OnlyFresh(w.q, Next(w, cfg, Enqueued(req, victim)).q, id)
  {
    RoomIsFresh(w.q, req, victim, id);
    InstallIsFresh(w.q, w.q, cfg, req, id);
    InstallIsFresh(w.q, MakeRoom(w.q, req.work, victim), cfg, req, id);
  }

  lemma NextNeverRevives(w: World, cfg: Config, e: Event, id: nat)
    requires Allowed(w, e) && Issued(w.q, id) && !Queues(w.q, id)
    ensures var w' := Next(w, cfg, e); Issued(w'.q, id) && !Queues(w'.q, id)
  {
    if e.Enqueued? {
      EnqueueIntroducesFresh(w, cfg, e.req, e.victim, id);
    } else {
      OthersIntroduceNone(w, cfg, e);
    }
  }

  /** An identity that has left the queue never returns, in any run. */
  lemma {:induction false} GoneForever(w: World, cfg: Config, events: seq<Event>, w': World, id: nat)
    requires Inv(w, cfg) && Runs(w, cfg, events, w') && Issued(w.q, id) && !Queues(w.q, id)
    ensures Issued(w'.q, id) && !Queues(w'.q, id)
    decreases |events|
  {
    if events != [] {
      NextKeeps(w, cfg, events[0]);
      NextNeverRevives(w, cfg, events[0], id);
      GoneForever(Next(w, cfg, events[0]), cfg, events[1..], w', id);
    }
  }

  /** A stale replay never touches its replacement: once `t` has been replaced, then after
      any further run its completion, failure, claim release and stage transitions leave
      the whole queue unchanged. */
  lemma StaleReplayIsHarmless(w: World, cfg: Config, req: Request, victim: Option<Key>, events: seq<Event>, w': World, t: Ticket, work: Work)
    requires Inv(w, cfg) && Holds(w.q, t) && Scanned(w.q, victim)
    requires KeyOf(req.work) == KeyOf(t.work) && Enqueue(w.q, cfg, req, victim).1.Replaced?
    requires Runs(Next(w, cfg, Enqueued(req, victim)), cfg, events, w')
    ensures Complete(w'.q, t) == w'.q && RecordFailure(w'.q, t) == w'.q && ReleaseClaim(w'.q, t) == w'.q
    ensures AdvanceStage(w'.q, t) == w'.q && PopulateStage(w'.q, t, work) == w'.q
  {
    var next := Next(w, cfg, Enqueued(req, victim));
    assert EntryOk(w, KeyOf(t.work));
    forall k | k in next.q.entries ensures next.q.entries[k].ticket.id != t.id {
      if k != KeyOf(t.work) {
        assert EntryOk(w, k);
      }
    }
    assert !Queues(next.q, t.id);
    NextKeeps(w, cfg, Enqueued(req, victim));
    GoneForever(next, cfg, events, w', t.id);
    HeldIsQueued(w'.q, t);
  }

  lemma HeldIsQueued(q: Queue, t: Ticket)
    ensures Holds(q, t) ==> Queues(q, t.id)
  {
  }

  // ---- Retry budgets and claims -------------------------------------------------------

  lemma StartHolds(cfg: Config)
    ensures Inv(START, cfg)
  {
  }

  /** The work has `r` retries: failures up to the r-th keep it, and the next one, when it
      comes, removes it. */
  predicate HasRetries(w: World, t: Ticket, r: nat)
    requires t.id in w.failures
  {
    w.failures[t.id] <= r && (Holds(RecordFailure(w.q, t), t) <==> w.failures[t.id] < r)
  }

  /** The retry budget, in every run and for every queued ticket: a data item's own number of
      retries if it has one, else the configured number, which is also that of marker work;
      without either, no failure removes it. Pauses and stage changes count for nothing. */
  lemma RetryBudget(cfg: Config, events: seq<Event>, w: World, t: Ticket)
    requires Runs(START, cfg, events, w) && Holds(w.q, t)
    ensures t.id in w.origins && t.id in w.failures
    ensures match w.origins[t.id]
      case Data(_, _, _, Some(r), _) => HasRetries(w, t, r)
      case _ => if cfg.maxRetries.Some? then HasRetries(w, t, cfg.maxRetries.value) else Holds(RecordFailure(w.q, t), t)
  {
    StartHolds(cfg);
    RunKeeps(START, cfg, events, w);
    assert EntryOk(w, KeyOf(t.work));
  }

  predicate IssuedFor(w: World, id: nat, req: Request) {
    && id in w.origins && w.origins[id] == req.work && id in w.failures && w.failures[id] == 0
    && KeyOf(req.work) in w.q.entries && w.q.entries[KeyOf(req.work)].ticket.id == id
  }

  lemma InstallQueues(q: Queue, cfg: Config, req: Request)
    requires q.nextId.Some?
    ensures var (r, outcome) := Install(q, cfg, req);
      && (outcome.Admitted? || outcome.Replaced?) && outcome.id == q.nextId.value
      && KeyOf(req.work) in r.entries && r.entries[KeyOf(req.work)].ticket.id == outcome.id
  {
  }

  /** An identity's work is the one its admission asked for. */
  lemma OriginIsTheRequest(w: World, cfg: Config, req: Request, victim: Option<Key>)
    requires Scanned(w.q, victim) && (Enqueue(w.q, cfg, req, victim).1.Admitted? || Enqueue(w.q, cfg, req, victim).1.Replaced?)
    ensures IssuedFor(Next(w, cfg, Enqueued(req, victim)), Enqueue(w.q, cfg, req, victim).1.id, req)
  {
    var room := MakeRoom(w.q, req.work, victim);
    if w.q.nextId.Some? {
      InstallQueues(w.q, cfg, req);
      InstallQueues(room, cfg, req);
    }
  }

  /** No identity is replayed by two claimants at once. */
  lemma ExclusiveClaim(cfg: Config, events: seq<Event>, w: World, key: Key)
    requires Runs(START, cfg, events, w)
    ensures var t := Claim(w.q, key).1; t.Some? ==> t.value.id !in w.claims
    ensures key in w.q.entries && w.q.entries[key].ticket.id in w.claims ==> Claim(w.q, key) == (w.q, None)
  {
    StartHolds(cfg);
    RunKeeps(START, cfg, events, w);
    if key in w.q.entries {
      assert EntryOk(w, key);
    }
  }

  // ---- Capacity --------------------------------------------------------------------------

  /** The queue never exceeds its bound, in any run. */
  lemma Bounded(cfg: Config, events: seq<Event>, w: World)
    requires Runs(START, cfg, events, w)
    ensures cfg.maxItems.Some? ==> |w.q.entries| <= cfg.maxItems.value
  {
    StartHolds(cfg);
    RunKeeps(START, cfg, events, w);
  }

  /** Some queued work expires strictly before the newcomer's bound. */
  predicate Evictable(q: Queue, w: Work) {
    exists k :: k in q.entries && ExpiresAt(q.entries[k].ticket.work).Some? && ExpiresAt(q.entries[k].ticket.work).value < Bound(w)
  }

  /** Capacity evicts only work that expires strictly before the newcomer's bound, never
      non-expiring marker work and never more than one entry. */
  lemma EvictsOnlyEarlier(w: World, cfg: Config, req: Request, victim: Option<Key>, lost: Key)
    requires Inv(w, cfg) && Scanned(w.q, victim)
    requires lost in w.q.entries && lost !in Enqueue(w.q, cfg, req, victim).0.entries
    ensures var expiry := ExpiresAt(w.q.entries[lost].ticket.work); expiry.Some? && expiry.value < Bound(req.work)
    ensures Full(w.q, cfg) && victim == Some(lost)
  {
  }

  /** Rejection for capacity happens exactly when the key is new, the queue is full and
      nothing may be evicted, as with a zero bound; and it changes nothing. */
  lemma RejectionChangesNothing(w: World, cfg: Config, req: Request, victim: Option<Key>)
    requires Inv(w, cfg) && Scanned(w.q, victim)
    ensures var (q, outcome) := Enqueue(w.q, cfg, req, victim);
      && (outcome.CapacityRejected? ==> q == w.q)
      && (outcome.CapacityRejected? <==>
            KeyOf(req.work) !in w.q.entries && Full(w.q, cfg) && !Evictable(w.q, req.work))
  {
    var room := if Full(w.q, cfg) then MakeRoom(w.q, req.work, victim) else w.q;
    if Evictable(w.q, req.work) {
      var k :| k in w.q.entries && ExpiresAt(w.q.entries[k].ticket.work).Some? && ExpiresAt(w.q.entries[k].ticket.work).value < Bound(req.work);
      assert victim.Some?;
    }
    if victim.Some? && ExpiresAt(w.q.entries[victim.value].ticket.work).value < Bound(req.work) {
      assert Evictable(w.q, req.work);
    }
  }

  /** The newcomer is newer than what is queued under its key: by generation if both are
      fenced, else by the time of a data mutation, the version of a marker, or the version and
      then the creation of a marker snapshot. */
  predicate IsNewer(req: Request, queued: Ticket) {
    if req.fence.Some? && queued.fenced then req.fence.value > queued.generation
    else match req.work
      case Data(_, timestamp, _, _, _) => queued.work.Data? && timestamp > queued.work.timestamp
      case MarkerSnapshot(_, _, version, created, _) =>
        queued.work.MarkerSnapshot?
        && (version > queued.work.version || (version == queued.work.version && created > queued.work.created))
      case Marker(_, _, version, _) => (queued.work.Marker? || queued.work.MarkerMutation?) && version > queued.work.version
      case MarkerMutation(_, _, version, _, _) => (queued.work.Marker? || queued.work.MarkerMutation?) && version > queued.work.version
  }

  /** The whole decision of admission, for a queue within its bound whose entries sit under
      their own keys. */
  lemma EnqueueDecides(q: Queue, cfg: Config, req: Request, victim: Option<Key>)
    requires Scanned(q, victim) && (cfg.maxItems.Some? ==> |q.entries| <= cfg.maxItems.value)
    requires KeyOf(req.work) in q.entries ==> KeyOf(q.entries[KeyOf(req.work)].ticket.work) == KeyOf(req.work)
    ensures var key := KeyOf(req.work); var outcome := Enqueue(q, cfg, req, victim).1;
      if key in q.entries then
        if !IsNewer(req, q.entries[key].ticket) then outcome == Superseded
        else if q.nextId.None? then outcome == IdentityExhausted else outcome == Replaced(q.nextId.value)
      else if cfg.maxItems == Some(|q.entries|) && !Evictable(q, req.work) then outcome == CapacityRejected
      else if q.nextId.None? then outcome == IdentityExhausted
      else outcome == Admitted(q.nextId.value)
  {
    if Evictable(q, req.work) {
      var k :| k in q.entries && ExpiresAt(q.entries[k].ticket.work).Some? && ExpiresAt(q.entries[k].ticket.work).value < Bound(req.work);
      assert victim.Some?;
    }
  }

  /** The newcomer's bound: its own expiry, or the end of time for work that never expires. */
  lemma BoundMeans(w: Work)
    ensures w.Data? || w.MarkerSnapshot? ==> Bound(w) == w.expiry
    ensures w.Marker? || w.MarkerMutation? ==> Bound(w) == 0x7FFF_FFFF_FFFF_FFFF
  {
  }

  /** The work still has something to store. */
  predicate Stores(w: Work) {
    match w
    case Data(_, _, _, _, mutation) => !mutation.Notify?
    case Marker(_, _, _, stage) => !stage.NotifyOnly?
    case MarkerMutation(_, _, _, phase, _) => !phase.Notifying?
    case MarkerSnapshot(_, _, _, _, _) => true
  }

  /** Advancing the stage never stores again: what is left only notifies, with the same key,
      time, expiry and retries, and there is no stage after it; a data mutation goes on to
      exactly the notification it carried. */
  lemma StageOnlyNotifies(w: Work)
    requires NotificationStage(w).Some?
    ensures var next := NotificationStage(w).value;
      && Stores(w) && !Stores(next) && NotificationStage(next).None?
      && KeyOf(next) == KeyOf(w) && TimestampOf(next) == TimestampOf(w) && ExpiresAt(next) == ExpiresAt(w)
      && (w.Data? ==> next.retries == w.retries && !w.mutation.Legacy? && w.mutation.notification == Some(next.mutation.command))
      && (w.MarkerMutation? ==> next.debt == w.debt && next.phase.extra == w.phase.extra)
  {
  }

  /** What still stores and has a notification to follow does have a next stage. */
  lemma StageExists(w: Work)
    ensures w.Data? && (w.mutation.Commit? || w.mutation.FencedCommit? || w.mutation.ColdExpire?) && w.mutation.notification.Some? ==>
              NotificationStage(w).Some?
    ensures w.Marker? && w.stage.AdvanceAndNotify? ==> NotificationStage(w).Some?
    ensures w.MarkerMutation? && w.phase.Populate? && !w.phase.quiet ==> NotificationStage(w).Some?
  {
  }

  /** An exhausted identity sequence is reported after the capacity rule has run: the error
      leaves the queue unchanged exactly when the rule had nothing to evict. */
  lemma ExhaustionMayEvict(w: World, cfg: Config, req: Request, victim: Option<Key>)
    requires Inv(w, cfg) && Scanned(w.q, victim) && Enqueue(w.q, cfg, req, victim).1.IdentityExhausted?
    ensures Enqueue(w.q, cfg, req, victim).0 == w.q
            <==> KeyOf(req.work) in w.q.entries || !Full(w.q, cfg) || !Evictable(w.q, req.work)
  {
    var room := if Full(w.q, cfg) then MakeRoom(w.q, req.work, victim) else w.q;
    if Evictable(w.q, req.work) {
      var k :| k in w.q.entries && ExpiresAt(w.q.entries[k].ticket.work).Some? && ExpiresAt(w.q.entries[k].ticket.work).value < Bound(req.work);
      assert victim.Some? && victim.value in w.q.entries;
    }
    if victim.Some? && ExpiresAt(w.q.entries[victim.value].ticket.work).value < Bound(req.work) {
      assert Evictable(w.q, req.work);
    }
  }

  const ONE_ITEM: Config := Config(true, Some(1), None)

  function Rewrite(n: nat): Request { Request(Data("a", n, 1, None, Legacy), None) }

  /** The queue after one key has been rewritten `n` times. */
  function Sole(n: nat): Queue {
    Queue(map[DataKey("a") := Queued(Ticket(n, Rewrite(n).work, n, false), None, false)],
          if n < MAX_U64 then Some(n + 1) else None)
  }

  lemma {:induction false} RunsOn(w: World, cfg: Config, events: seq<Event>, w': World, e: Event)
    requires Runs(w, cfg, events, w') && Allowed(w', e)
    ensures Runs(w, cfg, events + [e], Next(w', cfg, e))
    decreases |events|
  {
    if events == [] {
      assert [e][1..] == [] && events + [e] == [e];
    } else {
      assert (events + [e])[1..] == events[1..] + [e];
      RunsOn(Next(w, cfg, events[0]), cfg, events[1..], w', e);
    }
  }

  lemma SoleAdvances(w: World, n: nat)
    requires w.q == Sole(n) && 0 < n < MAX_U64
    ensures Scanned(w.q, Some(DataKey("a")))
    ensures Next(w, ONE_ITEM, Enqueued(Rewrite(n + 1), Some(DataKey("a")))).q == Sole(n + 1)
  {
    assert w.q.entries[DataKey("a") := Sole(n + 1).entries[DataKey("a")]] == Sole(n + 1).entries;
  }

  /** Rewriting one key uses up the identities one by one. */
  lemma {:induction false} Rewrites(n: nat) returns (events: seq<Event>, w: World)
    requires 0 < n <= MAX_U64
    ensures Runs(START, ONE_ITEM, events, w) && w.q == Sole(n)
    decreases n
  {
    if n == 1 {
      var e := Enqueued(Rewrite(1), None);
      RunsOn(START, ONE_ITEM, [], START, e);
      events, w := [e], Next(START, ONE_ITEM, e);
      assert [] + [e] == events;
      assert w.q.entries == Sole(1).entries;
    } else {
      events, w := Rewrites(n - 1);
      SoleAdvances(w, n - 1);
      var e := Enqueued(Rewrite(n), Some(DataKey("a")));
      RunsOn(START, ONE_ITEM, events, w, e);
      events, w := events + [e], Next(w, ONE_ITEM, e);
    }
  }

  /** A run of the service in which the error costs the only queued work: the last identity
      is in use, a new key arrives, its earlier-expiring neighbour is evicted, and then no
      identity is left. */
  lemma ExhaustionLosesWork()
    ensures exists events: seq<Event>, w: World ::
              && Runs(START, ONE_ITEM, events, w) && |w.q.entries| == 1 && Scanned(w.q, Some(DataKey("a")))
              && Enqueue(w.q, ONE_ITEM, Request(Data("b", 0, 2, None, Legacy), None), Some(DataKey("a")))
                 == (Queue(map[], None), IdentityExhausted)
  {
    var events, w := Rewrites(MAX_U64);
    assert "b" != "a" by { assert "b"[0] != "a"[0]; }
    assert w.q.entries - {DataKey("a")} == map[];
    assert Scanned(w.q, Some(DataKey("a")));
  }

  /** Fenced work is replaced only by a strictly newer generation, other work only by
      work that supersedes it. */
  lemma ReplacementIsNewer(q: Queue, cfg: Config, req: Request, victim: Option<Key>)
    requires Scanned(q, victim) && KeyOf(req.work) in q.entries && Enqueue(q, cfg, req, victim).1.Replaced?
    ensures var earlier := q.entries[KeyOf(req.work)].ticket;
      var now := Enqueue(q, cfg, req, victim).0.entries[KeyOf(req.work)].ticket;
      && (earlier.fenced && now.fenced ==> now.generation > earlier.generation)
      && (!(earlier.fenced && now.fenced) ==> Supersedes(req.work, earlier.work))
  {
  }

  /** The work carries a clear at least as strong as the one owed. */
  predicate StillOwes(w: Work, owed: Debt) {
    w.MarkerMutation? && w.debt.Some? && w.debt.value.version >= owed.version
  }

  /** What a marker mutation owes: the strongest of the clear its own compaction committed and
      the one it took over, if there is any. */
  lemma OwedIsStrongest(scope: string, kind: string, version: int, phase: Phase, debt: Option<Debt>)
    ensures var owed := Owed(MarkerMutation(scope, kind, version, phase, debt));
      && (!phase.Advance? && phase.extra.Some? ==> owed.Some? && owed.value.version >= phase.extra.value)
      && (debt.Some? ==> owed.Some? && owed.value.version >= debt.value.version)
      && (owed.Some? ==> owed == debt || (!phase.Advance? && phase.extra == Some(owed.value.version)))
  {
  }

  /** A replaced marker mutation's owed clear survives exactly if the newcomer is another
      marker mutation or a marker that only has to notify. */
  lemma OwedClearSurvives(q: Queue, cfg: Config, req: Request, victim: Option<Key>)
    requires Scanned(q, victim) && KeyOf(req.work) in q.entries && Enqueue(q, cfg, req, victim).1.Replaced?
    requires KeyOf(q.entries[KeyOf(req.work)].ticket.work) == KeyOf(req.work)
    requires Owed(q.entries[KeyOf(req.work)].ticket.work).Some?
    ensures StillOwes(Enqueue(q, cfg, req, victim).0.entries[KeyOf(req.work)].ticket.work,
                      Owed(q.entries[KeyOf(req.work)].ticket.work).value)
       <==> req.work.MarkerMutation? || (req.work.Marker? && req.work.stage.NotifyOnly?)
  {
  }

  const UNBOUNDED: Config := Config(true, None, None)

  /** A run that loses one: a marker mutation advances and its compaction commits a clear,
      then a newer marker that has yet to advance replaces it, and the clear is owed no more. */
  lemma OwedClearCanBeLost(scope: string, kind: string)
    ensures var key := MarkerKey(scope, kind);
      var mutation := MarkerMutation(scope, kind, 1, Advance(false), None);
      var populated := MarkerMutation(scope, kind, 1, Populate(false, Some(5)), None);
      var newer := Marker(scope, kind, 2, AdvanceOnly);
      var e0 := Enqueued(Request(mutation, None), None);
      var e1 := Populated(Ticket(1, mutation, 1, false), populated);
      var e2 := Enqueued(Request(newer, None), None);
      exists w, v ::
        && Runs(START, UNBOUNDED, [e0, e1], w) && Runs(START, UNBOUNDED, [e0, e1, e2], v)
        && key in w.q.entries && Owed(w.q.entries[key].ticket.work) == Some(Debt(5, false))
        && key in v.q.entries && v.q.entries[key].ticket.work == newer
  {
    var mutation := MarkerMutation(scope, kind, 1, Advance(false), None);
    var populated := MarkerMutation(scope, kind, 1, Populate(false, Some(5)), None);
    var newer := Marker(scope, kind, 2, AdvanceOnly);
    var e0 := Enqueued(Request(mutation, None), None);
    var e1 := Populated(Ticket(1, mutation, 1, false), populated);
    var e2 := Enqueued(Request(newer, None), None);
    var w0 := Next(START, UNBOUNDED, e0);
    RunsOn(START, UNBOUNDED, [], START, e0);
    assert [] + [e0] == [e0];
    var w := Next(w0, UNBOUNDED, e1);
    RunsOn(START, UNBOUNDED, [e0], w0, e1);
    assert [e0] + [e1] == [e0, e1];
    assert Scanned(w.q, None);
    var v := Next(w, UNBOUNDED, e2);
    RunsOn(START, UNBOUNDED, [e0, e1], w, e2);
    assert [e0, e1] + [e2] == [e0, e1, e2];
  }
}
