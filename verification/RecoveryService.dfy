/** The recovery service's mutex-held state and its drain (src/recovery.rs). */
module RecoveryService {
  import opened Prelude
  import opened Recovery
  import opened RecoveryRuns

  datatype ReplayOutcome = Paused | Applied | Obsolete | Lapsed | Failure

  /** What the outcome of a replay does to a claimed ticket. */
  function SettleClaim(q: Queue, now: int, current: Ticket -> bool, replay: Ticket -> ReplayOutcome, t: Ticket): Queue {
    if (ExpiresAt(t.work).Some? && now >= ExpiresAt(t.work).value) || !current(t) then Complete(q, t)
    else match replay(t)
      case Paused => ReleaseClaim(q, t)
      case Failure => RecordFailure(q, t)
      case _ => Complete(q, t)
  }

  /** Draining one key, with nothing else running meanwhile. */
  function DrainKey(q: Queue, now: int, current: Ticket -> bool, replay: Ticket -> ReplayOutcome, key: Key): Queue {
    var (claimed, t) := Claim(q, key);
    if t.None? then q else SettleClaim(claimed, now, current, replay, t.value)
  }

  function DrainKeys(q: Queue, now: int, current: Ticket -> bool, replay: Ticket -> ReplayOutcome, keys: seq<Key>): Queue
    decreases |keys|
  {
    if keys == [] then q
    else DrainKey(DrainKeys(q, now, current, replay, keys[..|keys| - 1]), now, current, replay, keys[|keys| - 1])
  }

  predicate Distinct(keys: seq<Key>) { forall i, j | 0 <= i < j < |keys| :: keys[i] != keys[j] }

  /** The service's mutex-held state. `world` is its history: every method is one of the
      events of `RecoveryRuns`, so whatever is proved of runs holds of its callers. */
  class AutoRecoveryService {
    const config: Config
    var entries: map<Key, Queued>
    var nextId: Option<nat>
    var stopped: bool
    ghost var world: World

    function State(): Queue
      reads this
    {
      Queue(entries, nextId)
    }

    /** Entries sit under their own keys with unique issued identities, the bound holds, and
        remaining attempts and claims agree with the history. */
    ghost predicate Valid()
      reads this
    {
      world.q == State() && Inv(world, config)
    }

    constructor (config: Config)
      ensures Valid() && State() == EMPTY && this.config == config && !stopped && world == START
    {
      this.config := config;
      entries, nextId, stopped, world := map[], Some(1), false, START;
    }

    /** The capacity scan: an entry of least expiry among those that expire. */
    method FindEarliest() returns (victim: Option<Key>)
      ensures Scanned(State(), victim)
    {
      victim := None;
      var unseen := entries.Keys;
      while unseen != {}
        invariant unseen <= entries.Keys
        invariant victim.Some? ==> victim.value in entries && ExpiresAt(entries[victim.value].ticket.work).Some?
        invariant forall k | k in entries && k !in unseen && ExpiresAt(entries[k].ticket.work).Some? ::
                    victim.Some? && ExpiresAt(entries[victim.value].ticket.work).value <= ExpiresAt(entries[k].ticket.work).value
        decreases |unseen|
      {
        var k :| k in unseen;
        unseen := unseen - {k};
        var expiry := ExpiresAt(entries[k].ticket.work);
        if expiry.Some? && (victim.None? || expiry.value < ExpiresAt(entries[victim.value].ticket.work).value) {
          victim := Some(k);
        }
      }
    }

    /** Installs work under a new identity, or reports that none is left. */
    method InstallWork(work: Work, fence: Option<nat>) returns (outcome: Outcome)
      requires Valid() && (KeyOf(work) in entries || !Full(State(), config))
      modifies this`entries, this`nextId, this`world
      ensures Valid() && (State(), outcome) == Install(old(State()), config, Request(work, fence))
      ensures old(nextId).None? ==> outcome == IdentityExhausted && world == old(world)
      ensures old(nextId).Some? ==> world == Enrolled(old(world), config, Request(work, fence))
    {
      if nextId.None? {
        return IdentityExhausted;
      }
      InstallKeeps(world, config, Request(work, fence));
      world := Enrolled(world, config, Request(work, fence));
      var id, key := nextId.value, KeyOf(work);
      nextId := if id < MAX_U64 then Some(id + 1) else None;
      var replaced := key in entries;
      var admitted := if replaced then Inherit(work, entries[key].ticket.work) else work;
      var ticket := Ticket(id, admitted, if fence.Some? then fence.value else id, fence.Some?);
      entries := entries[key := Queued(ticket, Attempts(config, work), false)];
      outcome := if replaced then Replaced(id) else Admitted(id);
    }

    /** Makes room for a new key in a full queue. */
    method Evict(work: Work) returns (ghost victim: Option<Key>)
      requires Valid() && KeyOf(work) !in entries
      modifies this`entries, this`world
      ensures Valid() && Scanned(old(State()), victim)
      ensures State() == MakeRoom(old(State()), work, victim) && world == old(world).(q := State())
    {
      var found := FindEarliest();
      victim := found;
      if found.Some? && ExpiresAt(entries[found.value].ticket.work).value < Bound(work) {
        DropKeeps(world, config, found.value);
        entries := entries - {found.value};
        world := world.(q := State());
      }
    }

    /** The decision taken under the queue mutex; the capacity scan runs only when needed. */
    method EnqueueLocked(work: Work, fence: Option<nat>) returns (outcome: Outcome, ghost victim: Option<Key>)
      requires Valid()
      modifies this`entries, this`nextId, this`world
      ensures Valid() && Scanned(old(State()), victim)
      ensures outcome == Enqueue(old(State()), config, Request(work, fence), victim).1
      ensures world == Next(old(world), config, Enqueued(Request(work, fence), victim))
    {
      victim := SomeScan(State());
      ghost var before := world;
      var key := KeyOf(work);
      if key in entries && Older(Request(work, fence), entries[key].ticket) {
        return Superseded, victim;
      }
      if key !in entries && config.maxItems.Some? && |entries| >= config.maxItems.value {
        victim := Evict(work);
        EnqueueInFull(before, config, Request(work, fence), victim);
        if |entries| >= config.maxItems.value {
          return CapacityRejected, victim;
        }
      }
      outcome := InstallWork(work, fence);
    }

    /** `enqueue_work`. The early refusals change nothing. Otherwise only the work's own key
        and at most one evicted key change, the evicted one expiring strictly before the
        newcomer's bound, and installed work is pending under the reported identity. */
    method EnqueueWork(work: Work, fence: Option<nat>, fenceCurrent: bool, now: int)
      returns (outcome: Outcome, ghost victim: Option<Key>)
      requires Valid()
      modifies this`entries, this`nextId, this`world
      ensures Valid() && Scanned(old(State()), victim)
      ensures
        if !config.enabled then outcome == Disabled && world == old(world)
        else if stopped then outcome == Stopped && world == old(world)
        else if ExpiresAt(work).Some? && now >= ExpiresAt(work).value then outcome == Expired && world == old(world)
        else if fence.Some? && !fenceCurrent then outcome == Superseded && world == old(world)
        else outcome == Enqueue(old(State()), config, Request(work, fence), victim).1
             && world == Next(old(world), config, Enqueued(Request(work, fence), victim))
      ensures forall k | k != KeyOf(work) && Some(k) != victim :: SameAt(old(State()), State(), k)
      ensures forall k | k in old(entries) && k !in entries ::
                ExpiresAt(old(entries)[k].ticket.work).Some? && ExpiresAt(old(entries)[k].ticket.work).value < Bound(work)
      ensures outcome.Admitted? || outcome.Replaced? ==>
                KeyOf(work) in entries && entries[KeyOf(work)].ticket.id == outcome.id && !entries[KeyOf(work)].inFlight
    {
      victim := SomeScan(State());
      if !config.enabled {
        return Disabled, victim;
      }
      if stopped {
        return Stopped, victim;
      }
      if ExpiresAt(work).Some? && now >= ExpiresAt(work).value {
        return Expired, victim;
      }
      if fence.Some? && !fenceCurrent {
        return Superseded, victim;
      }
      ghost var before := State();
      outcome, victim := EnqueueLocked(work, fence);
      EnqueueIsLocal(before, config, Request(work, fence), victim);
    }

    /** Removes data work up to a generation, and nothing else. */
    method Supersede(name: string, generation: nat) returns (removed: bool)
      requires Valid()
      modifies this`entries, this`world
      ensures Valid() && world == Next(old(world), config, SupersededThrough(name, generation))
      ensures removed <==> DataKey(name) in old(entries) && old(entries)[DataKey(name)].ticket.generation <= generation
      ensures entries == if removed then old(entries) - {DataKey(name)} else old(entries)
      ensures DataKey(name) in entries ==> entries[DataKey(name)].ticket.generation > generation
    {
      NextKeeps(world, config, SupersededThrough(name, generation));
      removed := DataKey(name) in entries && entries[DataKey(name)].ticket.generation <= generation;
      if removed {
        entries := entries - {DataKey(name)};
      }
      world := Next(world, config, SupersededThrough(name, generation));
    }

    /** Removes data work up to a time, and nothing else. */
    method CancelUpTo(name: string, at: int) returns (removed: bool)
      requires Valid()
      modifies this`entries, this`world
      ensures Valid() && world == Next(old(world), config, CancelledThrough(name, at))
      ensures removed <==> DataKey(name) in old(entries) && old(entries)[DataKey(name)].ticket.work.Data?
                           && old(entries)[DataKey(name)].ticket.work.timestamp <= at
      ensures entries == if removed then old(entries) - {DataKey(name)} else old(entries)
    {
      NextKeeps(world, config, CancelledThrough(name, at));
      removed := DataKey(name) in entries && TimestampOf(entries[DataKey(name)].ticket.work) <= at;
      if DataKey(name) in entries {
        assert EntryOk(world, DataKey(name));
      }
      if removed {
        entries := entries - {DataKey(name)};
      }
      world := Next(world, config, CancelledThrough(name, at));
    }

    /** Afterwards the identity is gone; work under any other identity is untouched. */
    method CompleteTicket(t: Ticket) returns (removed: bool)
      requires Valid()
      modifies this`entries, this`world
      ensures Valid() && world == Next(old(world), config, Completed(t))
      ensures (removed <==> Holds(old(State()), t)) && !Holds(State(), t)
      ensures forall k | k in old(entries) && old(entries)[k].ticket.id != t.id :: SameAt(old(State()), State(), k)
      ensures removed ==> !Queues(State(), t.id)
    {
      NextKeeps(world, config, Completed(t));
      removed := KeyOf(t.work) in entries && entries[KeyOf(t.work)].ticket.id == t.id;
      if removed {
        CompletedIsGone(world, config, t);
        entries := entries - {KeyOf(t.work)};
      }
      world := Next(world, config, Completed(t));
    }

    /** A failure of claimed work costs one attempt: with one left the entry goes, else it
        is pending again under the same identity. Other keys are untouched. */
    method Fail(t: Ticket)
      requires Valid() && Claimant(world, t)
      modifies this`entries, this`world
      ensures Valid() && world == Next(old(world), config, Failed(t))
      ensures State() == RecordFailure(old(State()), t) && world.claims == old(world).claims - {t.id}
      ensures ChangesOnly(old(State()), State(), KeyOf(t.work))
      ensures Holds(old(State()), t) ==>
                var before := old(entries)[KeyOf(t.work)];
                if before.remaining == Some(1) then !Holds(State(), t)
                else Holds(State(), t) && entries[KeyOf(t.work)].ticket == before.ticket && !entries[KeyOf(t.work)].inFlight
                     && (before.remaining.Some? ==> entries[KeyOf(t.work)].remaining == Some(before.remaining.value - 1))
      ensures !Holds(old(State()), t) ==> State() == old(State())
    {
      NextKeeps(world, config, Failed(t));
      InvIsKeyed(world, config);
      SettlingIsLocal(State(), t);
      ghost var after := Next(world, config, Failed(t));
      var key := KeyOf(t.work);
      if key in entries && entries[key].ticket.id == t.id {
        assert EntryOk(world, key);
        var queued := entries[key];
        if queued.remaining.Some? && queued.remaining.value <= 1 {
          entries := entries - {key};
        } else if queued.remaining.Some? {
          entries := entries[key := queued.(remaining := Some(queued.remaining.value - 1), inFlight := false)];
        } else {
          entries := entries[key := queued.(inFlight := false)];
        }
      }
      world := after;
    }

    /** Claims exactly pending work: the ticket is in flight, under an identity that nobody
        else was replaying, and nothing else changes. */
    method TryClaim(key: Key) returns (t: Option<Ticket>)
      requires Valid()
      modifies this`entries, this`world
      ensures Valid() && world == Next(old(world), config, Claimed(key))
      ensures t.Some? <==> key in old(entries) && !old(entries)[key].inFlight
      ensures t.None? ==> State() == old(State()) && world == old(world)
      ensures t.Some? ==> && t.value == old(entries)[key].ticket && entries == old(entries)[key := old(entries)[key].(inFlight := true)]
                          && t.value.id !in old(world).claims && Claimant(world, t.value) && KeyOf(t.value.work) == key
                          && world.claims == old(world).claims + {t.value.id}
    {
      NextKeeps(world, config, Claimed(key));
      ghost var after := Next(world, config, Claimed(key));
      if key !in entries || entries[key].inFlight {
        t := None;
      } else {
        assert EntryOk(world, key);
        t := Some(entries[key].ticket);
        entries := entries[key := entries[key].(inFlight := true)];
      }
      world := after;
    }

    /** A claim dropped unfinished makes its own work pending again at no cost. */
    method DropClaim(t: Ticket)
      requires Valid() && Claimant(world, t)
      modifies this`entries, this`world
      ensures Valid() && world == Next(old(world), config, Released(t))
      ensures State() == ReleaseClaim(old(State()), t) && world.claims == old(world).claims - {t.id}
      ensures ChangesOnly(old(State()), State(), KeyOf(t.work))
      ensures Holds(old(State()), t) ==>
                KeyOf(t.work) in entries && entries[KeyOf(t.work)] == old(entries)[KeyOf(t.work)].(inFlight := false)
      ensures !Holds(old(State()), t) ==> State() == old(State())
    {
      NextKeeps(world, config, Released(t));
      InvIsKeyed(world, config);
      SettlingIsLocal(State(), t);
      ghost var after := Next(world, config, Released(t));
      if KeyOf(t.work) in entries && entries[KeyOf(t.work)].ticket.id == t.id {
        entries := entries[KeyOf(t.work) := entries[KeyOf(t.work)].(inFlight := false)];
      }
      world := after;
    }

    /** Advances the stage of work still queued under the ticket's identity, keeping its
        identity, attempts and claim. */
    method NotifyStage(t: Ticket) returns (advanced: bool)
      requires Valid()
      modifies this`entries, this`world
      ensures Valid() && world == Next(old(world), config, Advanced(t))
      ensures advanced <==> Holds(old(State()), t) && NotificationStage(old(entries)[KeyOf(t.work)].ticket.work).Some?
      ensures !advanced ==> State() == old(State())
      ensures advanced ==>
                var before := old(entries)[KeyOf(t.work)];
                entries == old(entries)[KeyOf(t.work) := before.(ticket := before.ticket.(work := NotificationStage(before.ticket.work).value))]
    {
      NextKeeps(world, config, Advanced(t));
      ghost var after := Next(world, config, Advanced(t));
      var key := KeyOf(t.work);
      advanced := false;
      if key in entries && entries[key].ticket.id == t.id {
        var next := NotificationStage(entries[key].ticket.work);
        advanced := next.Some?;
        if advanced {
          entries := entries[key := entries[key].(ticket := entries[key].ticket.(work := next.value))];
        }
      }
      world := after;
    }

    /** Settles one claimed ticket by the outcome of its replay, giving the claim back. */
    method Settle(t: Ticket, now: int, current: Ticket -> bool, replay: Ticket -> ReplayOutcome)
      requires Valid() && Claimant(world, t)
      modifies this`entries, this`world
      ensures Valid() && world.claims == old(world).claims - {t.id} && nextId == old(nextId)
      ensures State() == SettleClaim(old(State()), now, current, replay, t)
    {
      if (ExpiresAt(t.work).Some? && now >= ExpiresAt(t.work).value) || !current(t) {
        FinishClaim(t);
        return;
      }
      match replay(t) {
        case Paused => DropClaim(t);
        case Failure => Fail(t);
        case _ => FinishClaim(t);
      }
    }

    /** Completion by the claimant itself ends its claim. */
    method FinishClaim(t: Ticket)
      requires Valid() && Claimant(world, t)
      modifies this`entries, this`world
      ensures Valid() && world.claims == old(world).claims - {t.id}
      ensures State() == Complete(old(State()), t)
    {
      var _ := CompleteTicket(t);
      NextKeeps(world, config, Released(t));
      world := Next(world, config, Released(t));
    }

    /** `drain_once` over a snapshot `keys` of the queue's keys, in the order the map yields
        them. Every entry that was pending is settled, work in flight elsewhere is untouched,
        and every claim taken is given back. */
    method DrainOnce(paused: bool, now: int, current: Ticket -> bool, replay: Ticket -> ReplayOutcome, keys: seq<Key>)
      requires Valid() && Distinct(keys) && forall k :: k in keys <==> k in entries
      modifies this`entries, this`world
      ensures Valid() && world.claims == old(world).claims
      ensures paused ==> State() == old(State())
      ensures !paused ==> forall k | k in old(entries) :: Settled(old(State()), State(), now, current, replay, k)
      ensures !paused ==> entries.Keys <= old(entries).Keys
    {
      if paused {
        return;
      }
      ghost var before := State();
      for n := 0 to |keys|
        invariant Valid() && world.claims == old(world).claims
        invariant State() == DrainKeys(before, now, current, replay, keys[..n])
      {
        assert keys[..n + 1][..n] == keys[..n];
        var ticket := TryClaim(keys[n]);
        if ticket.Some? {
          Settle(ticket.value, now, current, replay);
        }
      }
      assert keys[..|keys|] == keys;
      InvIsKeyed(world, config);
      DrainResult(before, now, current, replay, keys);
    }
  }

  // ---- What the methods rely on ------------------------------------------------------------

  predicate SameAt(q: Queue, q': Queue, k: Key) {
    (k in q'.entries <==> k in q.entries) && (k in q.entries ==> q'.entries[k] == q.entries[k])
  }

  lemma InvIsKeyed(w: World, cfg: Config)
    requires Inv(w, cfg)
    ensures Keyed(w.q)
  {
    assert forall k | k in w.q.entries :: EntryOk(w, k);
  }

  /** Some scan result exists, whether or not the queue needs one. */
  lemma SomeScan(q: Queue) returns (victim: Option<Key>)
    ensures Scanned(q, victim)
  {
    if k :| k in q.entries && ExpiresAt(q.entries[k].ticket.work).Some? {
      var earliest := EarliestAmong(q, q.entries.Keys, k);
      victim := Some(earliest);
    } else {
      victim := None;
    }
  }

  lemma {:induction false} EarliestAmong(q: Queue, keys: set<Key>, k: Key) returns (earliest: Key)
    requires keys <= q.entries.Keys && k in q.entries && ExpiresAt(q.entries[k].ticket.work).Some?
    ensures earliest in q.entries && ExpiresAt(q.entries[earliest].ticket.work).Some?
    ensures ExpiresAt(q.entries[earliest].ticket.work).value <= ExpiresAt(q.entries[k].ticket.work).value
    ensures forall j | j in keys && ExpiresAt(q.entries[j].ticket.work).Some? ::
              ExpiresAt(q.entries[earliest].ticket.work).value <= ExpiresAt(q.entries[j].ticket.work).value
    decreases keys
  {
    if j :| j in keys {
      var expiry := ExpiresAt(q.entries[j].ticket.work);
      earliest := EarliestAmong(q, keys - {j}, if expiry.Some? && expiry.value < ExpiresAt(q.entries[k].ticket.work).value then j else k);
    } else {
      earliest := k;
    }
  }

  /** A full queue's decision about a new key, in terms of the room it made. */
  lemma EnqueueInFull(w: World, cfg: Config, req: Request, victim: Option<Key>)
    requires Scanned(w.q, victim) && KeyOf(req.work) !in w.q.entries && Full(w.q, cfg)
    ensures var roomy := w.(q := MakeRoom(w.q, req.work, victim));
      && (Full(roomy.q, cfg) ==> Next(w, cfg, Enqueued(req, victim)) == roomy && Enqueue(w.q, cfg, req, victim).1 == CapacityRejected)
      && (!Full(roomy.q, cfg) ==>
            && Enqueue(w.q, cfg, req, victim).1 == Install(roomy.q, cfg, req).1
            && Next(w, cfg, Enqueued(req, victim)) == if roomy.q.nextId.None? then roomy else Enrolled(roomy, cfg, req))
  {
  }

  /** What a caller of admission may rely on about the other keys. */
  ghost predicate AdmitsLocally(q: Queue, q': Queue, outcome: Outcome, work: Work, victim: Option<Key>) {
    && (forall k | k != KeyOf(work) && Some(k) != victim :: SameAt(q, q', k))
    && (forall k | k in q.entries && k !in q'.entries ::
          ExpiresAt(q.entries[k].ticket.work).Some? && ExpiresAt(q.entries[k].ticket.work).value < Bound(work))
    && (outcome.Admitted? || outcome.Replaced? ==>
          KeyOf(work) in q'.entries && q'.entries[KeyOf(work)].ticket.id == outcome.id && !q'.entries[KeyOf(work)].inFlight)
  }

  lemma InstallIsLocal(q: Queue, room: Queue, cfg: Config, req: Request, victim: Option<Key>)
    requires AdmitsLocally(q, room, Superseded, req.work, victim)
    ensures AdmitsLocally(q, Install(room, cfg, req).0, Install(room, cfg, req).1, req.work, victim)
  {
  }

  /** Admission touches its own key and, in a full queue, at most the victim's. */
  lemma EnqueueIsLocal(q: Queue, cfg: Config, req: Request, victim: Option<Key>)
    requires Scanned(q, victim)
    ensures var (q', outcome) := Enqueue(q, cfg, req, victim);
      AdmitsLocally(q, q', outcome, req.work, victim)
  {
    var room := MakeRoom(q, req.work, victim);
    assert AdmitsLocally(q, q, Superseded, req.work, victim) && AdmitsLocally(q, room, Superseded, req.work, victim);
    InstallIsLocal(q, q, cfg, req, victim);
    InstallIsLocal(q, room, cfg, req, victim);
  }

  /** The completed identity was queued nowhere else. */
  lemma CompletedIsGone(w: World, cfg: Config, t: Ticket)
    requires Inv(w, cfg) && Holds(w.q, t)
    ensures !Queues(Complete(w.q, t), t.id)
  {
    assert EntryOk(w, KeyOf(t.work));
    forall k | k in Complete(w.q, t).entries ensures w.q.entries[k].ticket.id != t.id {
      assert EntryOk(w, k);
    }
  }

  predicate Keyed(q: Queue) { forall k | k in q.entries :: KeyOf(q.entries[k].ticket.work) == k }

  /** Only the entry under `key` may differ, and it keeps its key. */
  ghost predicate ChangesOnly(q: Queue, q': Queue, key: Key) {
    && Keyed(q')
    && forall k | k != key :: (k in q'.entries <==> k in q.entries) && (k in q.entries ==> q'.entries[k] == q.entries[k])
  }

  lemma SettlingIsLocal(q: Queue, t: Ticket)
    requires Keyed(q)
    ensures ChangesOnly(q, Complete(q, t), KeyOf(t.work))
    ensures ChangesOnly(q, ReleaseClaim(q, t), KeyOf(t.work))
    ensures ChangesOnly(q, RecordFailure(q, t), KeyOf(t.work))
  {
  }

  /** Draining one key leaves the other keys alone. */
  lemma DrainKeyIsLocal(q: Queue, now: int, current: Ticket -> bool, replay: Ticket -> ReplayOutcome, key: Key)
    requires Keyed(q)
    ensures ChangesOnly(q, DrainKey(q, now, current, replay, key), key)
  {
    var (claimed, t) := Claim(q, key);
    ClaimIsLocal(q, key);
    if t.Some? {
      SettlingIsLocal(claimed, t.value);
      Compose(q, claimed, DrainKey(q, now, current, replay, key), key);
    }
  }

  lemma ClaimIsLocal(q: Queue, key: Key)
    requires Keyed(q)
    ensures ChangesOnly(q, Claim(q, key).0, key)
    ensures Claim(q, key).1.Some? ==> KeyOf(Claim(q, key).1.value.work) == key
  {
  }

  lemma Compose(a: Queue, b: Queue, c: Queue, key: Key)
    requires ChangesOnly(a, b, key) && ChangesOnly(b, c, key)
    ensures ChangesOnly(a, c, key)
  {
  }

  /** A drain settles every pending entry it visits and nothing else: dead or fenced-out
      work and successful replays leave, a failure costs one attempt, a pause costs
      nothing, and work in flight elsewhere is untouched. */
  ghost predicate Settled(q: Queue, q': Queue, now: int, current: Ticket -> bool, replay: Ticket -> ReplayOutcome, k: Key)
    requires k in q.entries
  {
    var before := q.entries[k];
    if before.inFlight then k in q'.entries && q'.entries[k] == before
    else if (ExpiresAt(before.ticket.work).Some? && now >= ExpiresAt(before.ticket.work).value) || !current(before.ticket) then
      k !in q'.entries
    else match replay(before.ticket)
      case Paused => k in q'.entries && q'.entries[k] == before
      case Failure =>
        if before.remaining == Some(0) || before.remaining == Some(1) then k !in q'.entries
        else k in q'.entries && q'.entries[k].ticket == before.ticket && !q'.entries[k].inFlight
             && q'.entries[k].remaining == (if before.remaining.Some? then Some(before.remaining.value - 1) else None)
      case _ => k !in q'.entries
  }

  lemma {:induction false} DrainSettles(q: Queue, now: int, current: Ticket -> bool, replay: Ticket -> ReplayOutcome, keys: seq<Key>, k: Key)
    requires Keyed(q)
    requires Distinct(keys) && k in q.entries
    ensures var q' := DrainKeys(q, now, current, replay, keys);
      && Keyed(q')
      && if k in keys then Settled(q, q', now, current, replay, k) else k in q'.entries && q'.entries[k] == q.entries[k]
    decreases |keys|
  {
    if keys != [] {
      var n := |keys| - 1;
      DrainSettles(q, now, current, replay, keys[..n], k);
      var before := DrainKeys(q, now, current, replay, keys[..n]);
      assert forall i | 0 <= i < n :: keys[..n][i] == keys[i];
      if keys[n] == k {
        assert k !in keys[..n];
        DrainOwnKey(before, now, current, replay, k);
        DrainKeyIsLocal(before, now, current, replay, k);
      } else {
        DrainKeyIsLocal(before, now, current, replay, keys[n]);
      }
    }
  }

  lemma DrainOwnKey(q: Queue, now: int, current: Ticket -> bool, replay: Ticket -> ReplayOutcome, k: Key)
    requires Keyed(q) && k in q.entries
    ensures Settled(q, DrainKey(q, now, current, replay, k), now, current, replay, k)
  {
  }

  /** A whole pass over the keys settles everything and adds nothing. */
  lemma DrainResult(q: Queue, now: int, current: Ticket -> bool, replay: Ticket -> ReplayOutcome, keys: seq<Key>)
    requires Keyed(q) && Distinct(keys) && forall k :: k in keys <==> k in q.entries
    ensures var q' := DrainKeys(q, now, current, replay, keys);
      (forall k | k in q.entries :: Settled(q, q', now, current, replay, k)) && q'.entries.Keys <= q.entries.Keys
  {
    forall k | k in q.entries ensures Settled(q, DrainKeys(q, now, current, replay, keys), now, current, replay, k) {
      DrainSettles(q, now, current, replay, keys, k);
    }
    DrainAddsNothing(q, now, current, replay, keys);
  }

  lemma {:induction false} DrainAddsNothing(q: Queue, now: int, current: Ticket -> bool, replay: Ticket -> ReplayOutcome, keys: seq<Key>)
    ensures DrainKeys(q, now, current, replay, keys).entries.Keys <= q.entries.Keys
    decreases |keys|
  {
    if keys != [] {
      DrainAddsNothing(q, now, current, replay, keys[..|keys| - 1]);
    }
  }
}
