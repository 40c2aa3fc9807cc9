/** Lifetime metadata of cache entries (src/entry.rs) and of their L2 snapshots
    (src/distributed.rs): construction, fail-safe throttling, expiry, hydration,
    reinsertion and the wire round trip. */
module EntryLifetimes {
  import opened Prelude
  import opened Time
  import opened RetentionModel

  datatype Origin = Fresh(eagerAt: Option<Ticks>) | FailSafe

  datatype Retained = Unspecified | Specified(size: Option<nat>, priority: Priority)

  datatype Meta = Meta(created: Ticks, inserted: Ticks, logical: Ticks, physical: Ticks, backendTtl: nat,
                       origin: Origin, retention: Retained)

  /** Durations in ticks. `eager` is present when an eager-refresh threshold is set. */
  datatype Options = Options(memoryDuration: nat, distributedDuration: nat, jitterMax: nat,
                             failSafe: bool, failSafeMax: nat, distributedFailSafeMax: nat, throttle: nat,
                             eager: bool, size: Option<nat>, priority: Priority)

  function PhysicalTtl(o: Options): nat {
    if o.failSafe then Max(o.memoryDuration, o.failSafeMax) else o.memoryDuration
  }

  function DistributedPhysicalTtl(o: Options): nat {
    if o.failSafe then Max(o.distributedDuration, o.distributedFailSafeMax) else o.distributedDuration
  }

  predicate PhysicallyExpired(m: Meta, now: Ticks) { now >= m.physical }

  // ---- Construction -----------------------------------------------------------------------

  /** A fresh entry; `eagerAt` is the sampled refresh instant when a threshold is set. A
      jitter sample above its bound is refused. */
  function PrepareFresh(o: Options, created: Ticks, inserted: Ticks, jitter: nat, eagerAt: Option<Ticks>, conditional: bool): Option<Meta> {
    if jitter > o.jitterMax then None
    else
      var logical := Plus(Plus(inserted, o.memoryDuration), jitter);
      var physical := Later(Plus(inserted, PhysicalTtl(o)), logical);
      var retention :=
        if o.size.Some? || o.priority != Normal || o.failSafe || o.eager || conditional
        then Specified(o.size, o.priority) else Unspecified;
      Some(Meta(created, inserted, logical, physical, Since(physical, inserted),
        Fresh(if o.eager then eagerAt else None), retention))
  }

  /** The lifetimes prepared once for options without jitter and eager refresh. */
  datatype FreshPlan = FreshPlan(logical: nat, physical: nat, retention: Retained)

  function PlanFor(o: Options): Option<FreshPlan> {
    if o.jitterMax != 0 || o.eager then None
    else Some(FreshPlan(o.memoryDuration, PhysicalTtl(o),
      if o.size.Some? || o.priority != Normal || o.failSafe then Specified(o.size, o.priority) else Unspecified))
  }

  function PrepareByPlan(p: FreshPlan, now: Ticks): Meta {
    var logical := Plus(now, p.logical);
    var physical := Later(Plus(now, p.physical), logical);
    Meta(now, now, logical, physical, Since(physical, now), Fresh(None), p.retention)
  }

  /** Where a plan exists, it computes what the general construction computes for every
      accepted jitter sample and eager instant. */
  lemma PlanRefinesFresh(o: Options, now: Ticks, jitter: nat, eagerAt: Option<Ticks>)
    ensures PlanFor(o).Some? ==>
              PrepareFresh(o, now, now, jitter, eagerAt, false)
              == if jitter == 0 then Some(PrepareByPlan(PlanFor(o).value, now)) else None
  {
  }

  function FailSafeDefault(o: Options, now: Ticks): Meta {
    var physical := Plus(now, PhysicalTtl(o));
    Meta(now, now, Earlier(Plus(now, o.throttle), physical), physical, PhysicalTtl(o), FailSafe, Specified(o.size, o.priority))
  }

  // ---- Transformations --------------------------------------------------------------------

  /** What an operation asks of an entry; `eligible` is whether the entry may still be read. */
  datatype Change =
    | Throttle(options: Options, now: Ticks, eligible: bool)
    | Expire(at: Ticks, inserted: Ticks)
    | Hydrate(options: Options, now: Ticks, eligible: bool, eagerAt: Option<Ticks>)
    | Reinsert(inserted: Ticks)
    | RoundTrip(options: Options, inserted: Ticks, now: Ticks)

  function Throttled(m: Meta, o: Options, now: Ticks): Meta {
    m.(inserted := now, logical := Earlier(Plus(now, o.throttle), m.physical),
       backendTtl := Since(m.physical, now), origin := FailSafe)
  }

  function ExpiredAt(m: Meta, at: Ticks, inserted: Ticks): Meta {
    m.(inserted := inserted, logical := Earlier(at, m.physical), backendTtl := Since(m.physical, inserted),
       origin := if m.origin.FailSafe? then FailSafe else Fresh(None))
  }

  function Hydrated(m: Meta, o: Options, now: Ticks, eagerAt: Option<Ticks>): Meta {
    var logical := Earlier(m.logical, Plus(now, o.memoryDuration));
    var physical := Later(Earlier(m.physical, Plus(now, PhysicalTtl(o))), logical);
    m.(inserted := now, logical := logical, physical := physical, backendTtl := Since(physical, now),
       origin := if m.origin.FailSafe? then FailSafe else Fresh(if o.eager && now < logical then eagerAt else None),
       retention := match m.retention
         case Specified(size, priority) => Specified(if size.Some? then size else o.size, priority)
         case Unspecified => Specified(o.size, o.priority))
  }

  function Reinserted(m: Meta, inserted: Ticks): Meta {
    if inserted == m.inserted then m else m.(inserted := inserted, backendTtl := Since(m.physical, inserted))
  }

  /** The deadlines an L2 snapshot carries: renewed for a fresh entry, capped for a
      fail-safe one. */
  datatype Wire = Wire(created: Ticks, logical: Ticks, physical: Ticks, failSafe: bool, retention: Retained)

  function ToWire(m: Meta, o: Options, inserted: Ticks): Wire {
    var logical := Plus(inserted, o.distributedDuration);
    var physical := Plus(inserted, DistributedPhysicalTtl(o));
    if m.origin.FailSafe?
    then Wire(m.created, Earlier(logical, m.logical), Earlier(physical, m.physical), true, m.retention)
    else Wire(m.created, logical, physical, false, m.retention)
  }

  /** Rehydration refuses inverted deadlines. */
  function FromWire(w: Wire, now: Ticks): Option<Meta> {
    if w.logical > w.physical then None
    else Some(Meta(w.created, now, w.logical, w.physical, Since(w.physical, now),
      if w.failSafe then FailSafe else Fresh(None), w.retention))
  }

  /** The changed entry; None when the change finds nothing it may reuse. */
  function Apply(m: Meta, c: Change): Option<Meta> {
    match c
    case Throttle(o, now, eligible) =>
      if !eligible || PhysicallyExpired(m, now) then None else Some(Throttled(m, o, now))
    case Expire(at, inserted) => Some(ExpiredAt(m, at, inserted))
    case Hydrate(o, now, eligible, eagerAt) =>
      if !eligible || PhysicallyExpired(m, now) then None else Some(Hydrated(m, o, now, eagerAt))
    case Reinsert(inserted) => Some(Reinserted(m, inserted))
    case RoundTrip(o, inserted, now) => FromWire(ToWire(m, o, inserted), now)
  }

  function ApplyAll(m: Meta, changes: seq<Change>): Option<Meta>
    decreases |changes|
  {
    if changes == [] then Some(m)
    else
      var next :- Apply(m, changes[0]);
      ApplyAll(next, changes[1..])
  }

  // ---- What every chain keeps ---------------------------------------------------------------

  predicate Ordered(m: Meta) { m.logical <= m.physical }

  /** The backend's remaining time to live is what is left until the physical deadline. */
  predicate TtlExact(m: Meta) { m.backendTtl == Since(m.physical, m.inserted) }

  lemma FreshIsOrdered(o: Options, created: Ticks, inserted: Ticks, jitter: nat, eagerAt: Option<Ticks>, conditional: bool)
    requires PrepareFresh(o, created, inserted, jitter, eagerAt, conditional).Some?
    ensures var m := PrepareFresh(o, created, inserted, jitter, eagerAt, conditional).value;
      Ordered(m) && TtlExact(m) && m.physical >= Plus(inserted, PhysicalTtl(o))
  {
  }

  /** A fail-safe default is ordered, but its time to live is taken from the options: it is
      what is left until the deadline exactly when the deadline did not saturate. */
  lemma DefaultIsOrdered(o: Options, now: Ticks)
    ensures Ordered(FailSafeDefault(o, now))
    ensures TtlExact(FailSafeDefault(o, now)) <==> now + PhysicalTtl(o) <= MAX_TICKS
  {
  }

  /** Such a default: made at the last tick, it has no time left and claims some. */
  lemma DefaultCanOutliveTheClock(o: Options)
    requires PhysicalTtl(o) > 0
    ensures var m := FailSafeDefault(o, MAX_TICKS);
      m.physical == m.inserted && Since(m.physical, m.inserted) == 0 && m.backendTtl > 0 && !TtlExact(m)
  {
    DefaultIsOrdered(o, MAX_TICKS);
  }

  /** Snapshots of ordered entries are never refused on the way back. */
  lemma SnapshotIsValid(m: Meta, o: Options, inserted: Ticks)
    requires Ordered(m)
    ensures ToWire(m, o, inserted).logical <= ToWire(m, o, inserted).physical
  {
  }

  /** How a changed entry relates to its source. */
  predicate Descends(m: Meta, r: Meta) {
    && Ordered(r) && r.created == m.created
    && (m.origin.FailSafe? ==> r.origin.FailSafe? && r.physical <= m.physical)
  }

  lemma StepDescends(m: Meta, c: Change)
    requires Ordered(m) && Apply(m, c).Some?
    ensures Descends(m, Apply(m, c).value)
    ensures TtlExact(Apply(m, c).value) || (c.Reinsert? && Apply(m, c) == Some(m))
  {
  }

  /** Every chain of changes keeps logical at most physical expiration and the creation
      instant; once fail-safe, an entry stays fail-safe and its physical deadline never
      grows, through throttling, expiry, hydration, reinsertion and wire round trips. */
  lemma {:induction false} ChainDescends(m: Meta, changes: seq<Change>)
    requires Ordered(m) && ApplyAll(m, changes).Some?
    ensures Descends(m, ApplyAll(m, changes).value)
    ensures TtlExact(m) ==> TtlExact(ApplyAll(m, changes).value)
    decreases |changes|
  {
    if changes != [] {
      StepDescends(m, changes[0]);
      ChainDescends(Apply(m, changes[0]).value, changes[1..]);
    }
  }

  /** The one way a physical deadline grows: the L2 snapshot of an entry that is not
      fail-safe, written late enough for the renewed deadline to pass the old one. */
  lemma GrowsExactly(m: Meta, c: Change)
    requires Ordered(m) && Apply(m, c).Some?
    ensures Apply(m, c).value.physical > m.physical
       <==> c.RoundTrip? && m.origin.Fresh? && Plus(c.inserted, DistributedPhysicalTtl(c.options)) > m.physical
  {
  }

  /** A chain that starts fail-safe somewhere is bounded from there on: the deadline of any
      throttled entry bounds all its descendants. */
  lemma ThrottlingBounds(m: Meta, o: Options, now: Ticks, changes: seq<Change>)
    requires Ordered(m) && ApplyAll(Throttled(m, o, now), changes).Some?
    ensures var r := ApplyAll(Throttled(m, o, now), changes).value;
      r.origin.FailSafe? && r.physical <= m.physical && r.logical <= m.physical
  {
    ChainDescends(Throttled(m, o, now), changes);
  }

  // ---- What readers see ---------------------------------------------------------------------

  predicate IsFresh(m: Meta, at: Ticks) { at < m.logical }

  predicate IsAlive(m: Meta, at: Ticks) { at < m.physical }

  /** Before the last tick, a fresh entry is fresh for its duration plus jitter and alive for
      the longer of that and, with fail-safe, its maximum. */
  lemma FreshReads(o: Options, created: Ticks, inserted: Ticks, jitter: nat, eagerAt: Option<Ticks>, conditional: bool, at: Ticks)
    requires PrepareFresh(o, created, inserted, jitter, eagerAt, conditional).Some? && at < MAX_TICKS
    ensures var m := PrepareFresh(o, created, inserted, jitter, eagerAt, conditional).value;
      && m.created == created && m.inserted == inserted && m.origin.Fresh?
      && (IsFresh(m, at) <==> at < inserted + o.memoryDuration + jitter)
      && (IsAlive(m, at) <==> IsFresh(m, at) || at < inserted + o.memoryDuration || (o.failSafe && at < inserted + o.failSafeMax))
  {
  }

  /** A throttled entry is served as fresh for the throttle window as long as it lives; its
      life is the source's. */
  lemma ThrottledReads(m: Meta, o: Options, now: Ticks, at: Ticks)
    requires at < MAX_TICKS
    ensures var r := Throttled(m, o, now);
      && r.origin == FailSafe && r.inserted == now && r.retention == m.retention
      && (IsAlive(r, at) <==> IsAlive(m, at))
      && (IsFresh(r, at) <==> IsAlive(m, at) && at < now + o.throttle)
  {
  }

  /** A fail-safe default likewise, with a life of its own. */
  lemma DefaultReads(o: Options, now: Ticks, at: Ticks)
    requires at < MAX_TICKS
    ensures var r := FailSafeDefault(o, now);
      && r.origin == FailSafe && r.created == now
      && (IsAlive(r, at) <==> at < now + o.memoryDuration || (o.failSafe && at < now + o.failSafeMax))
      && (IsFresh(r, at) <==> IsAlive(r, at) && at < now + o.throttle)
  {
  }

  /** An expired entry is fresh only before the given instant, and lives on. */
  lemma ExpiredReads(m: Meta, at0: Ticks, inserted: Ticks, at: Ticks)
    requires Ordered(m)
    ensures var r := ExpiredAt(m, at0, inserted);
      && (IsAlive(r, at) <==> IsAlive(m, at)) && (IsFresh(r, at) <==> IsAlive(m, at) && at < at0)
      && (r.origin.FailSafe? <==> m.origin.FailSafe?) && (r.origin.Fresh? ==> r.origin.eagerAt.None?)
  {
  }

  /** A hydrated entry is fresh while its source is and its memory duration lasts, and alive
      while fresh, or while its source is and its memory lifetime lasts. */
  lemma HydratedReads(m: Meta, o: Options, now: Ticks, eagerAt: Option<Ticks>, at: Ticks)
    requires Ordered(m) && at < MAX_TICKS
    ensures var r := Hydrated(m, o, now, eagerAt);
      && r.inserted == now && (r.origin.FailSafe? <==> m.origin.FailSafe?)
      && (IsFresh(r, at) <==> IsFresh(m, at) && at < now + o.memoryDuration)
      && (IsAlive(r, at) <==> IsAlive(m, at) && (at < now + o.memoryDuration || (o.failSafe && at < now + o.failSafeMax)))
      && r.retention.Specified?
      && (m.retention.Specified? ==> r.retention.priority == m.retention.priority && (m.retention.size.Some? ==> r.retention.size == m.retention.size))
      && (m.retention.Unspecified? ==> r.retention.priority == o.priority && r.retention.size == o.size)
  {
  }

  /** A reinserted entry reads as before. */
  lemma ReinsertedReads(m: Meta, inserted: Ticks, at: Ticks)
    ensures var r := Reinserted(m, inserted);
      r.inserted == inserted && (IsFresh(r, at) <==> IsFresh(m, at)) && (IsAlive(r, at) <==> IsAlive(m, at)) && r.origin == m.origin
  {
  }

  /** What comes back from the wire: a fresh entry with the renewed L2 lifetime, a fail-safe
      one with the shorter of that and its own. */
  lemma RoundTripReads(m: Meta, o: Options, inserted: Ticks, now: Ticks, at: Ticks)
    requires Ordered(m) && at < MAX_TICKS
    ensures FromWire(ToWire(m, o, inserted), now).Some?
    ensures var r := FromWire(ToWire(m, o, inserted), now).value;
      && r.created == m.created && r.retention == m.retention && (r.origin.FailSafe? <==> m.origin.FailSafe?)
      && (IsFresh(r, at) <==> at < inserted + o.distributedDuration && (m.origin.FailSafe? ==> IsFresh(m, at)))
      && (IsAlive(r, at) <==> (at < inserted + o.distributedDuration || (o.failSafe && at < inserted + o.distributedFailSafeMax))
                              && (m.origin.FailSafe? ==> IsAlive(m, at)))
  {
  }
}
