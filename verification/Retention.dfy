/** The capacity-bounded L1 store: `Retention` of src/memory.rs. */
module RetentionStore {
  import opened Prelude
  import opened RetentionModel

  const MAX_TICKET: nat := 0xFFFF_FFFF_FFFF_FFFF_FFFF_FFFF_FFFF_FFFF
  const MAX_GENERATION: nat := 0xFFFF_FFFF_FFFF_FFFF

  datatype Rejection = Oversized | ProtectedCapacity | VersionChanged

  datatype Admission = Admitted | ReplacedExisting | Rejected(reason: Rejection)

  /** The write condition. An origin snapshot carries the generation it captured and
      whether its per-key revision is still the captured one. */
  datatype Expected = Any | Absent | Same(expected: Entry) | Mutation | MutationOf(expected: Entry)
                    | Origin(generation: nat, revisionCurrent: bool)

  predicate Matches(expected: Expected, current: Option<Entry>, generation: nat) {
    match expected
    case Any => true
    case Mutation => true
    case Absent => current.None?
    case Same(e) => current.Some? && current.value.instance == e.instance
    case MutationOf(e) => current.Some? && current.value.instance == e.instance
    case Origin(g, revisionCurrent) => generation != MAX_GENERATION && g == generation && revisionCurrent
  }

  datatype Event = Set | Expire

  datatype Expiry = ClockDriven | RealTime

  datatype MemoryRead = Present(entry: Entry) | Missing | Gone(retirement: Retirement)

  function Current(m: Entries, key: Key): Option<Entry> {
    if key in m then Some(m[key].entry) else None
  }

  /** The entries `insert` first drops as dead, which it does only under pressure. */
  function Stale(m: Entries, limits: Limits, weight: int, key: Key, w: nat, o: Observed): set<Key> {
    if Fits(limits, Projection(m, weight, key, w)) then {} else DeadKeys(m, o)
  }

  /** The victims of a successful plan: the shortest prefix of the eviction order that
      makes the candidate fit. */
  ghost predicate ShortestPlan(m: Entries, limits: Limits, weight: int, key: Key, w: nat, order: seq<Key>, victims: seq<Key>)
  {
    var projected := Projection(m, weight, key, w);
    && victims <= order
    && Fits(limits, Without(projected, m, victims))
    && forall n: nat | n < |victims| :: !Fits(limits, Without(projected, m, order[..n]))
  }

  /** The victims are entries the candidate may push out, and every one is less worthy than
      every such entry that is spared. */
  ghost predicate FairVictims(m: Entries, key: Key, priority: Priority, victims: seq<Key>) {
    && (forall i | 0 <= i < |victims| :: victims[i] in m && victims[i] != key && MayEvict(priority, m[victims[i]].entry.priority))
    && (forall i, k | 0 <= i < |victims| && k in m && k != key && k !in victims && MayEvict(priority, m[k].entry.priority) ::
          LessWorthy(m, victims[i], k))
  }

  lemma PrefixIsFair(m: Entries, key: Key, priority: Priority, victims: seq<Key>)
    requires victims <= VictimOrder(m, Eligible(m, key, priority))
    ensures FairVictims(m, key, priority, victims)
  {
    PlannedVictims(m, key, priority, victims);
    forall i | 0 <= i < |victims| ensures MayEvict(priority, m[victims[i]].entry.priority) {
      assert victims[i] in VictimOrder(m, Eligible(m, key, priority)) by {
        assert VictimOrder(m, Eligible(m, key, priority))[i] == victims[i];
      }
      EligibleExactly(m, key, priority, victims[i]);
    }
    forall i, k | 0 <= i < |victims| && k in m && k != key && k !in victims && MayEvict(priority, m[k].entry.priority)
      ensures LessWorthy(m, victims[i], k)
    {
      EligibleExactly(m, key, priority, k);
      VictimsAreLeast(m, key, priority, victims, i, k);
      BeforeIsLessWorthy(m, victims[i], k);
    }
  }

  /** What an admission that may proceed does to the entries `m0`: dead entries leave under
      pressure; then it is rejected exactly if evicting every eligible entry would not make
      room, keeping every live entry, or it stores the candidate in place of the shortest
      sufficient prefix of the eviction order and of its own old representation. */
  ghost predicate Decided(limits: Limits, m0: Entries, weight0: int, key: Key, entry: Entry, o: Observed,
                          m1: Entries, admission: Admission, retired: seq<Retirement>,
                          stale: seq<Retirement>, victims: seq<Key>, event: Event, stored: Stored)
  {
    var gone := Stale(m0, limits, weight0, key, Weight(entry), o);
    var m := m0 - gone;
    var order := VictimOrder(m, Eligible(m, key, entry.priority));
    var projected := Projection(m, TotalWeight(m), key, Weight(entry));
    && Retires(m0, gone, stale) && ReasonsOk(m0, o, stale)
    && if !Fits(limits, Without(projected, m, order)) then
         admission == Rejected(ProtectedCapacity) && m1 == m && retired == stale
       else
         && admission == (if key in m then ReplacedExisting else Admitted)
         && ShortestPlan(m, limits, TotalWeight(m), key, Weight(entry), order, victims)
         && FairVictims(m, key, entry.priority, victims)
         && m1 == (m - Range(victims))[key := stored.(armed := KeptCapture(m, key, stored.armed, event))]
         && retired == stale + Evictions(m, victims) + ReplacedBy(m, key, event)
  }

  function DeadKeys(m: Entries, o: Observed): set<Key> {
    set k | k in m && Dead(m[k], o)
  }

  function Alive(m: Entries, o: Observed): Entries {
    map k | k in m && !Dead(m[k], o) :: m[k]
  }

  lemma AliveIsRest(m: Entries, o: Observed)
    ensures m - DeadKeys(m, o) == Alive(m, o)
  {
  }

  /** Each retirement records why its entry was dead. */
  predicate ReasonsOk(m: Entries, o: Observed, retired: seq<Retirement>) {
    forall i | 0 <= i < |retired| ::
      retired[i].key in m && Some(retired[i].reason) == RetirementReason(m[retired[i].key], o)
  }

  /** The state of a sweep that has retired the dead keys `done` and still faces `expired`. */
  ghost predicate SweptSoFar(before: Entries, o: Observed, done: set<Key>, expired: set<Key>, m: Entries, retired: seq<Retirement>) {
    && done + expired == DeadKeys(before, o) && done !! expired && m == before - done
    && Retires(before, done, retired) && ReasonsOk(before, o, retired)
  }

  lemma SweepNext(before: Entries, o: Observed, done: set<Key>, expired: set<Key>, m: Entries, retired: seq<Retirement>, key: Key)
    requires SweptSoFar(before, o, done, expired, m, retired) && key in expired
    ensures key in m && Dead(m[key], o)
    ensures var r := Retirement(key, m[key].entry, RetirementReason(m[key], o).value, m[key].armed);
      SweptSoFar(before, o, done + {key}, expired - {key}, m - {key}, retired + [r])
  {
    assert key in DeadKeys(before, o);
    var r := Retirement(key, m[key].entry, RetirementReason(m[key], o).value, m[key].armed);
    RetiresOne(before, done, retired, r);
    assert m - {key} == before - (done + {key});
  }

  /** Every victim can be taken off what is left when its turn comes. */
  ghost predicate Covered(m: Entries, start: Usage, order: seq<Key>) {
    forall n: nat | n <= |order| :: NonNegative(Without(start, m, order[..n]))
  }

  predicate NonNegative(u: Usage) { u.entries >= 0 && u.weight >= 0 }

  /** The loop of `plan`: subtract victims in order until the projection fits. The running
      usage is unsigned, so no subtraction underflows. */
  method ShortestPrefix(m: Entries, limits: Limits, start: Usage, order: seq<Key>) returns (plan: Option<seq<Key>>)
    requires Covered(m, start, order)
    ensures plan.Some? <==> Fits(limits, Without(start, m, order))
    ensures plan.Some? ==> plan.value <= order && Fits(limits, Without(start, m, plan.value))
    ensures plan.Some? ==> forall n: nat | n < |plan.value| :: !Fits(limits, Without(start, m, order[..n]))
  {
    assert order[..0] == [] && NonNegative(Without(start, m, order[..0]));
    var count: nat, weight: nat := start.entries, start.weight;
    if Fits(limits, Usage(count, weight)) {
      FitsMonotone(limits, start, m, order, 0);
      return Some([]);
    }
    for n := 0 to |order|
      invariant Usage(count, weight) == Without(start, m, order[..n])
      invariant forall i: nat | i <= n :: !Fits(limits, Without(start, m, order[..i]))
    {
      assert order[..n + 1][..n] == order[..n];
      assert NonNegative(Without(start, m, order[..n + 1]));
      count := count - 1;
      weight := weight - StoredWeight(m, order[n]);
      if Fits(limits, Usage(count, weight)) {
        FitsMonotone(limits, start, m, order, n + 1);
        return Some(order[..n + 1]);
      }
    }
    assert order[..|order|] == order;
    return None;
  }

  /** Hands every entry of a cleared store to the observers. */
  method RetireAll(m: Entries) returns (retired: seq<Retirement>)
    ensures Retires(m, m.Keys, retired) && forall i | 0 <= i < |retired| :: retired[i].reason == Explicit
  {
    retired := [];
    var left := m.Keys;
    ghost var done: set<Key> := {};
    while left != {}
      invariant done + left == m.Keys && done !! left && Retires(m, done, retired)
      invariant forall i | 0 <= i < |retired| :: retired[i].reason == Explicit
      decreases |left|
    {
      var key :| key in left;
      var r := Retirement(key, m[key].entry, Explicit, m[key].armed);
      RetiresOne(m, done, retired, r);
      retired := retired + [r];
      done, left := done + {key}, left - {key};
    }
    assert done == m.Keys;
  }

  class Retention {
    var entries: Entries
    var weight: nat
    var nextAccess: nat
    var generation: nat
    const limits: Limits
    const expiry: Expiry

    /** The accounting is exact, both limits hold, and tickets order the accesses. */
    ghost predicate Valid()
      reads this
    {
      && weight == TotalWeight(entries)
      && Fits(limits, Usage(|entries|, weight))
      && (forall k | k in entries :: entries[k].access <= nextAccess)
      && nextAccess <= MAX_TICKET
    }

    constructor (limits: Limits, expiry: Expiry)
      ensures Valid() && entries == map[] && this.limits == limits && this.expiry == expiry && generation == 1
    {
      this.limits, this.expiry := limits, expiry;
      entries, weight, nextAccess, generation := map[], 0, 0, 1;
    }

    method Ticket() returns (ticket: nat)
      requires nextAccess <= MAX_TICKET
      modifies this`nextAccess
      ensures ticket == nextAccess && old(nextAccess) <= nextAccess <= MAX_TICKET
      ensures old(nextAccess) < MAX_TICKET ==> ticket == old(nextAccess) + 1
    {
      nextAccess := if nextAccess < MAX_TICKET then nextAccess + 1 else nextAccess;
      ticket := nextAccess;
    }

    method Get(key: Key, o: Observed) returns (r: MemoryRead)
      requires Valid()
      modifies this`entries, this`weight, this`nextAccess
      ensures Valid()
      ensures r.Missing? <==> key !in old(entries)
      ensures r.Gone? <==> key in old(entries) && Dead(old(entries)[key], o)
      ensures r.Gone? <==> key in old(entries) && var stored := old(entries)[key];
                           (stored.entry.stamp.Some? && stored.entry.stamp.value != o.epoch)
                           || (o.now.Some? && stored.entry.physical <= o.now.value)
                           || (stored.deadline.Some? && stored.deadline.value <= o.instant)
      ensures r.Gone? ==> entries == old(entries) - {key}
                          && r.retirement.key == key && r.retirement.entry == old(entries)[key].entry
                          && Some(r.retirement.reason) == RetirementReason(old(entries)[key], o)
      ensures r.Missing? ==> entries == old(entries)
      ensures r.Present? ==> r.entry == old(entries)[key].entry
                             && entries == old(entries)[key := old(entries)[key].(access := nextAccess)]
      ensures r.Present? && old(nextAccess) < MAX_TICKET ==> nextAccess == old(nextAccess) + 1
      ensures r.Gone? ==> nextAccess == old(nextAccess)
    {
      if key in entries && Dead(entries[key], o) {
        var stored := entries[key];
        TotalWeightSplit(entries, key);
        entries := entries - {key};
        weight := weight - Weight(stored.entry);
        return Gone(Retirement(key, stored.entry, RetirementReason(stored, o).value, stored.armed));
      }
      var ticket := Ticket();
      if key in entries {
        var stored := entries[key];
        TotalWeightSplit(entries, key);
        assert entries[key := stored.(access := ticket)] - {key} == entries - {key};
        TotalWeightSplit(entries[key := stored.(access := ticket)], key);
        assert entries[key := stored.(access := ticket)].Keys == entries.Keys;
        entries := entries[key := stored.(access := ticket)];
        return Present(stored.entry);
      }
      return Missing;
    }

    /** Removal never underflows the weight. */
    method Remove(key: Key) returns (removed: Option<Stored>)
      requires weight == TotalWeight(entries)
      modifies this`entries, this`weight
      ensures weight == TotalWeight(entries)
      ensures removed == if key in old(entries) then Some(old(entries)[key]) else None
      ensures entries == old(entries) - {key}
      ensures |entries| == |old(entries)| - if removed.Some? then 1 else 0
      ensures weight == old(weight) - StoredWeight(old(entries), key)
      ensures removed.None? ==> entries == old(entries)
    {
      if key in entries {
        TotalWeightSplit(entries, key);
        removed := Some(entries[key]);
        weight := weight - Weight(entries[key].entry);
        entries := entries - {key};
      } else {
        removed := None;
        assert entries - {key} == entries;
      }
    }

    /** Drops exactly the dead entries and retires each one with its reason. */
    method RemoveExpired(o: Observed) returns (retired: seq<Retirement>)
      requires weight == TotalWeight(entries)
      modifies this`entries, this`weight
      ensures weight == TotalWeight(entries)
      ensures entries == Alive(old(entries), o)
      ensures Retires(old(entries), DeadKeys(old(entries), o), retired) && ReasonsOk(old(entries), o, retired)
    {
      ghost var before := entries;
      var expired := DeadKeys(entries, o);
      ghost var done: set<Key> := {};
      retired := [];
      assert SweptSoFar(before, o, done, expired, entries, retired);
      while expired != {}
        invariant weight == TotalWeight(entries) && SweptSoFar(before, o, done, expired, entries, retired)
        decreases |expired|
      {
        var key :| key in expired;
        SweepNext(before, o, done, expired, entries, retired, key);
        var removed := Remove(key);
        retired := retired + [Retirement(key, removed.value.entry, RetirementReason(removed.value, o).value, removed.value.armed)];
        done, expired := done + {key}, expired - {key};
      }
      AliveIsRest(before, o);
    }

    method ExpireUnderPressure(key: Key, w: nat, o: Observed) returns (retired: seq<Retirement>)
      requires Valid()
      modifies this`entries, this`weight
      ensures Valid()
      ensures var gone := Stale(old(entries), limits, old(weight), key, w, o);
        entries == old(entries) - gone && Retires(old(entries), gone, retired) && ReasonsOk(old(entries), o, retired)
    {
      var projected := Projected(key, w);
      if Fits(limits, projected) {
        retired := [];
      } else {
        ghost var before := entries;
        retired := RemoveExpired(o);
        AliveIsRest(before, o);
        TotalWeightMonotone(before, entries);
      }
    }

    /** Chooses the shortest prefix of the eviction order that makes the candidate fit,
        and gives up exactly when evicting every eligible entry would not be enough. */
    method Plan(key: Key, w: nat, priority: Priority) returns (plan: Option<seq<Key>>)
      requires Valid()
      ensures var order := VictimOrder(entries, Eligible(entries, key, priority));
        && Covered(entries, Projection(entries, weight, key, w), order)
        && (plan.Some? <==> Fits(limits, Without(Projection(entries, weight, key, w), entries, order)))
        && (plan.Some? ==> ShortestPlan(entries, limits, weight, key, w, order, plan.value))
        && (plan.Some? ==> FairVictims(entries, key, priority, plan.value))
    {
      var order := VictimOrder(entries, Eligible(entries, key, priority));
      OrderIsCovered(entries, key, w, priority);
      var projected := Projected(key, w);
      plan := ShortestPrefix(entries, limits, projected, order);
      if plan.Some? {
        PrefixIsFair(entries, key, priority, plan.value);
      }
    }

    /** The projection subtracts the weight the key already holds, which the total covers. */
    method Projected(key: Key, w: nat) returns (projected: Usage)
      requires Valid()
      ensures projected == Projection(entries, weight, key, w) && NonNegative(projected)
    {
      NothingUnderflows(entries, key, w, []);
      var rest: nat := weight - StoredWeight(entries, key);
      projected := Usage(|entries| + (if key in entries then 0 else 1), rest + w);
    }

    method Store(key: Key, entry: Entry, armed: bool, instant: int)
      requires weight == TotalWeight(entries) && key !in entries && nextAccess <= MAX_TICKET
      modifies this`entries, this`weight, this`nextAccess
      ensures weight == TotalWeight(entries) == old(weight) + (if entry.size.Some? then entry.size.value else 1)
      ensures old(nextAccess) <= nextAccess <= MAX_TICKET
      ensures entries == old(entries)[key := Stored(entry, nextAccess, Deadline(expiry, entry, instant), armed)]
      ensures |entries| == |old(entries)| + 1
    {
      var access := Ticket();
      var stored := Stored(entry, access, Deadline(expiry, entry, instant), armed);
      TotalWeightInsert(entries, key, stored);
      entries := entries[key := stored];
      weight := weight + Weight(entry);
    }

    method EvictOne(key: Key) returns (r: Retirement)
      requires weight == TotalWeight(entries) && key in entries
      modifies this`entries, this`weight
      ensures weight == TotalWeight(entries) == old(weight) - StoredWeight(old(entries), key)
      ensures entries == old(entries) - {key} && |entries| == |old(entries)| - 1
      ensures r == Retirement(key, old(entries)[key].entry, Capacity, old(entries)[key].armed)
    {
      var removed := Remove(key);
      r := Retirement(key, removed.value.entry, Capacity, removed.value.armed);
    }

    /** Evicts the planned victims, one retirement each. */
    method EvictAll(victims: seq<Key>) returns (evicted: seq<Retirement>)
      requires weight == TotalWeight(entries) && Distinct(victims) && forall i | 0 <= i < |victims| :: victims[i] in entries
      modifies this`entries, this`weight
      ensures weight == TotalWeight(entries) == old(weight) - WeightOf(old(entries), victims)
      ensures entries == old(entries) - Range(victims) && |entries| == |old(entries)| - |victims|
      ensures evicted == Evictions(old(entries), victims)
    {
      ghost var before, total := entries, weight;
      evicted := [];
      EvictNone(before, total);
      ghost var done: seq<Key> := [];
      for n := 0 to |victims|
        invariant done == victims[..n] && EvictedSoFar(before, total, done, entries, weight, evicted)
      {
        ghost var m, w := entries, weight;
        NotYetEvicted(before, victims, n);
        PrefixNext(victims, n);
        var r := EvictOne(victims[n]);
        EvictNext(before, total, done, victims[n], m, w, evicted, entries, weight);
        evicted, done := evicted + [r], done + [victims[n]];
      }
      assert done == victims;
    }

    /** Retires the old representation of `key`, if any, and stores the candidate. */
    method Replace(key: Key, entry: Entry, armed: bool, event: Event, instant: int) returns (replaced: seq<Retirement>)
      requires weight == TotalWeight(entries) && nextAccess <= MAX_TICKET
      modifies this`entries, this`weight, this`nextAccess
      ensures weight == TotalWeight(entries) && old(nextAccess) <= nextAccess <= MAX_TICKET
      ensures Usage(|entries|, weight) == Projection(old(entries), old(weight), key, Weight(entry))
      ensures entries == old(entries)[key := Stored(entry, nextAccess, Deadline(expiry, entry, instant),
                                                    KeptCapture(old(entries), key, armed, event))]
      ensures replaced == ReplacedBy(old(entries), key, event)
    {
      ghost var before := entries;
      var kept := KeptCapture(entries, key, armed, event);
      replaced := ReplacedBy(entries, key, event);
      var removed := Remove(key);
      Store(key, entry, kept, instant);
      Overwrites(before, key, entries[key]);
    }

    /** Commits an admission: victims leave, the old representation is replaced, and the
        candidate is stored under a new ticket. */
    method Commit(key: Key, entry: Entry, victims: seq<Key>, retired: seq<Retirement>, armed: bool, event: Event, instant: int)
      returns (admission: Admission, after: seq<Retirement>)
      requires weight == TotalWeight(entries) && nextAccess <= MAX_TICKET
      requires Distinct(victims) && key !in victims && forall i | 0 <= i < |victims| :: victims[i] in entries
      modifies this`entries, this`weight, this`nextAccess
      ensures weight == TotalWeight(entries) && old(nextAccess) <= nextAccess <= MAX_TICKET
      ensures Usage(|entries|, weight)
           == Without(Projection(old(entries), old(weight), key, Weight(entry)), old(entries), victims)
      ensures admission == if key in old(entries) then ReplacedExisting else Admitted
      ensures entries == (old(entries) - Range(victims))[key := Stored(entry, nextAccess, Deadline(expiry, entry, instant),
                                                                       KeptCapture(old(entries), key, armed, event))]
      ensures after == retired + Evictions(old(entries), victims) + ReplacedBy(old(entries), key, event)
      ensures entries[key].armed == if key in old(entries) && event.Expire? then old(entries)[key].armed else armed
      ensures key in old(entries) ==> after != [] && var last := after[|after| - 1];
                last.key == key && last.entry == old(entries)[key].entry && last.reason == if event.Set? then Replaced else Metadata
    {
      admission := if key in entries then ReplacedExisting else Admitted;
      var evicted := EvictAll(victims);
      assert key !in Range(victims);
      var replaced := Replace(key, entry, armed, event, instant);
      after := retired + evicted + replaced;
      if replaced != [] {
        assert after[|after| - 1] == replaced[|replaced| - 1];
      }
    }

    /** Conditional admission, decided in the source's order: the write condition, the
        candidate's own size, then room after dropping dead entries under pressure and
        evicting the shortest sufficient prefix of the eviction order. A rejection keeps
        every live entry. */
    method Insert(key: Key, entry: Entry, o: Observed, expected: Expected, armed: bool, event: Event)
      returns (admission: Admission, retired: seq<Retirement>, ghost stale: seq<Retirement>, ghost victims: seq<Key>)
      requires Valid()
      modifies this`entries, this`weight, this`nextAccess
      ensures Valid()
      ensures
        if !Matches(expected, Current(old(entries), key), generation) then
          admission == Rejected(VersionChanged) && entries == old(entries) && retired == []
        else if !Fits(limits, Usage(1, Weight(entry))) then
          admission == Rejected(Oversized) && entries == old(entries) && retired == []
        else
          Decided(limits, old(entries), old(weight), key, entry, o, entries, admission, retired, stale, victims,
                  event, Stored(entry, nextAccess, Deadline(expiry, entry, o.instant), armed))
      ensures limits.entries.Some? ==> |entries| <= limits.entries.value
      ensures limits.weight.Some? ==> weight <= limits.weight.value
      ensures admission == Rejected(VersionChanged) <==> match expected
        case Absent => key in old(entries)
        case Same(e) => key !in old(entries) || old(entries)[key].entry.instance != e.instance
        case MutationOf(e) => key !in old(entries) || old(entries)[key].entry.instance != e.instance
        case Origin(g, current) => generation == MAX_GENERATION || g != generation || !current
        case _ => false
      ensures Contents(entries) + Retired(retired)
           == Contents(old(entries)) + if admission.Rejected? then multiset{} else multiset{(key, entry)}
    {
      stale, victims := [], [];
      if !Matches(expected, Current(entries, key), generation) {
        return Rejected(VersionChanged), [], [], [];
      }
      if !Fits(limits, Usage(1, Weight(entry))) {
        return Rejected(Oversized), [], [], [];
      }
      ghost var before, total := entries, weight;
      admission, retired, stale, victims := Admit(key, entry, o, armed, event);
      InsertConserves(limits, before, total, key, entry, o, entries, admission, retired, stale, victims,
                      event, Stored(entry, nextAccess, Deadline(expiry, entry, o.instant), armed));
    }

    /** Makes room and commits, or gives up. */
    method Admit(key: Key, entry: Entry, o: Observed, armed: bool, event: Event)
      returns (admission: Admission, retired: seq<Retirement>, ghost stale: seq<Retirement>, ghost victims: seq<Key>)
      requires Valid()
      modifies this`entries, this`weight, this`nextAccess
      ensures Valid()
      ensures Decided(limits, old(entries), old(weight), key, entry, o, entries, admission, retired, stale, victims,
                      event, Stored(entry, nextAccess, Deadline(expiry, entry, o.instant), armed))
    {
      retired := ExpireUnderPressure(key, Weight(entry), o);
      stale, victims := retired, [];
      var plan := Plan(key, Weight(entry), entry.priority);
      if plan.None? {
        return Rejected(ProtectedCapacity), retired, stale, [];
      }
      victims := plan.value;
      PlannedVictims(entries, key, entry.priority, plan.value);
      admission, retired := Commit(key, entry, plan.value, retired, armed, event, o.instant);
    }

    /** Explicit removal, of any representation or only of the expected one. */
    method Discard(key: Key, expected: Option<Entry>) returns (removed: Option<Retirement>)
      requires Valid()
      modifies this`entries, this`weight
      ensures Valid()
      ensures removed.Some? <==> key in old(entries)
                                 && (expected.Some? ==> old(entries)[key].entry.instance == expected.value.instance)
      ensures entries == if removed.Some? then old(entries) - {key} else old(entries)
      ensures removed.Some? ==> removed.value.key == key && removed.value.entry == old(entries)[key].entry
    {
      if key !in entries || (expected.Some? && entries[key].entry.instance != expected.value.instance) {
        return None;
      }
      var stored := Remove(key);
      removed := Some(Retirement(key, stored.value.entry, Explicit, stored.value.armed));
    }

    /** Periodic maintenance. */
    method RunPendingTasks(o: Observed) returns (retired: seq<Retirement>)
      requires Valid()
      modifies this`entries, this`weight
      ensures Valid() && entries == Alive(old(entries), o)
      ensures Retires(old(entries), DeadKeys(old(entries), o), retired)
    {
      ghost var before := entries;
      retired := RemoveExpired(o);
      TotalWeightMonotone(before, entries);
    }

    /** A clear empties the store, retiring every entry once, and moves its generation,
        unless that is exhausted; no origin snapshot taken before it can be admitted after it. */
    method InvalidateAll() returns (retired: seq<Retirement>)
      requires Valid() && generation <= MAX_GENERATION
      modifies this`entries, this`weight, this`generation
      ensures Valid() && entries == map[] && generation <= MAX_GENERATION
      ensures old(generation) < MAX_GENERATION ==> generation == old(generation) + 1
      ensures forall current, same :: !Matches(Origin(old(generation), same), current, generation)
      ensures Retires(old(entries), old(entries).Keys, retired)
      ensures forall i | 0 <= i < |retired| :: retired[i].reason == Explicit
    {
      generation := if generation < MAX_GENERATION then generation + 1 else generation;
      retired := RetireAll(entries);
      entries := map[];
      weight := 0;
    }
  }

  /** An expiry event keeps the capture decision of the representation it replaces. */
  function KeptCapture(m: Entries, key: Key, armed: bool, event: Event): bool {
    if key in m && event.Expire? then m[key].armed else armed
  }

  function ReplacedBy(m: Entries, key: Key, event: Event): seq<Retirement> {
    if key !in m then []
    else [Retirement(key, m[key].entry, if event.Set? then Replaced else Metadata, m[key].armed)]
  }

  /** Planned victims are distinct stored entries, none of them pinned, of higher rank
      than the candidate, or the candidate's own key. */
  lemma PlannedVictims(m: Entries, key: Key, priority: Priority, victims: seq<Key>)
    requires victims <= VictimOrder(m, Eligible(m, key, priority))
    ensures Distinct(victims) && key !in victims
    ensures forall i | 0 <= i < |victims| ::
              victims[i] in m && m[victims[i]].entry.priority != NeverRemove
              && Rank(m[victims[i]].entry.priority) <= Rank(priority)
  {
    var keys := Eligible(m, key, priority);
    var order := VictimOrder(m, keys);
    forall i, j | 0 <= i < j < |victims| ensures victims[i] != victims[j] {
      VictimOrderSorted(m, keys, i, j);
      BeforeIsStrictOrder(m, order[i], order[j], order[i]);
    }
    forall i | 0 <= i < |victims| ensures victims[i] in keys {
      assert victims[i] == order[i] && order[i] in order;
    }
  }

  lemma OrderIsCovered(m: Entries, key: Key, w: nat, priority: Priority)
    ensures Covered(m, Projection(m, TotalWeight(m), key, w), VictimOrder(m, Eligible(m, key, priority)))
  {
    var order := VictimOrder(m, Eligible(m, key, priority));
    PlannedVictims(m, key, priority, order);
    forall n: nat | n <= |order| ensures NonNegative(Without(Projection(m, TotalWeight(m), key, w), m, order[..n])) {
      NothingUnderflows(m, key, w, order[..n]);
    }
  }

  function Deadline(expiry: Expiry, entry: Entry, instant: int): Option<int> {
    if expiry.RealTime? then Some(instant + entry.ttl) else None
  }

  lemma Overwrites(m: Entries, key: Key, stored: Stored)
    ensures (m - {key})[key := stored] == m[key := stored]
  {
  }

  predicate Distinct(keys: seq<Key>) { forall i, j | 0 <= i < j < |keys| :: keys[i] != keys[j] }

  function Range(keys: seq<Key>): set<Key> { set k | k in keys }

  function Evictions(m: Entries, victims: seq<Key>): seq<Retirement>
    requires forall i | 0 <= i < |victims| :: victims[i] in m
  {
    seq(|victims|, i requires 0 <= i < |victims| => Retirement(victims[i], m[victims[i]].entry, Capacity, m[victims[i]].armed))
  }

  lemma PrefixNext(s: seq<Key>, n: nat)
    requires n < |s|
    ensures s[..n + 1] == s[..n] + [s[n]]
  {
  }

  lemma NotYetEvicted(m: Entries, victims: seq<Key>, n: nat)
    requires n < |victims| && Distinct(victims) && victims[n] in m
    ensures victims[n] in m - Range(victims[..n])
  {
  }

  /** The state of an eviction after `victims`. */
  ghost predicate EvictedSoFar(before: Entries, total: nat, victims: seq<Key>, m: Entries, w: nat, evicted: seq<Retirement>) {
    && (forall i | 0 <= i < |victims| :: victims[i] in before)
    && w == TotalWeight(m) == total - WeightOf(before, victims)
    && m == before - Range(victims) && |m| == |before| - |victims|
    && evicted == Evictions(before, victims)
  }

  lemma EvictNone(m: Entries, total: nat)
    requires total == TotalWeight(m)
    ensures EvictedSoFar(m, total, [], m, total, [])
  {
    assert m - Range([]) == m;
  }

  lemma EvictNext(before: Entries, total: nat, done: seq<Key>, k: Key, m: Entries, w: nat, evicted: seq<Retirement>,
                  m': Entries, w': nat)
    requires k in m && EvictedSoFar(before, total, done, m, w, evicted)
    requires m' == m - {k} && |m'| == |m| - 1 && w' == TotalWeight(m') == w - StoredWeight(m, k)
    ensures EvictedSoFar(before, total, done + [k], m', w', evicted + [Retirement(k, m[k].entry, Capacity, m[k].armed)])
  {
    EvictionsNext(before, done, k);
    RangeNext(before, done, k);
    assert (done + [k])[..|done|] == done;
  }

  lemma RangeNext(m: Entries, done: seq<Key>, k: Key)
    ensures m - Range(done + [k]) == m - Range(done) - {k}
  {
  }

  lemma EvictionsNext(m: Entries, victims: seq<Key>, k: Key)
    requires (forall i | 0 <= i < |victims| :: victims[i] in m) && k in m
    ensures forall i | 0 <= i < |victims + [k]| :: (victims + [k])[i] in m
    ensures Evictions(m, victims + [k]) == Evictions(m, victims) + [Retirement(k, m[k].entry, Capacity, m[k].armed)]
  {
  }

  /** Dropping entries never increases the total. */
  lemma {:induction false} TotalWeightMonotone(m: Entries, kept: Entries)
    requires kept.Keys <= m.Keys && forall k | k in kept :: kept[k] == m[k]
    ensures TotalWeight(kept) <= TotalWeight(m) && |kept| <= |m|
    decreases |m|
  {
    if k :| k in m && k !in kept {
      TotalWeightSplit(m, k);
      TotalWeightMonotone(m - {k}, kept);
    } else {
      assert kept == m;
    }
  }

  // ---- What the store promises -----------------------------------------------------

  lemma EvictionsRetire(m: Entries, victims: seq<Key>)
    requires Distinct(victims) && forall i | 0 <= i < |victims| :: victims[i] in m
    ensures Retires(m, Range(victims), Evictions(m, victims))
  {
    RangeSize(victims);
  }

  lemma {:induction false} RangeSize(keys: seq<Key>)
    requires Distinct(keys)
    ensures |Range(keys)| == |keys|
    decreases |keys|
  {
    if keys != [] {
      var n := |keys| - 1;
      RangeSize(keys[..n]);
      assert Range(keys) == Range(keys[..n]) + {keys[n]};
    }
  }

  /** The retirements of an admission name each departing entry exactly once. */
  lemma AdmissionRetires(m0: Entries, gone: set<Key>, stale: seq<Retirement>, victims: seq<Key>, key: Key, event: Event)
    requires Retires(m0, gone, stale)
    requires Distinct(victims) && key !in victims && forall i | 0 <= i < |victims| :: victims[i] in m0 - gone
    ensures var m := m0 - gone;
      Retires(m0, gone + Range(victims) + OwnKey(m, key), stale + Evictions(m, victims) + ReplacedBy(m, key, event))
  {
    var m := m0 - gone;
    EvictionsRetire(m, victims);
    RetiresBoth(m0, gone, stale, Range(victims), Evictions(m, victims));
    assert m0 - (gone + Range(victims)) == m - Range(victims);
    assert Retires(m - Range(victims), OwnKey(m, key), ReplacedBy(m, key, event));
    RetiresBoth(m0, gone + Range(victims), stale + Evictions(m, victims), OwnKey(m, key), ReplacedBy(m, key, event));
  }

  function OwnKey(m: Entries, key: Key): set<Key> { if key in m then {key} else {} }

  lemma AdmissionKeeps(m0: Entries, gone: set<Key>, victims: seq<Key>, key: Key, stored: Stored)
    requires key !in victims
    ensures var m := m0 - gone; var rest := m0 - (gone + Range(victims) + OwnKey(m, key));
      key !in rest && rest[key := stored] == (m - Range(victims))[key := stored]
  {
  }

  /** Conservation across a whole admission: the old contents plus the candidate are the
      new contents plus everything retired as dead, as a victim or as replaced. */
  lemma AdmissionConserves(m0: Entries, gone: set<Key>, stale: seq<Retirement>, victims: seq<Key>,
                           key: Key, stored: Stored, event: Event)
    requires Retires(m0, gone, stale)
    requires Distinct(victims) && key !in victims && forall i | 0 <= i < |victims| :: victims[i] in m0 - gone
    ensures var m := m0 - gone;
      Contents((m - Range(victims))[key := stored]) + Retired(stale + Evictions(m, victims) + ReplacedBy(m, key, event))
      == Contents(m0) + multiset{(key, stored.entry)}
  {
    var m := m0 - gone;
    var removed := gone + Range(victims) + OwnKey(m, key);
    var all := stale + Evictions(m, victims) + ReplacedBy(m, key, event);
    AdmissionRetires(m0, gone, stale, victims, key, event);
    AdmissionKeeps(m0, gone, victims, key, stored);
    RetiresConserves(m0, removed, all);
    ContentsInsert(m0 - removed, key, stored);
    Regroup(Contents(m0 - removed), Retired(all), multiset{(key, stored.entry)});
  }

  /** Whatever an insert decides, no entry is lost or duplicated: the old contents plus an
      admitted candidate are the new contents plus the retirements. */
  lemma InsertConserves(limits: Limits, m0: Entries, weight0: int, key: Key, entry: Entry, o: Observed, m1: Entries,
                        admission: Admission, retired: seq<Retirement>, stale: seq<Retirement>, victims: seq<Key>,
                        event: Event, stored: Stored)
    requires Decided(limits, m0, weight0, key, entry, o, m1, admission, retired, stale, victims, event, stored)
    requires stored.entry == entry
    ensures Contents(m1) + Retired(retired)
         == Contents(m0) + if admission.Rejected? then multiset{} else multiset{(key, entry)}
  {
    var gone := Stale(m0, limits, weight0, key, Weight(entry), o);
    var m := m0 - gone;
    if admission.Rejected? {
      RetiresConserves(m0, gone, stale);
    } else {
      PlannedVictims(m, key, entry.priority, victims);
      AdmissionConserves(m0, gone, stale, victims, key, stored.(armed := KeptCapture(m, key, stored.armed, event)), event);
    }
  }

  /** A planned victim is worth less than every eligible entry the plan spares: lower
      rank, or the same rank and not more recently used. */
  lemma VictimsAreLeast(m: Entries, key: Key, priority: Priority, victims: seq<Key>, i: nat, survivor: Key)
    requires victims <= VictimOrder(m, Eligible(m, key, priority))
    requires i < |victims| && survivor in Eligible(m, key, priority) && survivor !in victims
    ensures victims[i] in m && survivor in m && Before(m, victims[i], survivor)
  {
    var keys := Eligible(m, key, priority);
    var order := VictimOrder(m, keys);
    assert survivor in order;
    var j :| 0 <= j < |order| && order[j] == survivor;
    VictimOrderSorted(m, keys, i, j);
  }

  /** Two reads leave the one read last the more recent, and everything else as it was. */
  method ReadBoth(r: Retention, first: Key, second: Key, o: Observed)
    requires r.Valid() && first != second && r.nextAccess + 2 <= MAX_TICKET
    requires first in r.entries && second in r.entries && !Dead(r.entries[first], o) && !Dead(r.entries[second], o)
    modifies r
    ensures r.Valid() && r.entries.Keys == old(r.entries).Keys
    ensures r.entries[first].access < r.entries[second].access
    ensures forall k | k in r.entries :: r.entries[k].entry == old(r.entries)[k].entry && r.entries[k].deadline == old(r.entries)[k].deadline
  {
    var _ := r.Get(first, o);
    var _ := r.Get(second, o);
  }

  /** Least recently used first: of two living entries of the same priority read one after
      the other, an insert that may push both out never gives up the one read last and keeps
      the one read first; and if they fill the store, the one read first goes. */
  method ReadTwiceThenInsert(r: Retention, first: Key, second: Key, key: Key, entry: Entry, o: Observed)
    returns (admission: Admission, retired: seq<Retirement>)
    requires r.Valid() && first != second && key != first && key != second && r.nextAccess + 2 <= MAX_TICKET
    requires first in r.entries && second in r.entries && !Dead(r.entries[first], o) && !Dead(r.entries[second], o)
    requires r.entries[first].entry.priority == r.entries[second].entry.priority
    requires MayEvict(entry.priority, r.entries[first].entry.priority)
    modifies r
    ensures r.Valid() && (second in r.entries || first !in r.entries)
    ensures old(r.entries).Keys == {first, second} && r.limits == Limits(Some(2), None) ==>
              admission == Admitted && r.entries.Keys == {second, key}
  {
    ReadBoth(r, first, second, o);
    ghost var m0 := r.entries;
    ghost var m, victims;
    admission, retired, m, victims := InsertAny(r, key, entry, o);
    FirstReadGoesFirst(m0, m, r.entries, r.limits, first, second, key, entry, o, admission, victims);
  }

  /** An unconditional insert, by what stays: `m` is what was left of the living entries. */
  method InsertAny(r: Retention, key: Key, entry: Entry, o: Observed)
    returns (admission: Admission, retired: seq<Retirement>, ghost m: Entries, ghost victims: seq<Key>)
    requires r.Valid()
    modifies r
    ensures r.Valid() && Outcome(old(r.entries), m, r.entries, r.limits, key, entry, o, admission, victims)
  {
    ghost var m0, w0 := r.entries, r.weight;
    ghost var stale;
    admission, retired, stale, victims := r.Insert(key, entry, o, Any, false, Set);
    m := m0;
    if Fits(r.limits, Usage(1, Weight(entry))) {
      m := m0 - Stale(m0, r.limits, w0, key, Weight(entry), o);
      DecidedShape(r.limits, m0, w0, key, entry, o, r.entries, admission, retired, stale, victims,
                   Stored(entry, r.nextAccess, Deadline(r.expiry, entry, o.instant), false));
    }
  }

  ghost predicate Outcome(m0: Entries, m: Entries, m1: Entries, limits: Limits, key: Key, entry: Entry, o: Observed,
                          admission: Admission, victims: seq<Key>)
  {
    && m.Keys <= m0.Keys
    && (forall k | k in m0 && !Dead(m0[k], o) :: k in m && m[k] == m0[k])
    && (Fits(limits, Usage(1, Weight(entry))) ==> Planned(m, limits, key, entry, admission, victims))
    && (!Fits(limits, Usage(1, Weight(entry))) ==> admission.Rejected?)
    && (admission.Rejected? ==> m1 == m)
    && (!admission.Rejected? ==> forall k :: k in m1 <==> k == key || (k in m && k !in victims))
  }

  lemma LastReadStays(m0: Entries, m: Entries, m1: Entries, limits: Limits, first: Key, second: Key, key: Key,
                      entry: Entry, o: Observed, admission: Admission, victims: seq<Key>)
    requires Outcome(m0, m, m1, limits, key, entry, o, admission, victims)
    requires first != second && key != first && key != second && first in m && second in m && m[first].access < m[second].access
    requires m[first].entry.priority == m[second].entry.priority && MayEvict(entry.priority, m[first].entry.priority)
    ensures second in m1 || first !in m1
  {
    if !admission.Rejected? {
      LastReadIsSpared(m, key, entry.priority, victims, first, second, admission);
    }
  }

  lemma FirstReadLeaves(m0: Entries, m: Entries, m1: Entries, limits: Limits, first: Key, second: Key, key: Key,
                        entry: Entry, o: Observed, admission: Admission, victims: seq<Key>)
    requires Outcome(m0, m, m1, limits, key, entry, o, admission, victims)
    requires m.Keys == {first, second} && first != second && key != first && key != second && limits == Limits(Some(2), None)
    requires m[first].entry.priority == m[second].entry.priority && MayEvict(entry.priority, m[first].entry.priority)
    requires m[first].access < m[second].access
    ensures admission == Admitted && m1.Keys == {second, key}
  {
    FullPair(m, limits, first, second, key, entry, admission, victims);
    forall k ensures k in m1 <==> k == second || k == key {
      assert k in m <==> k in m.Keys;
    }
  }

  lemma FirstReadGoesFirst(m0: Entries, m: Entries, m1: Entries, limits: Limits, first: Key, second: Key, key: Key,
                           entry: Entry, o: Observed, admission: Admission, victims: seq<Key>)
    requires Outcome(m0, m, m1, limits, key, entry, o, admission, victims)
    requires first != second && key != first && key != second && first in m0 && second in m0
    requires !Dead(m0[first], o) && !Dead(m0[second], o) && m0[first].access < m0[second].access
    requires m0[first].entry.priority == m0[second].entry.priority && MayEvict(entry.priority, m0[first].entry.priority)
    ensures second in m1 || first !in m1
    ensures m0.Keys == {first, second} && limits == Limits(Some(2), None) ==> admission == Admitted && m1.Keys == {second, key}
  {
    assert first in m && second in m && m[first] == m0[first] && m[second] == m0[second];
    LastReadStays(m0, m, m1, limits, first, second, key, entry, o, admission, victims);
    if m0.Keys == {first, second} && limits == Limits(Some(2), None) {
      assert m.Keys == {first, second};
      FirstReadLeaves(m0, m, m1, limits, first, second, key, entry, o, admission, victims);
    }
  }

  /** What stays after a decision. */
  ghost predicate Planned(m: Entries, limits: Limits, key: Key, entry: Entry, admission: Admission, victims: seq<Key>) {
    var order := VictimOrder(m, Eligible(m, key, entry.priority));
    var projected := Projection(m, TotalWeight(m), key, Weight(entry));
    if !Fits(limits, Without(projected, m, order)) then admission == Rejected(ProtectedCapacity)
    else && admission == (if key in m then ReplacedExisting else Admitted)
         && ShortestPlan(m, limits, TotalWeight(m), key, Weight(entry), order, victims)
         && FairVictims(m, key, entry.priority, victims)
  }

  lemma DecidedShape(limits: Limits, m0: Entries, w0: int, key: Key, entry: Entry, o: Observed, m1: Entries, admission: Admission,
                     retired: seq<Retirement>, stale: seq<Retirement>, victims: seq<Key>, stored: Stored)
    requires Decided(limits, m0, w0, key, entry, o, m1, admission, retired, stale, victims, Set, stored)
    ensures var m := m0 - Stale(m0, limits, w0, key, Weight(entry), o);
      && Planned(m, limits, key, entry, admission, victims)
      && (forall k | k in m0 && !Dead(m0[k], o) :: k in m && m[k] == m0[k])
      && (admission.Rejected? ==> m1 == m)
      && (!admission.Rejected? ==> forall k :: k in m1 <==> k == key || (k in m && k !in victims))
  {
  }

  lemma LastReadIsSpared(m: Entries, key: Key, priority: Priority, victims: seq<Key>, first: Key, second: Key, admission: Admission)
    requires first != key && second != key && first in m && second in m && m[first].access < m[second].access
    requires m[first].entry.priority == m[second].entry.priority && MayEvict(priority, m[first].entry.priority)
    requires !admission.Rejected? ==> FairVictims(m, key, priority, victims)
    ensures !admission.Rejected? && second in victims ==> first in victims
  {
    NotLessWorthy(m, second, first);
  }

  lemma NotLessWorthy(m: Entries, a: Key, b: Key)
    requires a in m && b in m && m[a].entry.priority == m[b].entry.priority && m[b].access < m[a].access
    ensures !LessWorthy(m, a, b)
  {
  }

  /** A store of two that holds both gives up the less recent one to a third. */
  lemma FullPair(m: Entries, limits: Limits, first: Key, second: Key, key: Key, entry: Entry, admission: Admission, victims: seq<Key>)
    requires m.Keys == {first, second} && first != second && key != first && key != second && limits == Limits(Some(2), None)
    requires MayEvict(entry.priority, m[first].entry.priority) && m[first].entry.priority == m[second].entry.priority
    requires m[first].access < m[second].access && Planned(m, limits, key, entry, admission, victims)
    ensures admission == Admitted && victims == [first]
  {
    PairOrder(m, first, second, key, entry);
    PairPlan(m, limits, key, entry, admission, victims);
    LastReadIsSpared(m, key, entry.priority, victims, first, second, admission);
    assert victims[0] in m && victims == [victims[0]];
  }

  lemma PairOrder(m: Entries, first: Key, second: Key, key: Key, entry: Entry)
    requires m.Keys == {first, second} && first != second && key != first && key != second
    requires MayEvict(entry.priority, m[first].entry.priority) && m[first].entry.priority == m[second].entry.priority
    ensures |m| == 2 && |VictimOrder(m, Eligible(m, key, entry.priority))| == 2
  {
    assert |m| == |m.Keys|;
    forall k ensures k in Eligible(m, key, entry.priority) <==> k == first || k == second {
      EligibleExactly(m, key, entry.priority, k);
    }
    assert Eligible(m, key, entry.priority) == {first, second};
  }

  lemma PairPlan(m: Entries, limits: Limits, key: Key, entry: Entry, admission: Admission, victims: seq<Key>)
    requires |m| == 2 && key !in m && limits == Limits(Some(2), None) && Planned(m, limits, key, entry, admission, victims)
    requires |VictimOrder(m, Eligible(m, key, entry.priority))| == 2
    ensures admission == Admitted && |victims| == 1
  {
    var order := VictimOrder(m, Eligible(m, key, entry.priority));
    var projected := Projection(m, TotalWeight(m), key, Weight(entry));
    assert Fits(limits, Without(projected, m, order));
    assert Fits(limits, Without(projected, m, order[..1]));
    assert |victims| <= 1;
    assert !Fits(limits, Without(projected, m, []));
  }
}
