/** Expiring marker snapshots beside durable marker maxima (src/marker_snapshots.rs and the
    in-memory store of src/distributed.rs). */
module MarkerSnapshots {
  import opened Prelude

  type Version = int

  datatype Kind = Tag(name: string) | ClearExpire | ClearRemove

  /** A cache scope and marker kind. */
  datatype Key = Key(scope: string, kind: Kind)

  datatype Snapshot = Snapshot(version: Version, created: int, logical: int, physical: int)

  predicate ValidSnapshot(s: Snapshot) { s.created <= s.logical <= s.physical }

  predicate Expired(s: Snapshot, now: int) { now >= s.physical }

  function WithMaximum(s: Snapshot, maximum: Option<Version>): Snapshot {
    if maximum.Some? && maximum.value > s.version then s.(version := maximum.value) else s
  }

  predicate Supersedes(s: Snapshot, other: Snapshot) {
    s.version > other.version || (s.version == other.version && s.created > other.created)
  }

  datatype Renewal = Stored(snapshot: Snapshot) | KeptNewer(snapshot: Snapshot) | Late

  datatype Read = Found(snapshot: Snapshot) | Missing(maximum: Option<Version>)

  /** The strongest fact a read confirms. */
  function Maximum(r: Read): Option<Version> { if r.Found? then Some(r.snapshot.version) else r.maximum }

  predicate AtLeast(a: Option<Version>, b: Option<Version>) { b.Some? ==> a.Some? && a.value >= b.value }

  type Snapshots = map<Key, Snapshot>

  function Live(m: Snapshots, now: int): (r: Snapshots)
    ensures r.Keys <= m.Keys
  {
    map k | k in m && !Expired(m[k], now) :: m[k]
  }

  lemma OldestExists(m: Snapshots)
    requires m != map[]
    ensures exists k :: k in m && forall j | j in m :: m[k].created <= m[j].created
  {
    var k :| k in m;
    var o := OldestAmong(m, m.Keys, k);
  }

  lemma {:induction false} OldestAmong(m: Snapshots, keys: set<Key>, k: Key) returns (o: Key)
    requires keys <= m.Keys && k in m
    ensures o in m && m[o].created <= m[k].created && forall j | j in keys :: m[o].created <= m[j].created
    decreases keys
  {
    if j :| j in keys {
      o := OldestAmong(m, keys - {j}, if m[j].created < m[k].created then j else k);
    } else {
      o := k;
    }
  }

  lemma LiveCount(m: Snapshots, now: int)
    ensures |Live(m, now)| <= |m|
  {
    SubsetCount(Live(m, now).Keys, m.Keys);
    assert |Live(m, now).Keys| == |Live(m, now)| && |m.Keys| == |m|;
  }

  lemma {:induction false} SubsetCount(a: set<Key>, b: set<Key>)
    requires a <= b
    ensures |a| <= |b|
    decreases a
  {
    if x :| x in a {
      SubsetCount(a - {x}, b - {x});
    }
  }

  /** A renewal's whole effect on the retained snapshots. An unexpired newer one is kept;
      otherwise the new one is stored with the durable maximum, and a full store gives up
      one of its oldest other snapshots. */
  ghost predicate Renewed(m: Snapshots, m': Snapshots, key: Key, s: Snapshot, maximum: Option<Version>, now: int, limit: nat) {
    if Expired(s, now) then m' == m
    else
      var live := Live(m, now);
      if key in live && Supersedes(live[key], s) then m' == live
      else if key in live || |live| < limit then m' == live[key := WithMaximum(s, maximum)]
      else
        exists oldest ::
          && oldest in live && (forall j | j in live :: live[oldest].created <= live[j].created)
          && m' == (live - {oldest})[key := WithMaximum(s, maximum)]
  }

  // ---- The durable journal -----------------------------------------------------------------

  /** The durable markers of one scope. */
  datatype Journal = Journal(tags: map<string, Version>, clearExpire: Option<Version>, clearRemove: Option<Version>)

  const BLANK: Journal := Journal(map[], None, None)

  function ReadKind(j: Journal, kind: Kind): Option<Version> {
    match kind
    case Tag(name) => if name in j.tags then Some(j.tags[name]) else None
    case ClearExpire => j.clearExpire
    case ClearRemove => j.clearRemove
  }

  function Higher(a: Option<Version>, b: Option<Version>): (r: Option<Version>)
    ensures AtLeast(r, a) && AtLeast(r, b) && (r == a || r == b)
  {
    if AtLeast(a, b) then a else b
  }

  function Recorded(j: Journal, kind: Kind, candidate: Version): Journal {
    var version := Higher(ReadKind(j, kind), Some(candidate));
    match kind
    case Tag(name) => j.(tags := j.tags[name := version.value])
    case ClearExpire => j.(clearExpire := version)
    case ClearRemove => j.(clearRemove := version)
  }

  lemma TopExists(tags: map<string, Version>)
    requires tags != map[]
    ensures exists name :: name in tags && forall other | other in tags :: tags[other] <= tags[name]
  {
    var name :| name in tags;
    var top := TopAmong(tags, tags.Keys, name);
  }

  lemma {:induction false} TopAmong(tags: map<string, Version>, names: set<string>, name: string) returns (top: string)
    requires names <= tags.Keys && name in tags
    ensures top in tags && tags[name] <= tags[top] && forall other | other in names :: tags[other] <= tags[top]
    decreases names
  {
    if other :| other in names {
      top := TopAmong(tags, names - {other}, if tags[other] > tags[name] then other else name);
    } else {
      top := name;
    }
  }

  /** The highest version among the tags. */
  function Top(tags: map<string, Version>): (v: Version)
    requires tags != map[]
    ensures forall name | name in tags :: tags[name] <= v
  {
    assert exists v :: v in tags.Values && forall name | name in tags :: tags[name] <= v by {
      TopExists(tags);
      var top :| top in tags && forall other | other in tags :: tags[other] <= tags[top];
      assert tags[top] in tags.Values;
    }
    var v :| v in tags.Values && forall name | name in tags :: tags[name] <= v;
    v
  }

  /** Too many tags: a clear fact as strong as all of them takes their place. */
  function Compacted(j: Journal): Journal
    requires j.tags != map[]
  {
    var clear := Higher(j.clearRemove, Some(Top(j.tags)));
    Journal(map name | name in j.tags && j.tags[name] > clear.value :: j.tags[name], j.clearExpire, clear)
  }

  function Advanced(j: Journal, kind: Kind, candidate: Version, maxTags: nat): Journal {
    var r := Recorded(j, kind, candidate);
    if |r.tags| <= maxTags then r else Compacted(r)
  }

  /** The strongest fact that invalidates entries of the kind: for a tag also the clear. */
  function Covering(j: Journal, kind: Kind): Option<Version> {
    if kind.Tag? then Higher(ReadKind(j, kind), j.clearRemove) else ReadKind(j, kind)
  }

  lemma CompactionForgetsNothing(j: Journal, kind: Kind)
    requires j.tags != map[]
    ensures Compacted(j).tags == map[]
    ensures AtLeast(Covering(Compacted(j), kind), Covering(j, kind))
  {
    assert forall name | name in j.tags :: j.tags[name] <= Top(j.tags);
  }

  /** An advance keeps every invalidation in force, records its own, and bounds the tags. A
      tag's own record disappears exactly if the advance compacts. */
  lemma AdvanceForgetsNothing(j: Journal, kind: Kind, candidate: Version, maxTags: nat, other: Kind)
    ensures var r := Advanced(j, kind, candidate, maxTags);
      && |r.tags| <= maxTags
      && AtLeast(Covering(r, other), Covering(j, other)) && AtLeast(Covering(r, kind), Some(candidate))
      && (!other.Tag? ==> AtLeast(ReadKind(r, other), ReadKind(j, other)))
      && (other.Tag? && other.name in j.tags ==>
            (other.name !in r.tags <==> |Recorded(j, kind, candidate).tags| > maxTags)
            && (other.name in r.tags ==> AtLeast(ReadKind(r, other), ReadKind(j, other))))
  {
    var r := Recorded(j, kind, candidate);
    if |r.tags| > maxTags {
      CompactionForgetsNothing(r, other);
      CompactionForgetsNothing(r, kind);
    }
  }

  /** Such a journal: with room for one tag, recording a second replaces both by a clear
      fact, which still covers them. */
  lemma TagRecordCanDisappear(a: string, b: string)
    requires a != b
    ensures var j := Advanced(BLANK, Tag(a), 1, 1);
      var r := Advanced(j, Tag(b), 2, 1);
      && ReadKind(j, Tag(a)) == Some(1)
      && ReadKind(r, Tag(a)) == None && ReadKind(r, Tag(b)) == None
      && AtLeast(Covering(r, Tag(a)), Some(1)) && AtLeast(Covering(r, Tag(b)), Some(2))
  {
    var j := Advanced(BLANK, Tag(a), 1, 1);
    assert j.tags == map[a := 1];
    var r := Recorded(j, Tag(b), 2);
    assert r.tags == map[a := 1, b := 2] && r.tags.Keys == {a, b};
    AdvanceForgetsNothing(j, Tag(b), 2, 1, Tag(a));
    CompactionForgetsNothing(r, Tag(b));
  }

  class InvalidationStore {
    const limit: nat
    const maxScopes: nat
    const maxTags: nat
    var scopes: map<string, Journal>
    var snapshots: Snapshots

    ghost predicate Valid()
      reads this
    {
      limit > 0 && |snapshots| <= limit && |scopes| <= maxScopes
      && forall scope | scope in scopes :: |scopes[scope].tags| <= maxTags
    }

    constructor (limit: nat, maxScopes: nat, maxTags: nat)
      requires limit > 0
      ensures Valid() && this.limit == limit && this.maxScopes == maxScopes && this.maxTags == maxTags
      ensures scopes == map[] && snapshots == map[]
    {
      this.limit, this.maxScopes, this.maxTags := limit, maxScopes, maxTags;
      scopes, snapshots := map[], map[];
    }

    function Durable(key: Key): Option<Version>
      reads this
    {
      if key.scope in scopes then ReadKind(scopes[key.scope], key.kind) else None
    }

    /** A read drops an expired snapshot, and always reports at least the durable maximum. */
    method ReadSnapshot(key: Key, now: int) returns (r: Read)
      requires Valid()
      modifies this`snapshots
      ensures Valid() && AtLeast(Maximum(r), Durable(key))
      ensures r.Found? <==> key in old(snapshots) && now < old(snapshots)[key].physical
      ensures r.Found? ==> snapshots == old(snapshots) && r.snapshot == WithMaximum(snapshots[key], Durable(key))
      ensures r.Missing? ==> snapshots == old(snapshots) - {key} && r.maximum == Durable(key)
    {
      if key in snapshots {
        var snapshot := snapshots[key];
        if Expired(snapshot, now) {
          SubsetCount((snapshots - {key}).Keys, snapshots.Keys);
          assert |(snapshots - {key}).Keys| == |snapshots - {key}| && |snapshots.Keys| == |snapshots|;
          snapshots := snapshots - {key};
          return Missing(Durable(key));
        }
        return Found(WithMaximum(snapshot, Durable(key)));
      }
      assert snapshots == snapshots - {key};
      r := Missing(Durable(key));
    }

    /** Renewal keeps the bound, and answers with at least the durable maximum. */
    method Renew(key: Key, snapshot: Snapshot, now: int) returns (r: Renewal)
      requires Valid()
      modifies this`snapshots
      ensures Valid() && Renewed(old(snapshots), snapshots, key, snapshot, Durable(key), now, limit)
      ensures r.Late? <==> now >= snapshot.physical
      ensures r.KeptNewer? <==> now < snapshot.physical && key in old(snapshots) && var held := old(snapshots)[key];
                                now < held.physical
                                && (held.version > snapshot.version || (held.version == snapshot.version && held.created > snapshot.created))
      ensures r.KeptNewer? ==> key in snapshots && snapshots[key] == old(snapshots)[key]
      ensures r.Stored? ==> && r.snapshot.created == snapshot.created && r.snapshot.logical == snapshot.logical
                            && r.snapshot.physical == snapshot.physical
                            && (Some(r.snapshot.version) == Durable(key) || r.snapshot.version == snapshot.version)
      ensures r.Stored? ==> key in snapshots && snapshots[key] == r.snapshot
      ensures !r.Late? ==> AtLeast(Some(r.snapshot.version), Durable(key)) && r.snapshot.version >= snapshot.version
    {
      if Expired(snapshot, now) {
        return Late;
      }
      var maximum := Durable(key);
      LiveCount(snapshots, now);
      snapshots := Live(snapshots, now);
      if key in snapshots && Supersedes(snapshots[key], snapshot) {
        return KeptNewer(WithMaximum(snapshots[key], maximum));
      }
      Put(key, WithMaximum(snapshot, maximum));
      r := Stored(snapshots[key]);
    }

    /** Stores a snapshot, giving up one of the oldest others if there is no room for its key. */
    method Put(key: Key, snapshot: Snapshot)
      requires Valid()
      modifies this`snapshots
      ensures Valid() && key in snapshots && snapshots[key] == snapshot
      ensures
        if key in old(snapshots) || |old(snapshots)| < limit then snapshots == old(snapshots)[key := snapshot]
        else exists oldest ::
          && oldest in old(snapshots) && (forall j | j in old(snapshots) :: old(snapshots)[oldest].created <= old(snapshots)[j].created)
          && snapshots == (old(snapshots) - {oldest})[key := snapshot]
    {
      if key !in snapshots && |snapshots| >= limit {
        OldestExists(snapshots);
        var oldest :| oldest in snapshots && forall j | j in snapshots :: snapshots[oldest].created <= snapshots[j].created;
        snapshots := snapshots - {oldest};
      }
      snapshots := snapshots[key := snapshot];
    }

    /** An advance is refused exactly for a new scope beyond the bound, and then changes
        nothing; otherwise its fact is in force and no invalidation has been forgotten. */
    method Advance(key: Key, candidate: Version) returns (accepted: bool)
      requires Valid()
      modifies this`scopes
      ensures Valid() && accepted == (key.scope in old(scopes) || |old(scopes)| < maxScopes)
      ensures scopes == if accepted then Updated(old(scopes), key, candidate, maxTags) else old(scopes)
      ensures accepted ==> AtLeast(CoveringIn(scopes, key), Some(candidate))
      ensures forall k :: AtLeast(CoveringIn(scopes, k), CoveringIn(old(scopes), k))
    {
      if key.scope !in scopes && |scopes| >= maxScopes {
        return false;
      }
      UpdateForgetsNothing(scopes, key, candidate, maxTags);
      var journal := if key.scope in scopes then scopes[key.scope] else BLANK;
      AdvanceForgetsNothing(journal, key.kind, candidate, maxTags, key.kind);
      scopes := scopes[key.scope := Advanced(journal, key.kind, candidate, maxTags)];
      accepted := true;
    }
  }

  function Updated(scopes: map<string, Journal>, key: Key, candidate: Version, maxTags: nat): map<string, Journal> {
    scopes[key.scope := Advanced(if key.scope in scopes then scopes[key.scope] else BLANK, key.kind, candidate, maxTags)]
  }

  function CoveringIn(scopes: map<string, Journal>, key: Key): Option<Version> {
    if key.scope in scopes then Covering(scopes[key.scope], key.kind) else None
  }

  lemma UpdateForgetsNothing(scopes: map<string, Journal>, key: Key, candidate: Version, maxTags: nat)
    ensures var r := Updated(scopes, key, candidate, maxTags);
      && AtLeast(CoveringIn(r, key), Some(candidate))
      && forall k :: AtLeast(CoveringIn(r, k), CoveringIn(scopes, k))
  {
    var journal := if key.scope in scopes then scopes[key.scope] else BLANK;
    AdvanceForgetsNothing(journal, key.kind, candidate, maxTags, key.kind);
    forall k ensures AtLeast(CoveringIn(Updated(scopes, key, candidate, maxTags), k), CoveringIn(scopes, k)) {
      AdvanceForgetsNothing(journal, key.kind, candidate, maxTags, k.kind);
    }
  }

  // ---- Runs ------------------------------------------------------------------------------

  datatype World = World(scopes: map<string, Journal>, snapshots: Snapshots)

  datatype Event = ReadAt(key: Key, now: int) | RenewAt(key: Key, snapshot: Snapshot, now: int) | AdvanceTo(key: Key, version: Version)

  function DurableIn(w: World, key: Key): Option<Version> {
    if key.scope in w.scopes then ReadKind(w.scopes[key.scope], key.kind) else None
  }

  /** The bounds of the store. */
  datatype Limits = Limits(snapshots: nat, scopes: nat, tags: nat)

  ghost predicate Next(w: World, e: Event, v: World, limits: Limits) {
    match e
    case ReadAt(key, now) =>
      && v.scopes == w.scopes
      && v.snapshots == if key in w.snapshots && !Expired(w.snapshots[key], now) then w.snapshots else w.snapshots - {key}
    case RenewAt(key, snapshot, now) =>
      v.scopes == w.scopes && Renewed(w.snapshots, v.snapshots, key, snapshot, DurableIn(w, key), now, limits.snapshots)
    case AdvanceTo(key, version) =>
      && v.snapshots == w.snapshots
      && v.scopes == if key.scope in w.scopes || |w.scopes| < limits.scopes
                     then Updated(w.scopes, key, version, limits.tags) else w.scopes
  }

  /** The event leaves the key's snapshot retained: it had not expired by the event's clock
      and was not given up. */
  predicate Retains(w: World, e: Event, v: World, key: Key) {
    && key in w.snapshots && key in v.snapshots
    && (e.RenewAt? && !Expired(e.snapshot, e.now) ==> !Expired(w.snapshots[key], e.now))
  }

  ghost predicate IsRun(worlds: seq<World>, events: seq<Event>, limits: Limits) {
    |worlds| == |events| + 1 && forall i | 0 <= i < |events| :: Next(worlds[i], events[i], worlds[i + 1], limits)
  }

  lemma StepNeverLowers(w: World, e: Event, v: World, limits: Limits, key: Key)
    requires Next(w, e, v, limits) && Retains(w, e, v, key)
    ensures v.snapshots[key].version >= w.snapshots[key].version
  {
  }

  /** While a snapshot stays retained, no run of reads, renewals and durable advances lowers
      its revision. */
  lemma {:induction false} RetainedNeverLowers(worlds: seq<World>, events: seq<Event>, limits: Limits, key: Key)
    requires IsRun(worlds, events, limits)
    requires key in worlds[0].snapshots && forall i | 0 <= i < |events| :: Retains(worlds[i], events[i], worlds[i + 1], key)
    ensures key in worlds[|events|].snapshots
    ensures worlds[|events|].snapshots[key].version >= worlds[0].snapshots[key].version
    decreases |events|
  {
    if events != [] {
      var n := |events| - 1;
      RetainedNeverLowers(worlds[..n + 1], events[..n], limits, key);
      assert Retains(worlds[n], events[n], worlds[n + 1], key);
      StepNeverLowers(worlds[n], events[n], worlds[n + 1], limits, key);
    }
  }

  /** The store never holds more snapshots than its limit, and forgets no
      invalidation: what covers a key never falls. */
  lemma {:induction false} BoundAndFactsKept(worlds: seq<World>, events: seq<Event>, limits: Limits, key: Key)
    requires IsRun(worlds, events, limits) && limits.snapshots > 0 && |worlds[0].snapshots| <= limits.snapshots
    ensures |worlds[|events|].snapshots| <= limits.snapshots
    ensures AtLeast(CoveringIn(worlds[|events|].scopes, key), CoveringIn(worlds[0].scopes, key))
    decreases |events|
  {
    if events != [] {
      var n := |events| - 1;
      BoundAndFactsKept(worlds[..n + 1], events[..n], limits, key);
      StepKeepsBound(worlds[n], events[n], worlds[n + 1], limits);
      StepKeepsFacts(worlds[n], events[n], worlds[n + 1], limits, key);
    }
  }

  lemma StepKeepsFacts(w: World, e: Event, v: World, limits: Limits, key: Key)
    requires Next(w, e, v, limits)
    ensures AtLeast(CoveringIn(v.scopes, key), CoveringIn(w.scopes, key))
  {
    if e.AdvanceTo? {
      UpdateForgetsNothing(w.scopes, e.key, e.version, limits.tags);
    }
  }

  lemma StepKeepsBound(w: World, e: Event, v: World, limits: Limits)
    requires Next(w, e, v, limits) && limits.snapshots > 0 && |w.snapshots| <= limits.snapshots
    ensures |v.snapshots| <= limits.snapshots
  {
    match e
    case ReadAt(key, now) =>
      SubsetCount((w.snapshots - {key}).Keys, w.snapshots.Keys);
      assert |(w.snapshots - {key}).Keys| == |w.snapshots - {key}| && |w.snapshots.Keys| == |w.snapshots|;
    case RenewAt(key, snapshot, now) => LiveCount(w.snapshots, now);
    case AdvanceTo(_, _) =>
  }

  /** Exactly when a stored revision falls: a renewal, not itself late, finds the old
      snapshot expired and neither its own version nor the durable journal reaches the old
      one. Even then the result is not below the journal. */
  lemma LoweredExactly(w: World, e: Event, v: World, limits: Limits, key: Key)
    requires Next(w, e, v, limits) && key in w.snapshots && key in v.snapshots
    ensures v.snapshots[key].version < w.snapshots[key].version
       <==> && e.RenewAt? && e.key == key && !Expired(e.snapshot, e.now) && Expired(w.snapshots[key], e.now)
            && WithMaximum(e.snapshot, DurableIn(w, key)).version < w.snapshots[key].version
    ensures v.snapshots[key].version < w.snapshots[key].version
        ==> AtLeast(Some(v.snapshots[key].version), DurableIn(w, key))
  {
  }

  const EMPTY: World := World(map[], map[])

  /** It does happen: from the empty store, a renewal after expiry stores a lower revision. */
  lemma RevisionCanFall(key: Key, limits: Limits)
    requires limits.snapshots > 0
    ensures var older, newer := Snapshot(5, 0, 10, 10), Snapshot(3, 20, 30, 30);
      var first, second := World(map[], map[key := older]), World(map[], map[key := newer]);
      && ValidSnapshot(older) && ValidSnapshot(newer)
      && IsRun([EMPTY, first, second], [RenewAt(key, older, 0), RenewAt(key, newer, 20)], limits)
      && second.snapshots[key].version < first.snapshots[key].version
  {
    var older, newer := Snapshot(5, 0, 10, 10), Snapshot(3, 20, 30, 30);
    assert Live(EMPTY.snapshots, 0) == map[];
    assert Live(map[key := older], 20) == map[];
    assert Next(EMPTY, RenewAt(key, older, 0), World(map[], map[key := older]), limits);
    assert Next(World(map[], map[key := older]), RenewAt(key, newer, 20), World(map[], map[key := newer]), limits);
  }
}
