/** Token leases with expiry and the value writes they fence (src/distributed_lock.rs and
    `write_with_lease` in src/distributed.rs), as values and as the mutating authority. */
module Leases {
  import opened Prelude
  import opened Time

  type Key = string
  type Token = nat

  datatype Held = Held(token: Token, expires: Ticks)

  type Locks = map<Key, Held>

  predicate Holds(l: Locks, now: Ticks, key: Key, token: Token) {
    key in l && l[key].token == token && now < l[key].expires
  }

  predicate Free(l: Locks, now: Ticks, key: Key) { key in l ==> now >= l[key].expires }

  function TryOnce(l: Locks, now: Ticks, key: Key, token: Token, ttl: nat): Locks {
    if Free(l, now, key) then l[key := Held(token, Plus(now, ttl))] else l
  }

  function Renew(l: Locks, now: Ticks, key: Key, token: Token, ttl: nat): Locks {
    if Holds(l, now, key, token) then l[key := Held(token, Plus(now, ttl))] else l
  }

  /** Releases its own token even after expiry, and never another's. */
  function Release(l: Locks, key: Key, token: Token): Locks {
    if key in l && l[key].token == token then l - {key} else l
  }

  /** Drops what has expired; counting the held tokens does this. */
  function Sweep(l: Locks, now: Ticks): Locks {
    map key | key in l && now < l[key].expires :: l[key]
  }

  type Bytes = seq<int>

  datatype Stored = Stored(bytes: Bytes, expires: Option<Ticks>)

  datatype Mutation = Set(bytes: Bytes, ttl: Option<nat>) | Remove

  function Apply(cells: map<Key, Stored>, cell: Key, m: Mutation, now: Ticks): map<Key, Stored> {
    match m
    case Set(bytes, ttl) => cells[cell := Stored(bytes, if ttl.None? then None else Some(Plus(now, ttl.value)))]
    case Remove => cells - {cell}
  }

  /** A deadline `ttl` ticks from `now`, at the last tick at the latest. */
  predicate IsDeadline(d: Ticks, now: Ticks, ttl: nat) {
    (now + ttl <= MAX_TICKS ==> d == now + ttl) && (now + ttl > MAX_TICKS ==> d == MAX_TICKS)
  }

  /** The cell holds exactly what the committed mutation asked for. */
  predicate Stores(cells: map<Key, Stored>, cell: Key, m: Mutation, at: Ticks) {
    match m
    case Remove => cell !in cells
    case Set(bytes, ttl) =>
      && cell in cells && cells[cell].bytes == bytes
      && (ttl.None? <==> cells[cell].expires.None?)
      && (ttl.Some? ==> IsDeadline(cells[cell].expires.value, at, ttl.value))
  }

  /** The reference locker and value store sharing one clock. */
  class LeasedStore {
    var locks: Locks
    var cells: map<Key, Stored>

    constructor ()
      ensures locks == map[] && cells == map[]
    {
      locks, cells := map[], map[];
    }

    method TryAcquire(key: Key, token: Token, ttl: nat, now: Ticks) returns (acquired: bool)
      modifies this`locks
      ensures acquired == Free(old(locks), now, key) && locks == TryOnce(old(locks), now, key, token, ttl)
      ensures acquired <==> !(key in old(locks) && now < old(locks)[key].expires)
      ensures acquired ==> key in locks && locks[key].token == token && IsDeadline(locks[key].expires, now, ttl)
      ensures forall k | k != key :: (k in locks <==> k in old(locks)) && (k in locks ==> locks[k] == old(locks)[k])
      ensures !acquired ==> locks == old(locks)
    {
      if key in locks && now < locks[key].expires {
        return false;
      }
      locks := locks[key := Held(token, Plus(now, ttl))];
      acquired := true;
    }

    /** The acquisition loop. Before each attempt its wait budget allows, other
        holders may have left any lock map: `turns` gives that map and the clock reading of
        each attempt. The first turn that finds the lease free acquires it. */
    method Acquire(key: Key, token: Token, ttl: nat, turns: seq<(Locks, Ticks)>) returns (attempt: Option<nat>)
      modifies this`locks
      ensures attempt.None? ==> forall i | 0 <= i < |turns| :: !Free(turns[i].0, turns[i].1, key)
      ensures attempt.None? ==> locks == if turns == [] then old(locks) else turns[|turns| - 1].0
      ensures attempt.Some? ==>
                && attempt.value < |turns|
                && (forall i | 0 <= i < attempt.value :: !Free(turns[i].0, turns[i].1, key))
                && var (found, now) := turns[attempt.value];
                   Free(found, now, key) && locks == TryOnce(found, now, key, token, ttl)
    {
      var n := 0;
      while n < |turns|
        invariant n <= |turns| && locks == if n == 0 then old(locks) else turns[n - 1].0
        invariant forall i | 0 <= i < n :: !Free(turns[i].0, turns[i].1, key)
      {
        locks := turns[n].0;
        var acquired := TryAcquire(key, token, ttl, turns[n].1);
        if acquired {
          return Some(n);
        }
        n := n + 1;
      }
      attempt := None;
    }

    method Extend(key: Key, token: Token, ttl: nat, now: Ticks) returns (renewed: bool)
      modifies this`locks
      ensures renewed == Holds(old(locks), now, key, token) && locks == Renew(old(locks), now, key, token, ttl)
      ensures renewed && ttl > 0 && now < MAX_TICKS ==> Holds(locks, now, key, token)
      ensures renewed <==> key in old(locks) && old(locks)[key].token == token && now < old(locks)[key].expires
      ensures renewed ==> key in locks && locks[key].token == token && IsDeadline(locks[key].expires, now, ttl)
      ensures forall k | k != key :: (k in locks <==> k in old(locks)) && (k in locks ==> locks[k] == old(locks)[k])
      ensures !renewed ==> locks == old(locks)
    {
      renewed := key in locks && locks[key].token == token && now < locks[key].expires;
      if renewed {
        locks := locks[key := Held(locks[key].token, Plus(now, ttl))];
      }
    }

    method Surrender(key: Key, token: Token)
      modifies this`locks
      ensures locks == Release(old(locks), key, token)
      ensures locks == if key in old(locks) && old(locks)[key].token == token then old(locks) - {key} else old(locks)
      ensures forall at: Ticks, other | other != token :: Holds(locks, at, key, other) == Holds(old(locks), at, key, other)
    {
      if key in locks && locks[key].token == token {
        locks := locks - {key};
      }
    }

    method HeldCount(now: Ticks) returns (count: nat)
      modifies this`locks
      ensures locks == Sweep(old(locks), now) && count == |locks|
      ensures forall key, token :: Holds(locks, now, key, token) == Holds(old(locks), now, key, token)
    {
      locks := map key | key in locks && now < locks[key].expires :: locks[key];
      count := |locks|;
    }

    /** Commits exactly under the proof's ownership; a lost lease changes nothing. */
    method WriteWithLease(cell: Key, m: Mutation, proofKey: Key, token: Token, now: Ticks) returns (committed: bool)
      modifies this`cells
      ensures committed == Holds(locks, now, proofKey, token)
      ensures committed <==> proofKey in locks && locks[proofKey].token == token && now < locks[proofKey].expires
      ensures committed ==> Stores(cells, cell, m, now)
      ensures forall k | k != cell :: (k in cells <==> k in old(cells)) && (k in cells ==> cells[k] == old(cells)[k])
      ensures cells == if committed then Apply(old(cells), cell, m, now) else old(cells)
    {
      committed := proofKey in locks && locks[proofKey].token == token && now < locks[proofKey].expires;
      if committed {
        match m
        case Set(bytes, ttl) =>
          var expires := None;
          if ttl.Some? {
            expires := Some(Plus(now, ttl.value));
          }
          cells := cells[cell := Stored(bytes, expires)];
        case Remove =>
          cells := cells - {cell};
      }
    }
  }
}

/** Every run of acquisitions, renewals, releases, clock moves and leased writes. */
module LeaseRuns {
  import opened Prelude
  import opened Time
  import opened Leases

  datatype Record = Acquired(key: Key, token: Token) | Wrote(key: Key, token: Token, cell: Key, mutation: Mutation, at: Ticks)

  datatype World = World(locks: Locks, now: Ticks, cells: map<Key, Stored>, log: seq<Record>)

  datatype Event =
    | TryAcquire(key: Key, token: Token, ttl: nat)
    | Extend(key: Key, token: Token, ttl: nat)
    | Surrender(key: Key, token: Token)
    | SweepExpired
    | Clock(now: Ticks)
    | Write(key: Key, token: Token, cell: Key, mutation: Mutation)

  /** Tokens are random, so one that has acquired is never drawn for another acquisition. */
  ghost predicate Used(log: seq<Record>, token: Token) {
    exists i | 0 <= i < |log| :: log[i].Acquired? && log[i].token == token
  }

  ghost function Step(w: World, e: Event): World {
    match e
    case TryAcquire(key, token, ttl) =>
      if Used(w.log, token) || !Free(w.locks, w.now, key) then w
      else w.(locks := TryOnce(w.locks, w.now, key, token, ttl), log := w.log + [Acquired(key, token)])
    case Extend(key, token, ttl) => w.(locks := Renew(w.locks, w.now, key, token, ttl))
    case Surrender(key, token) => w.(locks := Release(w.locks, key, token))
    case SweepExpired => w.(locks := Sweep(w.locks, w.now))
    case Clock(now) => w.(now := now)
    case Write(key, token, cell, m) =>
      if Holds(w.locks, w.now, key, token)
      then w.(cells := Apply(w.cells, cell, m, w.now), log := w.log + [Wrote(key, token, cell, m, w.now)])
      else w
  }

  ghost function Run(w: World, events: seq<Event>): World
    decreases |events|
  {
    if events == [] then w else Run(Step(w, events[0]), events[1..])
  }

  const START: World := World(map[], 0, map[], [])

  // ---- Ownership periods -----------------------------------------------------------------

  /** The token that acquired the key last. */
  function Owner(log: seq<Record>, key: Key): Option<Token> {
    if log == [] then None
    else
      var last := log[|log| - 1];
      if last.Acquired? && last.key == key then Some(last.token) else Owner(log[..|log| - 1], key)
  }

  /** What replaying the committed writes leaves in the cells. */
  function Replay(log: seq<Record>): map<Key, Stored> {
    if log == [] then map[]
    else
      var cells := Replay(log[..|log| - 1]);
      match log[|log| - 1]
      case Acquired(_, _) => cells
      case Wrote(_, _, cell, m, at) => Apply(cells, cell, m, at)
  }

  /** Every write is by the token that acquired its key last before it. */
  predicate Fenced(log: seq<Record>) {
    forall i | 0 <= i < |log| && log[i].Wrote? :: Owner(log[..i], log[i].key) == Some(log[i].token)
  }

  predicate Distinct(log: seq<Record>) {
    forall i, j | 0 <= i < j < |log| && log[i].Acquired? && log[j].Acquired? :: log[i].token != log[j].token
  }

  predicate Inv(w: World) {
    && (forall key | key in w.locks :: Owner(w.log, key) == Some(w.locks[key].token))
    && Fenced(w.log) && Distinct(w.log)
    && w.cells == Replay(w.log)
  }

  lemma Extends(log: seq<Record>, r: Record)
    requires Fenced(log) && Distinct(log)
    requires r.Wrote? ==> Owner(log, r.key) == Some(r.token)
    requires r.Acquired? ==> !Used(log, r.token)
    ensures Fenced(log + [r]) && Distinct(log + [r])
    ensures forall key :: Owner(log + [r], key) == if r.Acquired? && r.key == key then Some(r.token) else Owner(log, key)
  {
    var l := log + [r];
    assert l[..|log|] == log;
    forall i | 0 <= i < |l| && l[i].Wrote? ensures Owner(l[..i], l[i].key) == Some(l[i].token) {
      assert l[..i] == log[..i];
    }
  }

  /** A record that agrees with the locks and cells it comes with. */
  lemma RecordKeeps(w: World, v: World, r: Record)
    requires Inv(w) && v.log == w.log + [r]
    requires r.Acquired? ==> !Used(w.log, r.token) && v.cells == w.cells
                             && exists held: Held :: held.token == r.token && v.locks == w.locks[r.key := held]
    requires r.Wrote? ==> v.locks == w.locks && Owner(w.log, r.key) == Some(r.token) && v.cells == Apply(w.cells, r.cell, r.mutation, r.at)
    ensures Inv(v)
  {
    Extends(w.log, r);
    assert v.log[..|w.log|] == w.log;
  }

  lemma StepKeeps(w: World, e: Event)
    requires Inv(w)
    ensures Inv(Step(w, e))
  {
    match e
    case TryAcquire(key, token, ttl) =>
      if !Used(w.log, token) && Free(w.locks, w.now, key) {
        assert Step(w, e).locks == w.locks[key := Held(token, Plus(w.now, ttl))];
        RecordKeeps(w, Step(w, e), Acquired(key, token));
      }
    case Write(key, token, cell, m) =>
      if Holds(w.locks, w.now, key, token) {
        RecordKeeps(w, Step(w, e), Wrote(key, token, cell, m, w.now));
      }
    case _ =>
  }

  lemma {:induction false} RunKeeps(w: World, events: seq<Event>)
    requires Inv(w)
    ensures Inv(Run(w, events))
    decreases |events|
  {
    if events != [] {
      StepKeeps(w, events[0]);
      RunKeeps(Step(w, events[0]), events[1..]);
    }
  }

  /** The owner is the latest acquirer. */
  lemma {:induction false} OwnerIsLatest(log: seq<Record>, key: Key)
    ensures Owner(log, key).Some? ==>
              exists a | 0 <= a < |log| :: log[a] == Acquired(key, Owner(log, key).value)
                                           && forall b | a < b < |log| && log[b].Acquired? :: log[b].key != key
    ensures Owner(log, key).None? ==> forall b | 0 <= b < |log| && log[b].Acquired? :: log[b].key != key
    decreases |log|
  {
    if log != [] {
      var n := |log| - 1;
      OwnerIsLatest(log[..n], key);
      if log[n].Acquired? && log[n].key == key {
        assert log[n] == Acquired(key, Owner(log, key).value);
      } else if Owner(log, key).Some? {
        var a :| 0 <= a < n && log[..n][a] == Acquired(key, Owner(log, key).value)
              && forall b | a < b < n && log[..n][b].Acquired? :: log[..n][b].key != key;
        assert log[a] == Acquired(key, Owner(log, key).value);
        forall b | a < b < |log| && log[b].Acquired? ensures log[b].key != key {
          assert b < n ==> log[..n][b] == log[b];
        }
      } else {
        forall b | 0 <= b < |log| && log[b].Acquired? ensures log[b].key != key {
          assert b < n ==> log[..n][b] == log[b];
        }
      }
    }
  }

  /** Committed leased writes fall into ownership periods: between a write and the moment
      its token acquired the key, nobody else acquired it. The clock may move freely. */
  lemma WritesFallIntoOwnership(events: seq<Event>, i: nat)
    requires var log := Run(START, events).log;
      i < |log| && log[i].Wrote?
    ensures var log := Run(START, events).log;
      exists a | 0 <= a < i :: log[a] == Acquired(log[i].key, log[i].token)
                               && forall b | a < b < i && log[b].Acquired? :: log[b].key != log[i].key
  {
    RunKeeps(START, events);
    var log := Run(START, events).log;
    OwnerIsLatest(log[..i], log[i].key);
    var a :| 0 <= a < i && log[..i][a] == Acquired(log[i].key, log[i].token)
          && forall b | a < b < i && log[..i][b].Acquired? :: log[..i][b].key != log[i].key;
    assert log[a] == Acquired(log[i].key, log[i].token);
    forall b | a < b < i && log[b].Acquired? ensures log[b].key != log[i].key {
      assert log[..i][b] == log[b];
    }
  }

  /** After another token acquires the key, no older token's write commits. */
  lemma NoStaleWrite(events: seq<Event>, a: nat, b: nat, i: nat)
    requires var log := Run(START, events).log;
      a < b < i < |log| && log[a].Acquired? && log[b].Acquired? && log[a].key == log[b].key && log[i].Wrote?
    ensures var log := Run(START, events).log;
      log[i].key == log[b].key ==> log[i].token != log[a].token
  {
    RunKeeps(START, events);
    var log := Run(START, events).log;
    if log[i].key == log[b].key {
      WritesFallIntoOwnership(events, i);
      var c :| 0 <= c < i && log[c] == Acquired(log[i].key, log[i].token)
            && forall d | c < d < i && log[d].Acquired? :: log[d].key != log[i].key;
      assert log[c].Acquired? && b <= c;
    }
  }

  /** The cells hold exactly what the committed writes left, in commit order. */
  lemma CellsReplayTheLog(events: seq<Event>)
    ensures Run(START, events).cells == Replay(Run(START, events).log)
  {
    RunKeeps(START, events);
  }

  predicate Writes(r: Record, cell: Key) { r.Wrote? && r.cell == cell }

  /** The record is the last write to the cell. */
  predicate LastWrite(log: seq<Record>, cell: Key, i: nat)
    requires i < |log|
  {
    Writes(log[i], cell) && forall j | i < j < |log| :: !Writes(log[j], cell)
  }

  lemma {:induction false} ReplayAt(log: seq<Record>, cell: Key)
    ensures (forall i | 0 <= i < |log| :: !Writes(log[i], cell)) ==> cell !in Replay(log)
    ensures forall i: nat | i < |log| && LastWrite(log, cell, i) :: Stores(Replay(log), cell, log[i].mutation, log[i].at)
    decreases |log|
  {
    if log != [] {
      var n := |log| - 1;
      ReplayAt(log[..n], cell);
      forall i: nat | i < |log| && LastWrite(log, cell, i)
        ensures Stores(Replay(log), cell, log[i].mutation, log[i].at)
      {
        if i < n {
          assert LastWrite(log[..n], cell, i);
          assert !Writes(log[n], cell);
        }
      }
    }
  }

  /** In every run a cell holds exactly the bytes and deadline of the last committed write to
      it if that was a Set, and is absent if that was a Remove or there was none. */
  lemma CellsHoldTheLastWrite(events: seq<Event>, cell: Key)
    ensures var w := Run(START, events);
      && ((forall i | 0 <= i < |w.log| :: !Writes(w.log[i], cell)) ==> cell !in w.cells)
      && (forall i: nat | i < |w.log| && LastWrite(w.log, cell, i) :: Stores(w.cells, cell, w.log[i].mutation, w.log[i].at))
  {
    CellsReplayTheLog(events);
    ReplayAt(Run(START, events).log, cell);
  }

  /** Exactly the writes under ownership are logged, as they were asked for. */
  lemma WritesAreLogged(w: World, key: Key, token: Token, cell: Key, m: Mutation)
    ensures var v := Step(w, Write(key, token, cell, m));
      if key in w.locks && w.locks[key].token == token && w.now < w.locks[key].expires
      then v.log == w.log + [Wrote(key, token, cell, m, w.now)] else v == w
  {
  }

  // ---- Losing a lease ----------------------------------------------------------------------

  predicate Forward(now: Ticks, events: seq<Event>)
    decreases |events|
  {
    events == []
    || ((events[0].Clock? ==> now <= events[0].now)
        && Forward(if events[0].Clock? then events[0].now else now, events[1..]))
  }

  lemma {:induction false} LostStaysLost(w: World, key: Key, token: Token, events: seq<Event>)
    requires Used(w.log, token) && !Holds(w.locks, w.now, key, token) && Forward(w.now, events)
    ensures var v := Run(w, events);
      Used(v.log, token) && !Holds(v.locks, v.now, key, token)
    decreases |events|
  {
    if events != [] {
      var v := Step(w, events[0]);
      assert Used(v.log, token) by {
        var i :| 0 <= i < |w.log| && w.log[i].Acquired? && w.log[i].token == token;
        assert v.log[i] == w.log[i];
      }
      LostStaysLost(v, key, token, events[1..]);
    }
  }

  /** The clock goes back before the expiry of the token's own stored entry. */
  predicate Revives(w: World, key: Key, token: Token, e: Event) {
    e.Clock? && key in w.locks && w.locks[key].token == token && e.now < w.locks[key].expires <= w.now
  }

  lemma StepRevives(w: World, key: Key, token: Token, e: Event)
    requires Used(w.log, token) && !Holds(w.locks, w.now, key, token)
    ensures Used(Step(w, e).log, token)
    ensures Holds(Step(w, e).locks, Step(w, e).now, key, token) <==> Revives(w, key, token, e)
  {
    var v := Step(w, e);
    var i :| 0 <= i < |w.log| && w.log[i].Acquired? && w.log[i].token == token;
    assert v.log[i] == w.log[i];
  }

  lemma RunPrefix(w: World, events: seq<Event>, n: nat)
    requires events != [] && n < |events|
    ensures Run(w, events[..n + 1]) == Run(Step(w, events[0]), events[1..][..n])
  {
    assert events[..n + 1][1..] == events[1..][..n];
  }

  /** Whether the token holds the key at some point of the run. */
  ghost predicate HeldDuring(w: World, key: Key, token: Token, events: seq<Event>) {
    exists n: nat | n <= |events| :: HoldsAfter(w, key, token, events[..n])
  }

  ghost predicate HoldsAfter(w: World, key: Key, token: Token, events: seq<Event>) {
    Holds(Run(w, events).locks, Run(w, events).now, key, token)
  }

  ghost predicate RevivedAt(w: World, key: Key, token: Token, events: seq<Event>, i: nat)
    requires i < |events|
  {
    Revives(Run(w, events[..i]), key, token, events[i])
  }

  /** In a run from a world in which a used token has lost the key, the token holds it again
      at some point exactly if the clock at some point goes back before the expiry of its
      still-stored entry. */
  lemma {:induction false} OnlyTheClockRevives(w: World, key: Key, token: Token, events: seq<Event>)
    requires Used(w.log, token) && !Holds(w.locks, w.now, key, token)
    ensures HeldDuring(w, key, token, events) <==> exists i: nat | i < |events| :: RevivedAt(w, key, token, events, i)
    decreases |events|
  {
    if events == [] {
      forall n: nat | n <= |events| ensures !HoldsAfter(w, key, token, events[..n]) {
        assert events[..n] == [];
      }
      assert !HeldDuring(w, key, token, events);
    } else {
      var v, rest := Step(w, events[0]), events[1..];
      StepRevives(w, key, token, events[0]);
      RunPrefix(w, events, 0);
      assert events[..0] == [] && Run(v, rest[..0]) == v;
      if Revives(w, key, token, events[0]) {
        assert RevivedAt(w, key, token, events, 0);
        assert HoldsAfter(w, key, token, events[..1]);
      } else {
        OnlyTheClockRevives(v, key, token, rest);
        Shifts(w, key, token, events);
      }
    }
  }

  lemma Shifts(w: World, key: Key, token: Token, events: seq<Event>)
    requires events != [] && !Holds(w.locks, w.now, key, token) && !Revives(w, key, token, events[0])
    ensures HeldDuring(w, key, token, events) <==> HeldDuring(Step(w, events[0]), key, token, events[1..])
    ensures (exists i: nat | i < |events| :: RevivedAt(w, key, token, events, i))
       <==> (exists i: nat | i < |events[1..]| :: RevivedAt(Step(w, events[0]), key, token, events[1..], i))
  {
    var v, rest := Step(w, events[0]), events[1..];
    if n: nat :| n <= |events| && HoldsAfter(w, key, token, events[..n]) {
      assert n > 0 by { assert events[..0] == []; }
      RunPrefix(w, events, n - 1);
      assert HoldsAfter(v, key, token, rest[..n - 1]);
    }
    if n: nat :| n <= |rest| && HoldsAfter(v, key, token, rest[..n]) {
      RunPrefix(w, events, n);
      assert HoldsAfter(w, key, token, events[..n + 1]);
    }
    if i: nat :| i < |events| && RevivedAt(w, key, token, events, i) {
      assert i > 0 by { assert events[..0] == []; }
      RunPrefix(w, events, i - 1);
      assert RevivedAt(v, key, token, rest, i - 1);
    }
    if i: nat :| i < |rest| && RevivedAt(v, key, token, rest, i) {
      RunPrefix(w, events, i);
      assert RevivedAt(w, key, token, events, i + 1);
    }
  }

  /** Such a run from the start: acquire, let the lease expire, set the clock back. */
  lemma BackwardClockRevives(key: Key, token: Token)
    ensures var acquired := Run(START, [TryAcquire(key, token, 5)]);
      var lost := Run(START, [TryAcquire(key, token, 5), Clock(9)]);
      var back := Run(START, [TryAcquire(key, token, 5), Clock(9), Clock(3)]);
      && Holds(acquired.locks, acquired.now, key, token)
      && Used(lost.log, token) && !Holds(lost.locks, lost.now, key, token)
      && Holds(back.locks, back.now, key, token)
  {
    var e0, e1, e2 := TryAcquire(key, token, 5), Clock(9), Clock(3);
    var w1 := Step(START, e0);
    assert w1.log == [Acquired(key, token)] && w1.log[0].Acquired?;
    RunOne(START, e0, []);
    RunOne(START, e0, [e1]);
    RunOne(w1, e1, []);
    RunOne(START, e0, [e1, e2]);
    RunOne(w1, e1, [e2]);
    RunOne(Step(w1, e1), e2, []);
    assert [e0] + [e1] == [e0, e1] && [e0] + [e1, e2] == [e0, e1, e2] && [e1] + [e2] == [e1, e2];
  }

  // ---- Cells -----------------------------------------------------------------------------------

  /** Every write to the cell carries one of these proof keys. */
  predicate WritesUse(events: seq<Event>, cell: Key, keys: set<Key>) {
    forall i | 0 <= i < |events| && events[i].Write? && events[i].cell == cell :: events[i].key in keys
  }

  predicate LogUses(log: seq<Record>, cell: Key, keys: set<Key>) {
    forall i | 0 <= i < |log| && log[i].Wrote? && log[i].cell == cell :: log[i].key in keys
  }

  lemma {:induction false} LogFollowsEvents(w: World, events: seq<Event>, cell: Key, keys: set<Key>)
    requires LogUses(w.log, cell, keys) && WritesUse(events, cell, keys)
    ensures LogUses(Run(w, events).log, cell, keys)
    decreases |events|
  {
    if events != [] {
      assert WritesUse(events[1..], cell, keys) by {
        assert forall i | 0 <= i < |events[1..]| :: events[1..][i] == events[i + 1];
      }
      LogFollowsEvents(Step(w, events[0]), events[1..], cell, keys);
    }
  }

  /** Once another token has written the cell, the earlier one writes it no more. */
  predicate Grouped(log: seq<Record>, cell: Key) {
    forall i, j, l | 0 <= i < j < l < |log| && Writes(log[i], cell) && Writes(log[j], cell) && Writes(log[l], cell) ::
      log[i].token == log[l].token ==> log[j].token == log[i].token
  }

  /** The groups come in the order of acquisition. */
  predicate InAcquisitionOrder(log: seq<Record>, cell: Key) {
    forall i, j, a, b | 0 <= i < j < |log| && Writes(log[i], cell) && Writes(log[j], cell) && log[i].token != log[j].token
                        && 0 <= a < |log| && log[a] == Acquired(log[i].key, log[i].token)
                        && 0 <= b < |log| && log[b] == Acquired(log[j].key, log[j].token) :: a < b
  }

  /** With these proof keys, every run keeps the cell's writes in ownership periods. */
  ghost predicate Serializes(keys: set<Key>, cell: Key) {
    forall events: seq<Event> | WritesUse(events, cell, keys) ::
      Grouped(Run(START, events).log, cell) && InAcquisitionOrder(Run(START, events).log, cell)
  }

  /** In a fenced log, a later write of the same key is by a token that acquired later. */
  lemma LaterWriterAcquiredLater(log: seq<Record>, i: nat, j: nat, a: nat, b: nat)
    requires Fenced(log) && Distinct(log) && i < j < |log| && log[i].Wrote? && log[j].Wrote? && log[i].key == log[j].key
    requires log[i].token != log[j].token
    requires a < |log| && log[a] == Acquired(log[i].key, log[i].token)
    requires b < |log| && log[b] == Acquired(log[j].key, log[j].token)
    ensures a < b
  {
    WriterAcquired(log, i, a);
    WriterAcquired(log, j, b);
  }

  /** A writer's only acquisition precedes its write, with no other of that key between. */
  lemma WriterAcquired(log: seq<Record>, i: nat, a: nat)
    requires Fenced(log) && Distinct(log) && i < |log| && log[i].Wrote?
    requires a < |log| && log[a] == Acquired(log[i].key, log[i].token)
    ensures a < i && forall b | a < b < i && log[b].Acquired? :: log[b].key != log[i].key
  {
    var c := OwnerAt(log, i);
    assert log[c].Acquired? && log[a].Acquired?;
    assert !(c < a) && !(a < c);
  }

  lemma OwnerAt(log: seq<Record>, i: nat) returns (a: nat)
    requires Fenced(log) && i < |log| && log[i].Wrote?
    ensures a < i && log[a] == Acquired(log[i].key, log[i].token)
    ensures forall b | a < b < i && log[b].Acquired? :: log[b].key != log[i].key
  {
    OwnerIsLatest(log[..i], log[i].key);
    a :| 0 <= a < i && log[..i][a] == Acquired(log[i].key, log[i].token)
         && forall b | a < b < i && log[..i][b].Acquired? :: log[..i][b].key != log[i].key;
    forall b | a < b < i && log[b].Acquired? ensures log[b].key != log[i].key {
      assert log[..i][b] == log[b];
    }
  }

  lemma OneKeyOrders(log: seq<Record>, cell: Key, key: Key)
    requires Fenced(log) && Distinct(log) && LogUses(log, cell, {key})
    ensures InAcquisitionOrder(log, cell)
  {
    forall i, j, a, b | 0 <= i < j < |log| && Writes(log[i], cell) && Writes(log[j], cell) && log[i].token != log[j].token
                        && 0 <= a < |log| && log[a] == Acquired(log[i].key, log[i].token)
                        && 0 <= b < |log| && log[b] == Acquired(log[j].key, log[j].token)
      ensures a < b
    {
      LaterWriterAcquiredLater(log, i, j, a, b);
    }
  }

  lemma SameWriter(log: seq<Record>, i: nat, j: nat, l: nat)
    requires Fenced(log) && Distinct(log) && i < j < l < |log| && log[i].Wrote? && log[j].Wrote? && log[l].Wrote?
    requires log[i].key == log[j].key == log[l].key && log[i].token == log[l].token
    ensures log[j].token == log[i].token
  {
    var a := OwnerAt(log, i);
    var b := OwnerAt(log, j);
    if log[j].token != log[i].token {
      LaterWriterAcquiredLater(log, i, j, a, b);
      LaterWriterAcquiredLater(log, j, l, b, a);
    }
  }

  lemma OneKeyGroups(log: seq<Record>, cell: Key, key: Key)
    requires Fenced(log) && Distinct(log) && LogUses(log, cell, {key})
    ensures Grouped(log, cell)
  {
    forall i, j, l | 0 <= i < j < l < |log| && Writes(log[i], cell) && Writes(log[j], cell) && Writes(log[l], cell)
                     && log[i].token == log[l].token
      ensures log[j].token == log[i].token
    {
      SameWriter(log, i, j, l);
    }
  }

  /** One proof key is enough: the cell's writes fall into ownership periods, one token at a
      time, in acquisition order. */
  lemma OneKeySerializes(events: seq<Event>, cell: Key, key: Key)
    requires WritesUse(events, cell, {key})
    ensures Grouped(Run(START, events).log, cell) && InAcquisitionOrder(Run(START, events).log, cell)
  {
    RunKeeps(START, events);
    LogFollowsEvents(START, events, cell, {key});
    OneKeyGroups(Run(START, events).log, cell, key);
    OneKeyOrders(Run(START, events).log, cell, key);
  }

  /** Two owners taking turns. */
  function Turns(k1: Key, k2: Key, t1: Token, t2: Token, cell: Key, m: Mutation): seq<Event> {
    [TryAcquire(k1, t1, 5), TryAcquire(k2, t2, 5), Write(k1, t1, cell, m), Write(k2, t2, cell, m), Write(k1, t1, cell, m)]
  }

  function TurnsLog(k1: Key, k2: Key, t1: Token, t2: Token, cell: Key, m: Mutation): seq<Record> {
    [Acquired(k1, t1), Acquired(k2, t2), Wrote(k1, t1, cell, m, 0), Wrote(k2, t2, cell, m, 0), Wrote(k1, t1, cell, m, 0)]
  }

  lemma BothAcquire(k1: Key, k2: Key, t1: Token, t2: Token)
    requires k1 != k2 && t1 != t2
    ensures var w := Step(Step(START, TryAcquire(k1, t1, 5)), TryAcquire(k2, t2, 5));
      w == World(map[k1 := Held(t1, 5), k2 := Held(t2, 5)], 0, map[], [Acquired(k1, t1), Acquired(k2, t2)])
  {
    var w1 := Step(START, TryAcquire(k1, t1, 5));
    assert w1 == World(map[k1 := Held(t1, 5)], 0, map[], [Acquired(k1, t1)]);
    assert !Used(w1.log, t2);
    assert map[k1 := Held(t1, 5)][k2 := Held(t2, 5)] == map[k1 := Held(t1, 5), k2 := Held(t2, 5)];
  }

  lemma TurnsRun(k1: Key, k2: Key, t1: Token, t2: Token, cell: Key, m: Mutation)
    requires k1 != k2 && t1 != t2
    ensures Run(START, Turns(k1, k2, t1, t2, cell, m)).log == TurnsLog(k1, k2, t1, t2, cell, m)
  {
    var events := Turns(k1, k2, t1, t2, cell, m);
    BothAcquire(k1, k2, t1, t2);
    var w1 := Step(START, events[0]);
    var w2 := Step(w1, events[1]);
    var w3 := Step(w2, events[2]);
    var w4 := Step(w3, events[3]);
    var w5 := Step(w4, events[4]);
    assert w5.log == TurnsLog(k1, k2, t1, t2, cell, m);
    assert events[1..][1..] == events[2..] && events[2..][1..] == events[3..] && events[3..][1..] == events[4..] && events[4..][1..] == [];
    assert Run(w4, events[4..]) == w5;
    assert Run(w2, events[2..]) == w5;
  }

  lemma ReturningWriter(log: seq<Record>, cell: Key, i: nat, j: nat, l: nat)
    requires i < j < l < |log| && Writes(log[i], cell) && Writes(log[j], cell) && Writes(log[l], cell)
    requires log[i].token == log[l].token != log[j].token
    ensures !Grouped(log, cell)
  {
  }

  lemma EarlierAcquirerWritesLater(log: seq<Record>, cell: Key, i: nat, j: nat, a: nat, b: nat)
    requires i < j < |log| && Writes(log[i], cell) && Writes(log[j], cell) && log[i].token != log[j].token
    requires b <= a < |log| && log[a] == Acquired(log[i].key, log[i].token) && log[b] == Acquired(log[j].key, log[j].token)
    ensures !InAcquisitionOrder(log, cell)
  {
  }

  lemma TurnsUse(k1: Key, k2: Key, t1: Token, t2: Token, cell: Key, m: Mutation)
    ensures WritesUse(Turns(k1, k2, t1, t2, cell, m), cell, {k1, k2})
  {
  }

  /** Two are too many: owners of any two keys can interleave writes to any cell. */
  lemma TwoKeysInterleave(k1: Key, k2: Key, t1: Token, t2: Token, cell: Key, m: Mutation)
    requires k1 != k2 && t1 != t2
    ensures var events := Turns(k1, k2, t1, t2, cell, m);
      && WritesUse(events, cell, {k1, k2})
      && !Grouped(Run(START, events).log, cell) && !InAcquisitionOrder(Run(START, events).log, cell)
  {
    TurnsUse(k1, k2, t1, t2, cell, m);
    TurnsRun(k1, k2, t1, t2, cell, m);
    ReturningWriter(TurnsLog(k1, k2, t1, t2, cell, m), cell, 2, 3, 4);
    EarlierAcquirerWritesLater(TurnsLog(k1, k2, t1, t2, cell, m), cell, 3, 4, 1, 0);
  }

  /** Exactly when a cell's writes are serialized: its proof keys are at most one. The key
      written is not compared with the proof's key, so nothing else serializes them. */
  lemma CellsFencedExactly(keys: set<Key>, cell: Key)
    ensures Serializes(keys, cell) <==> forall k1, k2 | k1 in keys && k2 in keys :: k1 == k2
  {
    if k1, k2 :| k1 in keys && k2 in keys && k1 != k2 {
      TwoKeysInterleave(k1, k2, 1, 2, cell, Mutation.Remove);
      assert WritesUse(Turns(k1, k2, 1, 2, cell, Mutation.Remove), cell, keys);
    } else {
      forall events: seq<Event> | WritesUse(events, cell, keys)
        ensures Grouped(Run(START, events).log, cell) && InAcquisitionOrder(Run(START, events).log, cell)
      {
        var key := if keys == {} then cell else var k :| k in keys; k;
        assert WritesUse(events, cell, {key});
        OneKeySerializes(events, cell, key);
      }
    }
  }

  lemma RunOne(w: World, e: Event, rest: seq<Event>)
    ensures Run(w, [e] + rest) == Run(Step(w, e), rest)
    ensures [e] + [] == [e]
  {
    assert ([e] + rest)[1..] == rest;
  }
}
