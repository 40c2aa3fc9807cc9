/** Per-key identity slots with weak references, a bounded pool of recent controls and
    budgeted sweeping (src/locking.rs). A control is alive while a holder or waiter, or its
    shard's pool, owns it; upgrading the weak reference of a dead control fails. */
module Locking {
  import opened Prelude

  type Key = string
  type Control = nat

  const SHARDS: nat := 64
  const RETAINED: nat := 16

  datatype Retention = Weak | Reuse(recent: seq<Control>)

  datatype Shard = Shard(entries: map<Key, Control>, sweep: seq<Key>, controls: Retention)

  function Recent(s: Shard): seq<Control> { if s.controls.Weak? then [] else s.controls.recent }

  /** Whether the control's weak reference still upgrades. */
  predicate Alive(s: Shard, holders: multiset<Control>, c: Control) { c in holders || c in Recent(s) }

  predicate NoDuplicates<T(==)>(s: seq<T>) { forall i, j | 0 <= i < j < |s| :: s[i] != s[j] }

  /** The sweep queue lists each slot key exactly once, and the pool is bounded. */
  ghost predicate ShardOk(s: Shard) {
    && NoDuplicates(s.sweep)
    && (forall k :: k in s.sweep <==> k in s.entries)
    && |Recent(s)| <= RETAINED
  }

  // ---- Sweeping -------------------------------------------------------------------------

  predicate Dead(s: Shard, holders: multiset<Control>, k: Key) {
    k in s.entries && !Alive(s, holders, s.entries[k])
  }

  /** The keys of the swept prefix that keep their slot, in order. */
  function Kept(s: Shard, holders: multiset<Control>, n: nat): (r: seq<Key>)
    requires n <= |s.sweep|
    ensures forall k :: k in r <==> k in s.sweep[..n] && k in s.entries && !Dead(s, holders, k)
  {
    if n == 0 then []
    else
      var k := s.sweep[n - 1];
      assert s.sweep[..n] == s.sweep[..n - 1] + [k];
      if k in s.entries && !Dead(s, holders, k) then Kept(s, holders, n - 1) + [k] else Kept(s, holders, n - 1)
  }

  /** Sweeping `n` keys removes exactly their dead slots and requeues the others. */
  function Swept(s: Shard, holders: multiset<Control>, n: nat): Shard
    requires n <= |s.sweep|
  {
    s.(entries := Survivors(s, holders, s.sweep[..n]), sweep := s.sweep[n..] + Kept(s, holders, n))
  }

  function Survivors(s: Shard, holders: multiset<Control>, swept: seq<Key>): map<Key, Control> {
    map k | k in s.entries && !(k in swept && Dead(s, holders, k)) :: s.entries[k]
  }

  lemma SurvivorsNext(s: Shard, holders: multiset<Control>, swept: seq<Key>, key: Key)
    ensures Survivors(s, holders, swept + [key])
         == if Dead(s, holders, key) then Survivors(s, holders, swept) - {key} else Survivors(s, holders, swept)
  {
  }

  method Clean(s: Shard, holders: multiset<Control>, budget: nat) returns (r: Shard, count: nat)
    requires ShardOk(s)
    ensures count == Min(budget, |s.sweep|) && r == Swept(s, holders, count)
  {
    count := Min(budget, |s.sweep|);
    r := s;
    SweptNone(s, holders);
    var n := 0;
    while n < count
      invariant n <= count && r == Swept(s, holders, n)
    {
      SweptNext(s, holders, n);
      var key := r.sweep[0];
      r := r.(sweep := r.sweep[1..]);
      if key in r.entries && !(r.entries[key] in holders || r.entries[key] in Recent(r)) {
        r := r.(entries := r.entries - {key});
      } else if key in r.entries {
        r := r.(sweep := r.sweep + [key]);
      }
      n := n + 1;
    }
  }

  lemma SweptNone(s: Shard, holders: multiset<Control>)
    ensures Swept(s, holders, 0) == s
  {
    assert Survivors(s, holders, s.sweep[..0]) == s.entries;
    assert s.sweep[0..] + [] == s.sweep;
  }

  /** One more key of the queue: its dead slot goes, or the key goes to the back. */
  lemma SweptNext(s: Shard, holders: multiset<Control>, n: nat)
    requires ShardOk(s) && n < |s.sweep|
    ensures var key := s.sweep[n]; var r := Swept(s, holders, n);
      && r.sweep != [] && r.sweep[0] == key && key in r.entries && r.entries[key] == s.entries[key]
      && Swept(s, holders, n + 1)
         == if Dead(s, holders, key) then Shard(r.entries - {key}, r.sweep[1..], s.controls)
            else Shard(r.entries, r.sweep[1..] + [key], s.controls)
  {
    var key := s.sweep[n];
    var r := Swept(s, holders, n);
    assert key in s.sweep && key !in s.sweep[..n];
    assert s.sweep[..n + 1] == s.sweep[..n] + [key];
    SurvivorsNext(s, holders, s.sweep[..n], key);
    QueueNext(s, holders, n);
  }

  lemma QueueNext(s: Shard, holders: multiset<Control>, n: nat)
    requires n < |s.sweep| && s.sweep[n] in s.entries
    ensures var queue := s.sweep[n..] + Kept(s, holders, n); var key := s.sweep[n];
      && queue[0] == key
      && s.sweep[n + 1..] + Kept(s, holders, n + 1) == if Dead(s, holders, key) then queue[1..] else queue[1..] + [key]
  {
    var queue := s.sweep[n..] + Kept(s, holders, n);
    assert s.sweep[n..][1..] == s.sweep[n + 1..];
    assert queue[1..] == s.sweep[n + 1..] + Kept(s, holders, n);
  }

  lemma {:induction false} KeptIsDistinct(s: Shard, holders: multiset<Control>, n: nat)
    requires n <= |s.sweep| && NoDuplicates(s.sweep)
    ensures NoDuplicates(Kept(s, holders, n))
    decreases n
  {
    if n > 0 {
      KeptIsDistinct(s, holders, n - 1);
      assert s.sweep[n - 1] !in s.sweep[..n - 1];
    }
  }

  /** Sweeping keeps every slot whose control is alive, and the queue stays exact. */
  lemma SweepKeepsLive(s: Shard, holders: multiset<Control>, n: nat)
    requires ShardOk(s) && n <= |s.sweep|
    ensures ShardOk(Swept(s, holders, n))
    ensures forall k | k in s.entries && Alive(s, holders, s.entries[k]) ::
              k in Swept(s, holders, n).entries && Swept(s, holders, n).entries[k] == s.entries[k]
  {
    var r := Swept(s, holders, n);
    KeptIsDistinct(s, holders, n);
    assert s.sweep == s.sweep[..n] + s.sweep[n..];
    forall i, j | 0 <= i < j < |r.sweep| ensures r.sweep[i] != r.sweep[j] {
      if i < |s.sweep| - n <= j {
        assert r.sweep[j] in Kept(s, holders, n);
        assert r.sweep[j] in s.sweep[..n] && r.sweep[i] == s.sweep[n + i];
      }
    }
  }

  // ---- The pool --------------------------------------------------------------------------------

  /** Entering the pool may push the oldest control out. */
  function Retain(r: Retention, c: Control): Retention {
    if r.Weak? then r
    else if |r.recent| == RETAINED then Reuse(r.recent[1..] + [c])
    else Reuse(r.recent + [c])
  }

  /** The controls of the list that someone outside the pool holds, in order. */
  function Held(controls: seq<Control>, holders: multiset<Control>): (r: seq<Control>)
    ensures forall c :: c in r <==> c in controls && c in holders
    ensures |r| <= |controls|
  {
    if controls == [] then []
    else
      var last := controls[|controls| - 1];
      assert controls == controls[..|controls| - 1] + [last];
      Held(controls[..|controls| - 1], holders) + if last in holders then [last] else []
  }

  lemma {:induction false} HeldIsDistinct(controls: seq<Control>, holders: multiset<Control>)
    requires NoDuplicates(controls)
    ensures NoDuplicates(Held(controls, holders))
    decreases |controls|
  {
    if controls != [] {
      HeldIsDistinct(controls[..|controls| - 1], holders);
    }
  }

  /** What is left after looking at the `n` oldest: the others, then those of them that are
      held; a control that only the pool owns is gone. */
  function Remaining(recent: seq<Control>, holders: multiset<Control>, n: nat): seq<Control>
    requires n <= |recent|
  {
    recent[n..] + Held(recent[..n], holders)
  }

  lemma KeptIsPart(recent: seq<Control>, holders: multiset<Control>, n: nat)
    requires n <= |recent| && NoDuplicates(recent)
    ensures var kept := Remaining(recent, holders, n);
      && NoDuplicates(kept) && |kept| <= |recent|
      && (forall c | c in kept :: c in recent) && (forall c | c in recent && c in holders :: c in kept)
      && (forall c | c in recent[..n] && c !in holders :: c !in kept)
  {
    HeldIsDistinct(recent[..n], holders);
    assert recent == recent[..n] + recent[n..];
    var kept := Remaining(recent, holders, n);
    forall i, j | 0 <= i < j < |kept| ensures kept[i] != kept[j] {
      if i < |recent| - n <= j {
        assert kept[j] in Held(recent[..n], holders);
        assert kept[j] in recent[..n] && kept[i] == recent[n + i];
      }
    }
    forall c | c in recent[..n] && c !in holders ensures c !in recent[n..] {
    }
  }

  /** Dropping idle controls: those that only the pool owns, among the `budget` oldest. */
  method CleanIdle(r: Retention, holders: multiset<Control>, budget: nat) returns (q: Retention)
    requires r.Reuse? ==> NoDuplicates(r.recent)
    ensures q == if r.Weak? then Weak else Reuse(Remaining(r.recent, holders, Min(budget, |r.recent|)))
    ensures r.Reuse? ==> |q.recent| <= |r.recent| && NoDuplicates(q.recent) && forall c | c in q.recent :: c in r.recent
    ensures r.Reuse? ==> forall c | c in r.recent && c in holders :: c in q.recent
    ensures r.Reuse? && budget >= |r.recent| ==> forall c | c in q.recent :: c in holders
  {
    q := r;
    if r.Reuse? {
      var n, rounds := 0, Min(budget, |r.recent|);
      assert r.recent[0..] + Held(r.recent[..0], holders) == r.recent;
      while n < rounds
        invariant n <= rounds && q == Reuse(Remaining(r.recent, holders, n))
      {
        KeptNext(r.recent, holders, n);
        var control := q.recent[0];
        var rest := q.recent[1..];
        q := Reuse(if control in holders then rest + [control] else rest);
        n := n + 1;
      }
      KeptIsPart(r.recent, holders, rounds);
      assert r.recent[..|r.recent|] == r.recent;
    }
  }

  lemma KeptNext(recent: seq<Control>, holders: multiset<Control>, n: nat)
    requires n < |recent|
    ensures var kept := Remaining(recent, holders, n);
      && kept != [] && kept[0] == recent[n]
      && Remaining(recent, holders, n + 1) == if recent[n] in holders then kept[1..] + [recent[n]] else kept[1..]
  {
    var kept := Remaining(recent, holders, n);
    assert recent[..n + 1][..n] == recent[..n] && recent[..n + 1][n] == recent[n];
    assert kept[1..] == recent[n + 1..] + Held(recent[..n], holders);
    assert Held(recent[..n + 1], holders) == Held(recent[..n], holders) + if recent[n] in holders then [recent[n]] else [];
    if recent[n] in holders {
      assert Remaining(recent, holders, n + 1) == kept[1..] + [recent[n]];
    } else {
      assert Remaining(recent, holders, n + 1) == kept[1..];
    }
  }

  // ---- All shards ---------------------------------------------------------------------------------

  /** `made` remembers which key each control was created for. */
  datatype Pool = Pool(shards: seq<Shard>, holders: multiset<Control>, made: map<Control, Key>)

  function Home(hash: Key -> nat, k: Key): nat { hash(k) % SHARDS }

  /** The control is the one its key's slot leads to. */
  ghost predicate Current(hash: Key -> nat, p: Pool, c: Control)
    requires |p.shards| == SHARDS
  {
    c in p.made && var s := p.shards[Home(hash, p.made[c])];
    p.made[c] in s.entries && s.entries[p.made[c]] == c
  }

  ghost predicate SlotsOk(hash: Key -> nat, p: Pool, i: nat)
    requires i < |p.shards| == SHARDS
  {
    var s := p.shards[i];
    && ShardOk(s) && NoDuplicates(Recent(s))
    && (forall k | k in s.entries :: Home(hash, k) == i && s.entries[k] in p.made && p.made[s.entries[k]] == k)
    && (forall c | c in Recent(s) :: Current(hash, p, c) && Home(hash, p.made[c]) == i)
  }

  /** Every living control is the current one of its key. */
  ghost predicate Ok(hash: Key -> nat, p: Pool) {
    && |p.shards| == SHARDS
    && (forall i | 0 <= i < SHARDS :: SlotsOk(hash, p, i))
    && (forall c | c in p.holders :: Current(hash, p, c))
  }

  /** One shard changes, keeps its slots among the old ones, and loses no living control. */
  lemma ShardMoves(hash: Key -> nat, p: Pool, i: nat, s: Shard)
    requires Ok(hash, p) && i < SHARDS && ShardOk(s) && NoDuplicates(Recent(s))
    requires forall k | k in s.entries :: k in p.shards[i].entries && s.entries[k] == p.shards[i].entries[k]
    requires forall c | c in Recent(s) :: c in Recent(p.shards[i])
    requires forall k | k in p.shards[i].entries && (p.shards[i].entries[k] in p.holders || p.shards[i].entries[k] in Recent(s)) ::
               k in s.entries
    ensures Ok(hash, p.(shards := p.shards[i := s]))
  {
    var q := p.(shards := p.shards[i := s]);
    assert SlotsOk(hash, p, i);
    forall c | c in p.made && Current(hash, p, c) && (c in p.holders || c in Recent(s) || Home(hash, p.made[c]) != i)
      ensures Current(hash, q, c)
    {
    }
    forall j | 0 <= j < SHARDS ensures SlotsOk(hash, q, j) {
      assert SlotsOk(hash, p, j);
    }
  }

  lemma SweepMoves(hash: Key -> nat, p: Pool, i: nat, n: nat)
    requires Ok(hash, p) && i < SHARDS && n <= |p.shards[i].sweep|
    ensures Ok(hash, p.(shards := p.shards[i := Swept(p.shards[i], p.holders, n)]))
  {
    assert SlotsOk(hash, p, i);
    SweepKeepsLive(p.shards[i], p.holders, n);
    ShardMoves(hash, p, i, Swept(p.shards[i], p.holders, n));
  }

  /** A fresh control takes over its key's slot, whose previous control is dead. */
  function Created(s: Shard, k: Key, c: Control): Shard {
    Shard(s.entries[k := c], if k in s.entries then s.sweep else s.sweep + [k], Retain(s.controls, c))
  }

  lemma EntersPool(s: Shard, k: Key, c: Control)
    ensures s.controls.Reuse? ==> c in Recent(Created(s, k, c))
  {
    if s.controls.Reuse? {
      var recent := Recent(Created(s, k, c));
      assert recent[|recent| - 1] == c;
    }
  }

  lemma CreatedOk(s: Shard, k: Key, c: Control)
    requires ShardOk(s) && NoDuplicates(Recent(s)) && c !in Recent(s)
    ensures var t := Created(s, k, c);
      && ShardOk(t) && NoDuplicates(Recent(t)) && k in t.entries && t.entries[k] == c
      && (forall d | d in Recent(t) :: d == c || d in Recent(s))
  {
    assert k !in s.entries ==> k !in s.sweep;
  }

  lemma CreateMoves(hash: Key -> nat, p: Pool, k: Key, c: Control)
    requires Ok(hash, p) && c !in p.made
    requires var s := p.shards[Home(hash, k)];
      k in s.entries ==> !Alive(s, p.holders, s.entries[k])
    ensures var i := Home(hash, k);
      Ok(hash, Pool(p.shards[i := Created(p.shards[i], k, c)], p.holders + multiset{c}, p.made[c := k]))
  {
    var i := Home(hash, k);
    var s := p.shards[i];
    var q := Pool(p.shards[i := Created(s, k, c)], p.holders + multiset{c}, p.made[c := k]);
    assert SlotsOk(hash, p, i);
    assert c !in Recent(s);
    CreatedOk(s, k, c);
    forall d | d in p.made && Current(hash, p, d) && (d in p.holders || d in Recent(s) || Home(hash, p.made[d]) != i)
      ensures Current(hash, q, d)
    {
      assert d != c;
    }
    forall d | d in q.holders ensures Current(hash, q, d) {
      assert d == c || d in p.holders;
    }
    forall j | 0 <= j < SHARDS ensures SlotsOk(hash, q, j) {
      CreateShard(hash, p, q, k, c, j);
    }
  }

  lemma CreateShard(hash: Key -> nat, p: Pool, q: Pool, k: Key, c: Control, j: nat)
    requires Ok(hash, p) && c !in p.made && j < SHARDS
    requires var i := Home(hash, k); q == Pool(p.shards[i := Created(p.shards[i], k, c)], p.holders + multiset{c}, p.made[c := k])
    requires forall d | d in p.made && Current(hash, p, d) && (d in Recent(p.shards[Home(hash, k)]) || Home(hash, p.made[d]) != Home(hash, k)) ::
               Current(hash, q, d)
    ensures SlotsOk(hash, q, j)
  {
    assert SlotsOk(hash, p, j);
    var s, t := p.shards[j], q.shards[j];
    if j == Home(hash, k) {
      assert c !in Recent(s);
      CreatedOk(s, k, c);
      forall d | d in Recent(t) ensures Current(hash, q, d) && Home(hash, q.made[d]) == j {
        assert d == c || d in Recent(s);
      }
    } else {
      forall x | x in t.entries ensures Home(hash, x) == j && t.entries[x] in q.made && q.made[t.entries[x]] == x {
        assert t.entries[x] != c;
      }
    }
  }

  predicate NoDeadSlot(s: Shard, holders: multiset<Control>) {
    forall k | k in s.entries :: Alive(s, holders, s.entries[k])
  }

  /** Sweeping the whole queue leaves no dead slot. */
  lemma FullSweepClears(s: Shard, holders: multiset<Control>)
    requires ShardOk(s)
    ensures NoDeadSlot(Swept(s, holders, |s.sweep|), holders)
  {
    assert s.sweep[..|s.sweep|] == s.sweep;
  }

  /** The shards a pass from `start` has visited after `offset` rounds. */
  predicate Visited(start: nat, offset: nat, i: nat)
    requires i < SHARDS && start < SHARDS
  {
    if i >= start then i - start < offset else i + SHARDS - start < offset
  }

  // ---- The slots as a mutable object -----------------------------------------------------------------

  class WeakSlots {
    const hash: Key -> nat
    var maintenance: nat
    var pool: Pool
    var next: Control

    ghost predicate Valid()
      reads this
    {
      Ok(hash, pool) && forall c | c in pool.made :: c < next
    }

    constructor (hash: Key -> nat, reuse: bool)
      ensures Valid() && pool.holders == multiset{} && this.hash == hash
    {
      this.hash := hash;
      maintenance, next := 0, 0;
      var shard := Shard(map[], [], if reuse then Reuse([]) else Weak);
      pool := Pool(seq(SHARDS, _ => shard), multiset{}, map[]);
    }

    /** While any holder or waiter keeps the key's control alive, every lookup returns that
        same control. Otherwise it returns the pooled one or one never used before. */
    method Lookup(key: Key) returns (c: Control)
      requires Valid()
      modifies this
      ensures Valid() && pool.holders == old(pool.holders) + multiset{c}
      ensures c in pool.made && pool.made[c] == key
      ensures forall d | d in old(pool.holders) && old(pool.made)[d] == key :: c == d
      ensures c !in old(pool.made) ==> pool.made == old(pool.made)[c := key]
      ensures c !in old(pool.made) && old(pool.shards)[Home(hash, key)].controls.Reuse? ==> c in Recent(pool.shards[Home(hash, key)])
      ensures c !in old(pool.made) ==> forall i | 0 <= i < SHARDS && i != Home(hash, key) :: pool.shards[i] == old(pool.shards)[i]
      ensures c in old(pool.made) ==> Alive(old(pool.shards)[Home(hash, key)], old(pool.holders), c)
      ensures c in old(pool.made) ==> pool == old(pool).(holders := old(pool.holders) + multiset{c})
    {
      var i := Home(hash, key);
      assert SlotsOk(hash, pool, i);
      var shard := pool.shards[i];
      if key in shard.entries && Alive(shard, pool.holders, shard.entries[key]) {
        c := shard.entries[key];
        HolderJoins(hash, pool, c);
        pool := pool.(holders := pool.holders + multiset{c});
        return;
      }
      assert forall d | d in pool.holders :: Current(hash, pool, d);
      c := MakeSlot(key);
    }

    /** A new control for a key whose slot is free or dead, after some sweeping. */
    method MakeSlot(key: Key) returns (c: Control)
      requires Valid()
      requires var s := pool.shards[Home(hash, key)];
        key in s.entries ==> !Alive(s, pool.holders, s.entries[key])
      modifies this
      ensures Valid() && c == old(next) && c !in old(pool.made)
      ensures pool.holders == old(pool.holders) + multiset{c} && pool.made == old(pool.made)[c := key]
      ensures old(pool.shards)[Home(hash, key)].controls.Reuse? ==> c in Recent(pool.shards[Home(hash, key)])
      ensures forall i | 0 <= i < SHARDS && i != Home(hash, key) :: pool.shards[i] == old(pool.shards)[i]
    {
      var i := Home(hash, key);
      assert SlotsOk(hash, pool, i);
      var shard := pool.shards[i];
      var swept, _ := Clean(shard, pool.holders, 4);
      SweepMoves(hash, pool, i, Min(4, |shard.sweep|));
      c := next;
      next := next + 1;
      CreateMoves(hash, pool.(shards := pool.shards[i := swept]), key, c);
      EntersPool(swept, key, c);
      assert pool.shards[i := swept][i := Created(swept, key, c)] == pool.shards[i := Created(swept, key, c)];
      pool := Pool(pool.shards[i := Created(swept, key, c)], pool.holders + multiset{c}, pool.made[c := key]);
    }

    /** A holder or waiter lets go; slots stay as they are until swept. */
    method Drop(c: Control)
      requires Valid() && c in pool.holders
      modifies this
      ensures Valid() && pool == old(pool).(holders := old(pool.holders) - multiset{c})
    {
      HolderLeaves(hash, pool, c);
      pool := pool.(holders := pool.holders - multiset{c});
    }

    /** A maintenance pass over the shards that are not busy sweeps at most `budget` slots
        in all and touches no living control. */
    method CleanAll(budget: nat, busy: set<nat>) returns (swept: nat)
      requires Valid()
      modifies this
      ensures Valid() && swept <= budget
      ensures pool.holders == old(pool.holders) && pool.made == old(pool.made)
      ensures forall i | 0 <= i < SHARDS && i in busy :: pool.shards[i] == old(pool.shards)[i]
      ensures swept < budget ==> forall i | 0 <= i < SHARDS && i !in busy :: NoDeadSlot(pool.shards[i], pool.holders)
    {
      var start := maintenance % SHARDS;
      maintenance := maintenance + 1;
      swept := 0;
      var offset := 0;
      while offset < SHARDS && swept < budget
        invariant offset <= SHARDS && swept <= budget && start < SHARDS
        invariant Valid() && pool.holders == old(pool.holders) && pool.made == old(pool.made)
        invariant forall i | 0 <= i < SHARDS && i in busy :: pool.shards[i] == old(pool.shards)[i]
        invariant swept < budget ==> forall i | 0 <= i < SHARDS && i !in busy && Visited(start, offset, i) :: NoDeadSlot(pool.shards[i], pool.holders)
      {
        var i := (start + offset) % SHARDS;
        assert forall j | 0 <= j < SHARDS && Visited(start, offset + 1, j) :: Visited(start, offset, j) || j == i;
        if i !in busy {
          var count := CleanShard(i, budget - swept);
          swept := swept + count;
        }
        offset := offset + 1;
      }
    }

    method CleanShard(i: nat, budget: nat) returns (count: nat)
      requires Valid() && i < SHARDS
      modifies this
      ensures Valid() && count <= budget && maintenance == old(maintenance)
      ensures pool.holders == old(pool.holders) && pool.made == old(pool.made)
      ensures forall j | 0 <= j < SHARDS && j != i :: pool.shards[j] == old(pool.shards)[j]
      ensures count < budget ==> NoDeadSlot(pool.shards[i], pool.holders)
    {
      var shard := pool.shards[i];
      assert SlotsOk(hash, pool, i);
      var controls := CleanIdle(shard.controls, pool.holders, budget);
      var idle := shard.(controls := controls);
      ShardMoves(hash, pool, i, idle);
      var p := pool.(shards := pool.shards[i := idle]);
      assert SlotsOk(hash, p, i);
      var after;
      after, count := Clean(idle, pool.holders, budget);
      SweepMoves(hash, p, i, count);
      if count < budget {
        FullSweepClears(idle, pool.holders);
      }
      assert p.shards[i := after] == pool.shards[i := after];
      pool := pool.(shards := pool.shards[i := after]);
    }
  }

  lemma HolderJoins(hash: Key -> nat, p: Pool, c: Control)
    requires Ok(hash, p) && Current(hash, p, c)
    ensures Ok(hash, p.(holders := p.holders + multiset{c}))
  {
    var q := p.(holders := p.holders + multiset{c});
    forall i | 0 <= i < SHARDS ensures SlotsOk(hash, q, i) {
      SlotsFrame(hash, p, q, i);
    }
    assert forall d | d in q.holders :: d == c || d in p.holders;
    assert forall d | Current(hash, p, d) :: Current(hash, q, d);
  }

  lemma HolderLeaves(hash: Key -> nat, p: Pool, c: Control)
    requires Ok(hash, p) && c in p.holders
    ensures Ok(hash, p.(holders := p.holders - multiset{c}))
  {
    var q := p.(holders := p.holders - multiset{c});
    forall i | 0 <= i < SHARDS ensures SlotsOk(hash, q, i) {
      SlotsFrame(hash, p, q, i);
    }
    assert forall d | d in q.holders :: d in p.holders;
    assert forall d | Current(hash, p, d) :: Current(hash, q, d);
  }

  /** Shards do not depend on who holds what. */
  lemma SlotsFrame(hash: Key -> nat, p: Pool, q: Pool, i: nat)
    requires |p.shards| == SHARDS && i < SHARDS && q.shards == p.shards && q.made == p.made && SlotsOk(hash, p, i)
    ensures SlotsOk(hash, q, i)
  {
    assert forall d | Current(hash, p, d) :: Current(hash, q, d);
  }
}
