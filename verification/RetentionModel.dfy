/** Values and eviction order of the capacity-bounded L1 store (src/memory.rs). */
module RetentionModel {
  import opened Prelude

  type Key = string

  datatype Priority = Low | Normal | High | NeverRemove

  function Rank(p: Priority): nat {
    match p case Low => 0 case Normal => 1 case High => 2 case NeverRemove => 3
  }

  /** `instance` is the identity of the shared representation; `stamp` the continuity
      epoch an L2 hydration is bound to. */
  datatype Entry = Entry(instance: nat, size: Option<nat>, priority: Priority, physical: int, ttl: nat, stamp: Option<nat>)

  datatype Stored = Stored(entry: Entry, access: nat, deadline: Option<int>, armed: bool)

  type Entries = map<Key, Stored>

  /** What one operation observes of its clocks and of the continuity epoch. */
  datatype Observed = Observed(now: Option<int>, instant: int, epoch: nat)

  datatype Reason = Explicit | Replaced | Expired | Capacity | Eligibility | Metadata

  datatype Retirement = Retirement(key: Key, entry: Entry, reason: Reason, armed: bool)

  function RetirementReason(stored: Stored, o: Observed): Option<Reason> {
    if stored.entry.stamp.Some? && stored.entry.stamp.value != o.epoch then Some(Eligibility)
    else if (o.now.Some? && o.now.value >= stored.entry.physical)
            || (stored.deadline.Some? && o.instant >= stored.deadline.value) then Some(Expired)
    else None
  }

  predicate Dead(stored: Stored, o: Observed) { RetirementReason(stored, o).Some? }

  function Weight(e: Entry): nat { if e.size.Some? then e.size.value else 1 }

  // ---- Limits ------------------------------------------------------------------

  datatype Limits = Limits(entries: Option<nat>, weight: Option<nat>)

  datatype Usage = Usage(entries: int, weight: int)

  predicate Fits(limits: Limits, u: Usage) {
    && (limits.entries.Some? ==> u.entries <= limits.entries.value)
    && (limits.weight.Some? ==> u.weight <= limits.weight.value)
  }

  /** The sum of the stored weights. */
  ghost function TotalWeight(m: Entries): nat
    decreases |m|
  {
    if m == map[] then 0
    else var k :| k in m; Weight(m[k].entry) + TotalWeight(m - {k})
  }

  lemma {:induction false} TotalWeightSplit(m: Entries, k: Key)
    requires k in m
    ensures TotalWeight(m) == Weight(m[k].entry) + TotalWeight(m - {k})
    decreases |m|
  {
    var first :| first in m && TotalWeight(m) == Weight(m[first].entry) + TotalWeight(m - {first});
    if first != k {
      TotalWeightSplit(m - {first}, k);
      TotalWeightSplit(m - {k}, first);
      assert m - {first} - {k} == m - {k} - {first};
    }
  }

  lemma TotalWeightInsert(m: Entries, k: Key, stored: Stored)
    requires k !in m
    ensures TotalWeight(m[k := stored]) == TotalWeight(m) + Weight(stored.entry)
  {
    TotalWeightSplit(m[k := stored], k);
    assert m[k := stored] - {k} == m;
  }

  function StoredWeight(m: Entries, k: Key): nat { if k in m then Weight(m[k].entry) else 0 }

  /** What `insert` would use if `key` held a candidate of weight `w`. */
  function Projection(m: Entries, weight: int, key: Key, w: nat): Usage {
    Usage(|m| + (if key in m then 0 else 1), weight - StoredWeight(m, key) + w)
  }

  function WeightOf(m: Entries, keys: seq<Key>): nat {
    if keys == [] then 0 else WeightOf(m, keys[..|keys| - 1]) + StoredWeight(m, keys[|keys| - 1])
  }

  /** The usage left after evicting `victims`. */
  function Without(u: Usage, m: Entries, victims: seq<Key>): Usage {
    Usage(u.entries - |victims|, u.weight - WeightOf(m, victims))
  }

  /** Distinct stored keys weigh no more together than the whole, nor are they more. */
  lemma {:induction false} PartWeighsLess(m: Entries, keys: seq<Key>)
    requires (forall i, j | 0 <= i < j < |keys| :: keys[i] != keys[j]) && forall i | 0 <= i < |keys| :: keys[i] in m
    ensures WeightOf(m, keys) <= TotalWeight(m) && |keys| <= |m|
    decreases |keys|
  {
    if keys != [] {
      var n := |keys| - 1;
      var k, init := keys[n], keys[..n];
      TotalWeightSplit(m, k);
      assert forall i | 0 <= i < n :: init[i] in m - {k};
      WeightOfRest(m, init, k);
      PartWeighsLess(m - {k}, init);
    }
  }

  lemma {:induction false} WeightOfRest(m: Entries, keys: seq<Key>, k: Key)
    requires forall i | 0 <= i < |keys| :: keys[i] != k
    ensures WeightOf(m - {k}, keys) == WeightOf(m, keys)
    decreases |keys|
  {
    if keys != [] {
      WeightOfRest(m, keys[..|keys| - 1], k);
    }
  }

  /** No subtraction of a projection, or of the victims of any prefix of the eviction order
      from it, goes below zero. */
  lemma NothingUnderflows(m: Entries, key: Key, w: nat, victims: seq<Key>)
    requires (forall i, j | 0 <= i < j < |victims| :: victims[i] != victims[j])
    requires forall i | 0 <= i < |victims| :: victims[i] in m && victims[i] != key
    ensures StoredWeight(m, key) <= TotalWeight(m)
    ensures var left := Without(Projection(m, TotalWeight(m), key, w), m, victims);
      left.entries >= 0 && left.weight >= 0
  {
    if key in m {
      TotalWeightSplit(m, key);
      assert forall i | 0 <= i < |victims| :: victims[i] in m - {key};
      WeightOfRest(m, victims, key);
      PartWeighsLess(m - {key}, victims);
    } else {
      PartWeighsLess(m, victims);
    }
  }

  /** Evicting more never makes a fitting usage unfit. */
  lemma {:induction false} FitsMonotone(limits: Limits, u: Usage, m: Entries, order: seq<Key>, n: nat)
    requires n <= |order|
    requires Fits(limits, Without(u, m, order[..n]))
    ensures Fits(limits, Without(u, m, order))
    decreases |order| - n
  {
    if n == |order| {
      assert order[..n] == order;
    } else {
      assert order[..n + 1][..n] == order[..n];
      FitsMonotone(limits, u, m, order, n + 1);
    }
  }

  // ---- Eviction order ------------------------------------------------------------

  predicate KeyLess(a: Key, b: Key)
    decreases |a|
  {
    b != [] && (a == [] || a[0] < b[0] || (a[0] == b[0] && KeyLess(a[1..], b[1..])))
  }

  lemma {:induction false} KeyLessTotal(a: Key, b: Key)
    ensures a != b ==> KeyLess(a, b) || KeyLess(b, a)
    ensures !(KeyLess(a, b) && KeyLess(b, a))
    decreases |a|
  {
    if a != [] && b != [] && a[0] == b[0] {
      KeyLessTotal(a[1..], b[1..]);
      assert a == [a[0]] + a[1..] && b == [b[0]] + b[1..];
    }
  }

  lemma {:induction false} KeyLessTransitive(a: Key, b: Key, c: Key)
    requires KeyLess(a, b) && KeyLess(b, c)
    ensures KeyLess(a, c)
    decreases |a|
  {
    if a != [] && a[0] == b[0] == c[0] {
      KeyLessTransitive(a[1..], b[1..], c[1..]);
    }
  }

  /** The order in which entries are sacrificed: rank, then recency, then key. */
  predicate Before(m: Entries, a: Key, b: Key)
    requires a in m && b in m
  {
    var ra, rb := Rank(m[a].entry.priority), Rank(m[b].entry.priority);
    ra < rb || (ra == rb && (m[a].access < m[b].access || (m[a].access == m[b].access && KeyLess(a, b))))
  }

  /** `Before` is a strict total order. */
  lemma BeforeIsStrictOrder(m: Entries, a: Key, b: Key, c: Key)
    requires a in m && b in m && c in m
    ensures a != b <==> Before(m, a, b) || Before(m, b, a)
    ensures !(Before(m, a, b) && Before(m, b, a))
    ensures Before(m, a, b) && Before(m, b, c) ==> Before(m, a, c)
  {
    KeyLessTotal(a, b);
    if KeyLess(a, b) && KeyLess(b, c) {
      KeyLessTransitive(a, b, c);
    }
  }

  /** Entries a candidate may evict: not its own key, not pinned, not of higher rank. */
  function Eligible(m: Entries, key: Key, priority: Priority): set<Key> {
    set k | k in m && k != key && m[k].entry.priority != NeverRemove && Rank(m[k].entry.priority) <= Rank(priority)
  }

  /** Which priorities a candidate may push out. */
  predicate MayEvict(candidate: Priority, stored: Priority) {
    match candidate
    case Low => stored.Low?
    case Normal => stored.Low? || stored.Normal?
    case _ => !stored.NeverRemove?
  }

  lemma EligibleExactly(m: Entries, key: Key, priority: Priority, k: Key)
    ensures k in Eligible(m, key, priority) <==> k in m && k != key && MayEvict(priority, m[k].entry.priority)
  {
  }

  /** Alphabetical order: a common beginning, then the end of `a` or a smaller character. */
  ghost predicate Alphabetical(a: Key, b: Key) {
    exists n: nat | n <= |a| && n <= |b| :: AlphabeticalAt(a, b, n)
  }

  predicate AlphabeticalAt(a: Key, b: Key, n: nat)
    requires n <= |a| && n <= |b|
  {
    a[..n] == b[..n] && ((n == |a| && n < |b|) || (n < |a| && n < |b| && a[n] < b[n]))
  }

  lemma {:induction false} KeyLessIsAlphabetical(a: Key, b: Key)
    requires KeyLess(a, b)
    ensures Alphabetical(a, b)
    decreases |a|
  {
    if a == [] || a[0] < b[0] {
      assert AlphabeticalAt(a, b, 0);
    } else {
      KeyLessIsAlphabetical(a[1..], b[1..]);
      var n: nat :| n <= |a[1..]| && n <= |b[1..]| && AlphabeticalAt(a[1..], b[1..], n);
      assert a[..n + 1] == [a[0]] + a[1..][..n] && b[..n + 1] == [b[0]] + b[1..][..n];
      assert AlphabeticalAt(a, b, n + 1);
    }
  }

  /** `a` is to be given up before `b`: it has the lower priority, or the same and was used
      less recently, or both were used at once and its key comes first. */
  ghost predicate LessWorthy(m: Entries, a: Key, b: Key)
    requires a in m && b in m
  {
    var p, q := m[a].entry.priority, m[b].entry.priority;
    || (p.Low? && !q.Low?)
    || (p.Normal? && (q.High? || q.NeverRemove?))
    || (p.High? && q.NeverRemove?)
    || (p == q && m[a].access < m[b].access)
    || (p == q && m[a].access == m[b].access && Alphabetical(a, b))
  }

  lemma BeforeIsLessWorthy(m: Entries, a: Key, b: Key)
    requires a in m && b in m && Before(m, a, b)
    ensures LessWorthy(m, a, b)
  {
    if KeyLess(a, b) {
      KeyLessIsAlphabetical(a, b);
    }
  }

  lemma FirstExists(m: Entries, keys: set<Key>)
    requires keys != {} && keys <= m.Keys
    ensures exists k :: k in keys && forall j | j in keys && j != k :: Before(m, k, j)
  {
    var x :| x in keys;
    var first := FirstAmong(m, keys, keys, x);
    assert forall j | j in keys && j != first :: Before(m, first, j);
  }

  /** The first of `x` and `candidates`. */
  lemma {:induction false} FirstAmong(m: Entries, keys: set<Key>, candidates: set<Key>, x: Key) returns (first: Key)
    requires candidates <= keys <= m.Keys && x in keys
    ensures first in keys && (first == x || Before(m, first, x))
    ensures forall j | j in candidates && j != first :: Before(m, first, j)
    decreases candidates
  {
    if y :| y in candidates {
      var nearer := if y != x && Before(m, y, x) then y else x;
      first := FirstAmong(m, keys, candidates - {y}, nearer);
      BeforeIsStrictOrder(m, x, y, x);
      BeforeIsStrictOrder(m, first, nearer, x);
      BeforeIsStrictOrder(m, first, nearer, y);
      forall j | j in candidates && j != first ensures Before(m, first, j) {
        assert j == y || j in candidates - {y};
      }
    } else {
      first := x;
    }
  }

  function First(m: Entries, keys: set<Key>): (first: Key)
    requires keys != {} && keys <= m.Keys
    ensures first in keys && forall j | j in keys && j != first :: Before(m, first, j)
  {
    FirstExists(m, keys);
    assert forall a, b | a in keys && b in keys && a != b :: !(Before(m, a, b) && Before(m, b, a)) by {
      forall a, b | a in keys && b in keys && a != b ensures !(Before(m, a, b) && Before(m, b, a)) {
        BeforeIsStrictOrder(m, a, b, a);
      }
    }
    var k :| k in keys && forall j | j in keys && j != k :: Before(m, k, j);
    k
  }

  /** `keys` sorted by `Before`. */
  function VictimOrder(m: Entries, keys: set<Key>): (order: seq<Key>)
    requires keys <= m.Keys
    ensures forall k :: k in order <==> k in keys
    ensures |order| == |keys|
    decreases |keys|
  {
    if keys == {} then []
    else
      var first := First(m, keys);
      [first] + VictimOrder(m, keys - {first})
  }

  /** Sorted strictly, hence without repetition. */
  lemma {:induction false} VictimOrderSorted(m: Entries, keys: set<Key>, i: nat, j: nat)
    requires keys <= m.Keys && i < j < |VictimOrder(m, keys)|
    ensures var order := VictimOrder(m, keys); order[i] in m && order[j] in m && Before(m, order[i], order[j])
    decreases |keys|
  {
    var order := VictimOrder(m, keys);
    var first := First(m, keys);
    var rest := VictimOrder(m, keys - {first});
    assert order == [first] + rest;
    if i == 0 {
      assert order[j] == rest[j - 1] && rest[j - 1] in rest;
    } else {
      VictimOrderSorted(m, keys - {first}, i - 1, j - 1);
    }
  }

  // ---- Contents --------------------------------------------------------------------

  /** The stored representations, with multiplicity. */
  ghost function Contents(m: Entries): multiset<(Key, Entry)>
    decreases |m|
  {
    if m == map[] then multiset{}
    else var k :| k in m; Contents(m - {k}) + multiset{(k, m[k].entry)}
  }

  /** Each stored pair occurs exactly once. */
  lemma {:induction false} ContentsMultiplicity(m: Entries, k: Key, e: Entry)
    ensures Contents(m)[(k, e)] == if k in m && m[k].entry == e then 1 else 0
    decreases |m|
  {
    if m != map[] {
      var first :| first in m && Contents(m) == Contents(m - {first}) + multiset{(first, m[first].entry)};
      ContentsMultiplicity(m - {first}, k, e);
    }
  }

  lemma ContentsRemove(m: Entries, k: Key)
    requires k in m
    ensures Contents(m - {k}) + multiset{(k, m[k].entry)} == Contents(m)
  {
    forall p: (Key, Entry) ensures (Contents(m - {k}) + multiset{(k, m[k].entry)})[p] == Contents(m)[p] {
      ContentsMultiplicity(m, p.0, p.1);
      ContentsMultiplicity(m - {k}, p.0, p.1);
    }
  }

  lemma ContentsInsert(m: Entries, k: Key, stored: Stored)
    requires k !in m
    ensures Contents(m[k := stored]) == Contents(m) + multiset{(k, stored.entry)}
  {
    ContentsRemove(m[k := stored], k);
    assert m[k := stored] - {k} == m;
  }

  /** The representations handed to the retirement observers. */
  function Retired(rs: seq<Retirement>): multiset<(Key, Entry)> {
    if rs == [] then multiset{}
    else Retired(rs[..|rs| - 1]) + multiset{(rs[|rs| - 1].key, rs[|rs| - 1].entry)}
  }

  /** `rs` retires exactly the entries of `m` under `keys`, each once. */
  ghost predicate Retires(m: Entries, keys: set<Key>, rs: seq<Retirement>) {
    && |rs| == |keys|
    && (forall i | 0 <= i < |rs| :: rs[i].key in keys && rs[i].key in m && rs[i].entry == m[rs[i].key].entry)
    && (forall i, j | 0 <= i < j < |rs| :: rs[i].key != rs[j].key)
  }

  lemma RetiresOne(m: Entries, keys: set<Key>, rs: seq<Retirement>, r: Retirement)
    requires Retires(m, keys, rs) && r.key !in keys && r.key in m && r.entry == m[r.key].entry
    ensures Retires(m, keys + {r.key}, rs + [r])
  {
  }

  lemma {:induction false} RetiresBoth(m: Entries, keys: set<Key>, rs: seq<Retirement>, more: set<Key>, tail: seq<Retirement>)
    requires Retires(m, keys, rs) && keys !! more && Retires(m - keys, more, tail)
    ensures Retires(m, keys + more, rs + tail)
  {
    assert |keys + more| == |keys| + |more|;
  }

  lemma Regroup(a: multiset<(Key, Entry)>, b: multiset<(Key, Entry)>, c: multiset<(Key, Entry)>)
    ensures a + (b + c) == (a + c) + b
  {
  }

  lemma RetiresTail(m: Entries, keys: set<Key>, rs: seq<Retirement>)
    requires Retires(m, keys, rs) && rs != []
    ensures var r := rs[|rs| - 1];
      && Retires(m, keys - {r.key}, rs[..|rs| - 1])
      && r.key in m - (keys - {r.key}) && (m - (keys - {r.key}))[r.key].entry == r.entry
      && m - (keys - {r.key}) - {r.key} == m - keys
  {
  }

  /** Conservation: what is left plus what was retired is what was there. */
  lemma {:induction false} RetiresConserves(m: Entries, keys: set<Key>, rs: seq<Retirement>)
    requires Retires(m, keys, rs)
    ensures Contents(m - keys) + Retired(rs) == Contents(m)
    decreases |rs|
  {
    if rs == [] {
      assert m - keys == m;
    } else {
      var r, init := rs[|rs| - 1], rs[..|rs| - 1];
      RetiresTail(m, keys, rs);
      var rest := m - (keys - {r.key});
      calc {
        Contents(m - keys) + Retired(rs);
        Contents(m - keys) + (Retired(init) + multiset{(r.key, r.entry)});
        { Regroup(Contents(m - keys), Retired(init), multiset{(r.key, r.entry)}); }
        Contents(m - keys) + multiset{(r.key, r.entry)} + Retired(init);
        { ContentsRemove(rest, r.key); }
        Contents(rest) + Retired(init);
        { RetiresConserves(m, keys - {r.key}, init); }
        Contents(m);
      }
    }
  }
}
