/** Per-key commit lanes and the fences captured from them (src/commit.rs). */
module CommitLanes {
  import opened Prelude

  const MAX_GENERATION: nat := 0xFFFF_FFFF_FFFF_FFFF

  datatype Fence = Fence(generation: nat, capturedEpoch: nat)

  /** Checked increment: at the end of the sequence it refuses instead of wrapping. */
  function Bumped(counter: nat): nat { if counter < MAX_GENERATION then counter + 1 else counter }

  class KeyLane {
    var generation: nat
    var timestamp: Option<int>

    constructor ()
      ensures generation == 0 && timestamp.None?
    {
      generation, timestamp := 0, None;
    }

    method Snapshot(epoch: nat) returns (f: Fence)
      ensures f == Fence(generation, epoch)
    {
      f := Fence(generation, epoch);
    }

    /** Advances without wraparound; exhaustion changes nothing. */
    method AdvanceRevision() returns (advanced: Option<nat>)
      modifies this`generation
      ensures generation == Bumped(old(generation))
      ensures if old(generation) < MAX_GENERATION then advanced == Some(generation) else advanced.None?
    {
      if generation < MAX_GENERATION {
        generation := generation + 1;
        return Some(generation);
      }
      return None;
    }

    /** A new fence is newer than everything captured before, and the timestamp never falls. */
    method Advance(at: int, epoch: nat) returns (f: Option<Fence>)
      modifies this
      ensures f.Some? <==> old(generation) < MAX_GENERATION
      ensures generation == Bumped(old(generation))
      ensures f.Some? ==> f.value == Fence(generation, epoch)
      ensures timestamp == if f.None? then old(timestamp)
                           else Some(if old(timestamp).Some? then Max(old(timestamp).value, at) else at)
    {
      var next := AdvanceRevision();
      if next.None? {
        return None;
      }
      timestamp := Some(if timestamp.Some? then Max(timestamp.value, at) else at);
      f := Some(Fence(next.value, epoch));
    }
  }

  // ---- Any number of concurrent holders ----------------------------------------------------

  /** A holder captures in two loads: the generation, read or just advanced, then the epoch. */
  datatype Holder = Idle | Loaded(generation: nat) | Holding(fence: Fence)

  /** One lane and the cache's continuity epoch. */
  datatype State = State(generation: nat, epoch: nat, holders: seq<Holder>)

  datatype Event = LoadGeneration(h: nat) | Advance(h: nat) | LoadEpoch(h: nat) | BumpEpoch

  function Init(holders: nat): State { State(0, 0, seq(holders, _ => Idle)) }

  function Step(s: State, e: Event): State {
    match e
    case LoadGeneration(h) =>
      if h < |s.holders| then s.(holders := s.holders[h := Loaded(s.generation)]) else s
    case Advance(h) =>
      if h < |s.holders| && s.generation < MAX_GENERATION
      then State(Bumped(s.generation), s.epoch, s.holders[h := Loaded(Bumped(s.generation))]) else s
    case LoadEpoch(h) =>
      if h < |s.holders| && s.holders[h].Loaded?
      then s.(holders := s.holders[h := Holding(Fence(s.holders[h].generation, s.epoch))]) else s
    case BumpEpoch => s.(epoch := Bumped(s.epoch))
  }

  function Run(s: State, schedule: seq<Event>): State
    decreases |schedule|
  {
    if schedule == [] then s else Run(Step(s, schedule[0]), schedule[1..])
  }

  predicate IsCurrent(f: Fence, s: State) { s.generation == f.generation }

  predicate PassiveIsCurrent(f: Fence, s: State) { IsCurrent(f, s) && s.epoch == f.capturedEpoch }

  /** Nothing captured is ahead of the lane. */
  predicate HolderOk(s: State, holder: Holder) {
    && (holder.Loaded? ==> holder.generation <= s.generation)
    && (holder.Holding? ==> holder.fence.generation <= s.generation && holder.fence.capturedEpoch <= s.epoch)
  }

  predicate Inv(s: State) { forall h | 0 <= h < |s.holders| :: HolderOk(s, s.holders[h]) }

  lemma StepAdvances(s: State, e: Event)
    ensures s.generation <= Step(s, e).generation && s.epoch <= Step(s, e).epoch
    ensures Inv(s) ==> Inv(Step(s, e))
  {
    if Inv(s) {
      forall h | 0 <= h < |s.holders| ensures HolderOk(Step(s, e), Step(s, e).holders[h]) {
        assert HolderOk(s, s.holders[h]);
      }
    }
  }

  /** Generation and epoch never fall, in any schedule, because neither counter wraps. */
  lemma {:induction false} RunAdvances(s: State, schedule: seq<Event>)
    ensures s.generation <= Run(s, schedule).generation && s.epoch <= Run(s, schedule).epoch
    ensures Inv(s) ==> Inv(Run(s, schedule))
    decreases |schedule|
  {
    if schedule != [] {
      StepAdvances(s, schedule[0]);
      RunAdvances(Step(s, schedule[0]), schedule[1..]);
    }
  }

  /** A fence that any holder has captured in any schedule, and that is no longer current,
      never becomes current again whatever follows, actively or passively. */
  lemma FenceNeverRevives(holders: nat, before: seq<Event>, h: nat, after: seq<Event>)
    requires var s := Run(Init(holders), before);
      h < |s.holders| && s.holders[h].Holding?
    ensures var s := Run(Init(holders), before);
      var f, later := s.holders[h].fence, Run(s, after);
      && (!IsCurrent(f, s) ==> !IsCurrent(f, later))
      && (!PassiveIsCurrent(f, s) ==> !PassiveIsCurrent(f, later))
  {
    var s := Run(Init(holders), before);
    RunAdvances(Init(holders), before);
    assert HolderOk(s, s.holders[h]);
    RunAdvances(s, after);
  }

  /** A successful advance ends every fence captured before it, half-captured ones included. */
  lemma AdvanceEndsOlderFences(holders: nat, before: seq<Event>, h: nat, other: nat, after: seq<Event>)
    requires var s := Run(Init(holders), before);
      && h < |s.holders| && s.generation < MAX_GENERATION
      && other < |s.holders| && (s.holders[other].Holding? || s.holders[other].Loaded?)
    ensures var s := Run(Init(holders), before);
      var later := Run(Step(s, Advance(h)), after);
      later.generation > if s.holders[other].Holding? then s.holders[other].fence.generation else s.holders[other].generation
  {
    var s := Run(Init(holders), before);
    RunAdvances(Init(holders), before);
    assert HolderOk(s, s.holders[other]);
    RunAdvances(Step(s, Advance(h)), after);
  }

  /** At the end of the sequence a refused advance leaves the last fence current: the lane
      stops moving instead of starting over. */
  lemma {:induction false} ExhaustedLaneStands(s: State, schedule: seq<Event>)
    requires s.generation == MAX_GENERATION
    ensures Run(s, schedule).generation == MAX_GENERATION
    decreases |schedule|
  {
    if schedule != [] {
      ExhaustedLaneStands(Step(s, schedule[0]), schedule[1..]);
    }
  }
}
