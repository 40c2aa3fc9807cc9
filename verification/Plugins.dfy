/** Plugin session teardown (`PluginSlot` in src/plugins.rs): callbacks, stop requests and
    one deferred teardown, each section under the state lock being one step. */
module Plugins {
  import opened Prelude

  datatype Result = Done | Error(code: nat)

  datatype Session = Running(callbacks: nat) | Draining(callbacks: nat) | Stopping | Stopped(result: Result)

  datatype StopOutcome = StoppedNow | Pending | AlreadyStopped | Failed(code: nat)

  function Outcome(result: Result, done: StopOutcome): StopOutcome {
    if result.Done? then done else Failed(result.code)
  }

  /** What a section leaves its caller to do after releasing the lock. */
  datatype FollowUp = Return | Teardown | Unreachable

  /** The lock section of `request_stop`, when the slot is not stopped yet. */
  function StopSection(s: Session): (Session, FollowUp) {
    match s
    case Running(n) => if n == 0 then (Stopping, Teardown) else (Draining(n), Return)
    case _ => (s, Return)
  }

  /** The lock section of `finish_callback`. */
  function FinishSection(s: Session): (Session, FollowUp) {
    match s
    case Running(n) => if n == 0 then (s, Unreachable) else (Running(n - 1), Return)
    case Draining(n) =>
      if n == 0 then (s, Unreachable) else if n == 1 then (Stopping, Teardown) else (Draining(n - 1), Return)
    case _ => (s, Unreachable)
  }

  /** The slot as its methods change it; `hook` is the result of the plugin's stop hook. */
  class PluginSlot {
    var state: Session
    var teardowns: nat

    constructor ()
      ensures state == Running(0) && teardowns == 0
    {
      state, teardowns := Running(0), 0;
    }

    method Callback() returns (admitted: bool)
      modifies this
      ensures admitted == old(state).Running? && teardowns == old(teardowns)
      ensures state == if admitted then Running(old(state).callbacks + 1) else old(state)
    {
      admitted := state.Running?;
      if admitted {
        state := Running(state.callbacks + 1);
      }
    }

    method FinishStop(hook: Result)
      requires state.Stopping?
      modifies this
      ensures state == Stopped(hook) && teardowns == old(teardowns) + 1
    {
      teardowns := teardowns + 1;
      state := Stopped(hook);
    }

    /** Tears down at once when no callback is running, else leaves it to the last one. */
    method RequestStop(hook: Result) returns (outcome: StopOutcome)
      modifies this
      ensures match old(state)
        case Running(n) =>
          if n == 0 then state == Stopped(hook) && outcome == Outcome(hook, StoppedNow) && teardowns == old(teardowns) + 1
          else state == Draining(n) && outcome == Pending && teardowns == old(teardowns)
        case Stopped(result) => state == old(state) && outcome == Outcome(result, AlreadyStopped) && teardowns == old(teardowns)
        case _ => state == old(state) && outcome == Pending && teardowns == old(teardowns)
    {
      if state.Stopped? {
        return Outcome(state.result, AlreadyStopped);
      }
      var (next, action) := StopSection(state);
      state := next;
      if action.Teardown? {
        FinishStop(hook);
        return Outcome(hook, StoppedNow);
      }
      outcome := Pending;
    }

    /** The last callback of a draining slot tears it down. */
    method FinishCallback(hook: Result)
      requires (state.Running? || state.Draining?) && state.callbacks > 0
      modifies this
      ensures old(state).Running? ==> state == Running(old(state).callbacks - 1) && teardowns == old(teardowns)
      ensures old(state).Draining? && old(state).callbacks > 1 ==>
                state == Draining(old(state).callbacks - 1) && teardowns == old(teardowns)
      ensures old(state).Draining? && old(state).callbacks == 1 ==>
                state == Stopped(hook) && teardowns == old(teardowns) + 1
    {
      var (next, action) := FinishSection(state);
      state := next;
      if action.Teardown? {
        FinishStop(hook);
      }
    }
  }

  // ---- Any number of concurrent callers ------------------------------------------------------

  /** A task: it may hold a callback lease, be tearing down, have published the end and be
      about to notify, or wait for the end. */
  datatype Task = Idle | InCallback | TearingDown | Notifying | Subscribed(notified: bool) | Parked(notified: bool)

  /** `starts` counts teardowns begun; `observed` are the results seen by observers of Stopped. */
  datatype World = World(state: Session, tasks: seq<Task>, starts: nat, observed: seq<Result>, unreachable: bool)

  datatype Op = Callback | Finish | Stop | Hook(result: Result) | Wait

  function Init(tasks: nat): World { World(Running(0), seq(tasks, _ => Idle), 0, [], false) }

  function Proceed(w: World, t: nat, section: (Session, FollowUp), task: Task): World
    requires t < |w.tasks|
  {
    w.(state := section.0,
       tasks := w.tasks[t := if section.1.Teardown? then TearingDown else task],
       starts := if section.1.Teardown? then w.starts + 1 else w.starts,
       unreachable := w.unreachable || section.1.Unreachable?)
  }

  function Observe(w: World): World
    requires w.state.Stopped?
  {
    w.(observed := w.observed + [w.state.result])
  }

  function Notified(tasks: seq<Task>): (r: seq<Task>)
    ensures |r| == |tasks|
  {
    seq(|tasks|, u requires 0 <= u < |tasks| =>
                   match tasks[u]
                   case Subscribed(_) => Subscribed(true)
                   case Parked(_) => Parked(true)
                   case other => other)
  }

  function Step(w: World, t: nat, op: Op): World {
    if t >= |w.tasks| then w
    else match w.tasks[t]
      case Idle =>
        (match op
         case Callback =>
           if w.state.Running? then w.(state := Running(w.state.callbacks + 1), tasks := w.tasks[t := InCallback]) else w
         case Stop => if w.state.Stopped? then Observe(w) else Proceed(w, t, StopSection(w.state), Idle)
         case Wait => w.(tasks := w.tasks[t := Subscribed(false)])
         case _ => w)
      case InCallback => if op.Finish? then Proceed(w, t, FinishSection(w.state), Idle) else w
      case TearingDown =>
        if op.Hook? then w.(state := Stopped(op.result), tasks := w.tasks[t := Notifying]) else w
      case Notifying => w.(tasks := Notified(w.tasks[t := Idle]))
      case Subscribed(notified) =>
        if w.state.Stopped? then Observe(w).(tasks := w.tasks[t := Idle])
        else w.(tasks := w.tasks[t := Parked(notified)])
      case Parked(notified) => if notified then w.(tasks := w.tasks[t := Subscribed(false)]) else w
  }

  function Run(w: World, schedule: seq<(nat, Op)>): World
    decreases |schedule|
  {
    if schedule == [] then w else Run(Step(w, schedule[0].0, schedule[0].1), schedule[1..])
  }

  // ---- The invariant ---------------------------------------------------------------------------

  function Count(tasks: seq<Task>, kind: Task): nat {
    if tasks == [] then 0
    else Count(tasks[..|tasks| - 1], kind) + if tasks[|tasks| - 1] == kind then 1 else 0
  }

  lemma {:induction false} CountUpdate(tasks: seq<Task>, kind: Task, t: nat, task: Task)
    requires t < |tasks|
    ensures Count(tasks[t := task], kind)
         == Count(tasks, kind) + (if task == kind then 1 else 0) - (if tasks[t] == kind then 1 else 0)
    ensures tasks[t] == kind ==> Count(tasks, kind) > 0
    decreases |tasks|
  {
    var n := |tasks| - 1;
    if t == n {
      assert tasks[t := task][..n] == tasks[..n];
    } else {
      assert tasks[t := task][..n] == tasks[..n][t := task];
      CountUpdate(tasks[..n], kind, t, task);
    }
  }

  lemma {:induction false} CountNotified(tasks: seq<Task>, kind: Task)
    requires kind.InCallback? || kind.TearingDown?
    ensures Count(Notified(tasks), kind) == Count(tasks, kind)
    decreases |tasks|
  {
    if tasks != [] {
      var n := |tasks| - 1;
      assert Notified(tasks)[..n] == Notified(tasks[..n]);
      CountNotified(tasks[..n], kind);
    }
  }

  function Callbacks(s: Session): nat { if s.Running? || s.Draining? then s.callbacks else 0 }

  ghost predicate Inv(w: World) {
    && !w.unreachable
    && Count(w.tasks, InCallback) == Callbacks(w.state)
    && (w.state.Draining? ==> w.state.callbacks > 0)
    && Count(w.tasks, TearingDown) == (if w.state.Stopping? then 1 else 0)
    && w.starts == (if w.state.Stopping? || w.state.Stopped? then 1 else 0)
    && (forall i | 0 <= i < |w.observed| :: w.state == Stopped(w.observed[i]))
    && (w.state.Stopped? ==> forall t | 0 <= t < |w.tasks| && w.tasks[t] == Parked(false) :: NotificationDue(w))
  }

  /** Some task has published the end and has yet to notify. */
  ghost predicate NotificationDue(w: World) { exists u | 0 <= u < |w.tasks| :: w.tasks[u].Notifying? }

  /** A task other than the notifier moves: whoever is about to notify still is. */
  lemma DueStays(w: World, t: nat, task: Task)
    requires t < |w.tasks| && !w.tasks[t].Notifying? && NotificationDue(w)
    ensures NotificationDue(w.(tasks := w.tasks[t := task]))
  {
    var u :| 0 <= u < |w.tasks| && w.tasks[u].Notifying?;
    assert w.tasks[t := task][u].Notifying?;
  }

  lemma IdleKeeps(w: World, t: nat, op: Op)
    requires Inv(w) && t < |w.tasks| && w.tasks[t].Idle?
    ensures Inv(Step(w, t, op))
  {
    var task := Step(w, t, op).tasks[t];
    CountUpdate(w.tasks, InCallback, t, task);
    CountUpdate(w.tasks, TearingDown, t, task);
    if NotificationDue(w) {
      DueStays(w, t, task);
    }
  }

  lemma HookKeeps(w: World, t: nat, op: Op)
    requires Inv(w) && t < |w.tasks| && w.tasks[t].TearingDown?
    ensures Inv(Step(w, t, op))
  {
    var v := Step(w, t, op);
    CountUpdate(w.tasks, InCallback, t, Notifying);
    CountUpdate(w.tasks, TearingDown, t, Notifying);
    if op.Hook? {
      assert v.tasks[t].Notifying?;
    }
  }

  lemma NotifyKeeps(w: World, t: nat, op: Op)
    requires Inv(w) && t < |w.tasks| && w.tasks[t].Notifying?
    ensures Inv(Step(w, t, op))
  {
    CountUpdate(w.tasks, InCallback, t, Idle);
    CountUpdate(w.tasks, TearingDown, t, Idle);
    CountNotified(w.tasks[t := Idle], InCallback);
    CountNotified(w.tasks[t := Idle], TearingDown);
  }

  lemma StepKeeps(w: World, t: nat, op: Op)
    requires Inv(w)
    ensures Inv(Step(w, t, op))
  {
    if t < |w.tasks| {
      if w.tasks[t].Idle? {
        IdleKeeps(w, t, op);
      } else if w.tasks[t].TearingDown? {
        HookKeeps(w, t, op);
      } else if w.tasks[t].Notifying? {
        NotifyKeeps(w, t, op);
      } else {
        var task := Step(w, t, op).tasks[t];
        CountUpdate(w.tasks, InCallback, t, task);
        CountUpdate(w.tasks, TearingDown, t, task);
        if NotificationDue(w) {
          DueStays(w, t, task);
        }
      }
    }
  }

  lemma {:induction false} RunKeeps(w: World, schedule: seq<(nat, Op)>)
    requires Inv(w)
    ensures Inv(Run(w, schedule))
    decreases |schedule|
  {
    if schedule != [] {
      StepKeeps(w, schedule[0].0, schedule[0].1);
      RunKeeps(Step(w, schedule[0].0, schedule[0].1), schedule[1..]);
    }
  }

  lemma {:induction false} InitHolds(tasks: nat)
    ensures Count(Init(tasks).tasks, InCallback) == 0 && Count(Init(tasks).tasks, TearingDown) == 0
    decreases tasks
  {
    if tasks > 0 {
      InitHolds(tasks - 1);
      assert Init(tasks).tasks[..tasks - 1] == Init(tasks - 1).tasks;
    }
  }

  // ---- Main results ------------------------------------------------------------------------------

  /** Teardown starts at most once and only with no callback alive, the unreachable branch
      is never taken, and all observers of the stopped slot see the one result. */
  lemma TeardownOnce(tasks: nat, schedule: seq<(nat, Op)>)
    ensures var w := Run(Init(tasks), schedule);
      && !w.unreachable && w.starts <= 1
      && (w.starts == 1 ==> Count(w.tasks, InCallback) == 0)
      && (w.starts == 1 <==> w.state.Stopping? || w.state.Stopped?)
      && (forall i, j | 0 <= i < |w.observed| && 0 <= j < |w.observed| :: w.observed[i] == w.observed[j])
  {
    InitHolds(tasks);
    RunKeeps(Init(tasks), schedule);
  }

  predicate Ended(s: Session) { s.Stopping? || s.Stopped? }

  /** Once teardown has started no callback starts again, and a published result stays. */
  lemma {:induction false} NothingStartsLater(w: World, schedule: seq<(nat, Op)>)
    requires Inv(w) && Ended(w.state)
    ensures var v := Run(w, schedule);
      && Ended(v.state) && Count(v.tasks, InCallback) == 0 && v.starts == w.starts
      && (w.state.Stopped? ==> v.state == w.state)
    decreases |schedule|
  {
    RunKeeps(w, schedule);
    if schedule != [] {
      var v := Step(w, schedule[0].0, schedule[0].1);
      StepKeeps(w, schedule[0].0, schedule[0].1);
      if schedule[0].0 < |w.tasks| {
        TeardownOwner(w, schedule[0].0);
      }
      NothingStartsLater(v, schedule[1..]);
    }
  }

  /** Only a stopping slot has a task tearing it down, and no ended slot has a callback. */
  lemma TeardownOwner(w: World, t: nat)
    requires Inv(w) && Ended(w.state) && t < |w.tasks|
    ensures !w.tasks[t].InCallback? && (w.tasks[t].TearingDown? ==> w.state.Stopping?)
  {
    CountUpdate(w.tasks, InCallback, t, w.tasks[t]);
    CountUpdate(w.tasks, TearingDown, t, w.tasks[t]);
  }

  /** No lost wakeup: a waiter parked on a stopped slot has been notified, or the task that
      published the end is about to notify. */
  lemma StoppedWakesEveryone(tasks: nat, schedule: seq<(nat, Op)>, t: nat)
    ensures var w := Run(Init(tasks), schedule);
      w.state.Stopped? && t < |w.tasks| && w.tasks[t].Parked? ==> w.tasks[t].notified || NotificationDue(w)
  {
    InitHolds(tasks);
    RunKeeps(Init(tasks), schedule);
    var w := Run(Init(tasks), schedule);
    if t < |w.tasks| && w.tasks[t].Parked? && !w.tasks[t].notified {
      assert w.tasks[t] == Parked(false);
    }
  }

  /** The window is real: the end is published before the waiters are notified. */
  lemma PublishedBeforeNotified()
    ensures exists schedule: seq<(nat, Op)> ::
              var w := Run(Init(2), schedule);
              w.state == Stopped(Done) && w.tasks == [Parked(false), Notifying]
  {
    var w0 := Init(2);
    var w1 := Step(w0, 0, Wait);
    var w2 := Step(w1, 0, Wait);
    var w3 := Step(w2, 1, Stop);
    var w4 := Step(w3, 1, Hook(Done));
    assert w4.state == Stopped(Done) && w4.tasks == [Parked(false), Notifying];
    RunOne(w3, (1, Hook(Done)), []);
    RunOne(w2, (1, Stop), [(1, Hook(Done))]);
    RunOne(w1, (0, Wait), [(1, Stop), (1, Hook(Done))]);
    RunOne(w0, (0, Wait), [(0, Wait), (1, Stop), (1, Hook(Done))]);
    assert Run(w0, [(0, Wait)] + [(0, Wait), (1, Stop), (1, Hook(Done))]) == w4;
  }

  lemma RunOne(w: World, e: (nat, Op), rest: seq<(nat, Op)>)
    ensures Run(w, [e] + rest) == Run(Step(w, e.0, e.1), rest)
    ensures [e] + [] == [e]
  {
    assert ([e] + rest)[1..] == rest;
  }
}
