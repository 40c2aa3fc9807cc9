/** What a scope reports against what its work returned, over schedules of Scope. */
module ScopePolls {
  import opened Prelude
  import opened Scope

  /** The state before step `i` of the schedule. */
  function Before(c: nat, schedule: seq<Event>, i: nat): State
    requires i <= |schedule|
  {
    Run(Init(c), schedule[..i])
  }

  lemma {:induction false} RunAppend(s: State, a: seq<Event>, e: Event)
    ensures Run(s, a + [e]) == Step(Run(s, a), e)
    decreases |a|
  {
    if a == [] {
      assert a + [e] == [e] && [e][1..] == [];
      assert Run(s, [e]) == Run(Step(s, e), []);
    } else {
      assert (a + [e])[1..] == a[1..] + [e];
      RunAppend(Step(s, a[0]), a[1..], e);
    }
  }

  lemma StepAt(c: nat, schedule: seq<Event>, i: nat)
    requires i < |schedule|
    ensures Before(c, schedule, i + 1) == Step(Before(c, schedule, i), schedule[i])
  {
    assert schedule[..i + 1] == schedule[..i] + [schedule[i]];
    RunAppend(Init(c), schedule[..i], schedule[i]);
  }

  function Return(ready: bool): OwnerOp { if ready then ReturnReady else ReturnPending }

  /** At step `i` the polled work returned, ready or pending. */
  predicate Returned(c: nat, schedule: seq<Event>, i: nat, ready: bool)
    requires i < |schedule|
  {
    schedule[i] == OwnerStep(Return(ready)) && Before(c, schedule, i).owner.Running?
  }

  /** The owner does nothing strictly between `i` and `j`. */
  predicate OwnerRests(schedule: seq<Event>, i: nat, j: nat)
    requires j <= |schedule|
  {
    forall k | i < k < j :: !schedule[k].OwnerStep?
  }

  /** Nobody has cancelled the poll in flight, and the registry is open. */
  predicate Undisturbed(s: State) { s.core.phase == Polling(None) && !s.core.closing }

  /** The work returned at step `i`, and at the owner's next step `j` the poll was left
      undisturbed. */
  predicate LeftAfter(c: nat, schedule: seq<Event>, i: nat, j: nat, ready: bool)
    requires i < j < |schedule|
  {
    && Returned(c, schedule, i, ready) && schedule[j].OwnerStep? && OwnerRests(schedule, i, j)
    && Undisturbed(Before(c, schedule, j))
  }

  ghost predicate SomeReadyPoll(c: nat, schedule: seq<Event>) {
    exists i: nat, j: nat | i < j < |schedule| :: LeftAfter(c, schedule, i, j, true)
  }

  ghost predicate AboutToLeave(c: nat, schedule: seq<Event>, ready: bool) {
    exists i: nat | i < |schedule| :: Returned(c, schedule, i, ready) && OwnerRests(schedule, i, |schedule|)
  }

  // ---- One step -----------------------------------------------------------------------------

  lemma LeavingStep(s: State, e: Event, ready: bool)
    ensures Step(s, e).owner == Leave(ready)
       <==> if e.OwnerStep? then s.owner.Running? && e.op == Return(ready) else s.owner == Leave(ready)
  {
  }

  lemma CompletingStep(s: State, e: Event)
    ensures Step(s, e).core.phase.Completed?
       <==> s.core.phase.Completed? || (e.OwnerStep? && s.owner == Leave(true) && Undisturbed(s))
  {
  }

  // ---- Every schedule -------------------------------------------------------------------------

  /** Shorter schedules see the same states. */
  lemma Prefixes(c: nat, schedule: seq<Event>, n: nat)
    requires n <= |schedule|
    ensures forall i: nat | i <= n :: Before(c, schedule[..n], i) == Before(c, schedule, i)
  {
    forall i: nat | i <= n ensures Before(c, schedule[..n], i) == Before(c, schedule, i) {
      assert schedule[..n][..i] == schedule[..i];
    }
  }

  lemma {:induction false} LeavingExactly(c: nat, schedule: seq<Event>, ready: bool)
    ensures Run(Init(c), schedule).owner == Leave(ready) <==> AboutToLeave(c, schedule, ready)
    decreases |schedule|
  {
    if schedule != [] {
      var n := |schedule| - 1;
      var init := schedule[..n];
      LeavingExactly(c, init, ready);
      Prefixes(c, schedule, n);
      StepAt(c, schedule, n);
      assert schedule[..n + 1] == schedule;
      LeavingStep(Before(c, schedule, n), schedule[n], ready);
      if schedule[n].OwnerStep? {
        LeavesNow(c, schedule, ready);
      } else {
        KeepsLeaving(c, schedule, ready);
      }
    }
  }

  lemma LeavesNow(c: nat, schedule: seq<Event>, ready: bool)
    requires schedule != [] && schedule[|schedule| - 1].OwnerStep?
    ensures AboutToLeave(c, schedule, ready) <==> Returned(c, schedule, |schedule| - 1, ready)
  {
    var n := |schedule| - 1;
    if Returned(c, schedule, n, ready) {
      assert OwnerRests(schedule, n, |schedule|);
    }
  }

  lemma KeepsLeaving(c: nat, schedule: seq<Event>, ready: bool)
    requires schedule != [] && !schedule[|schedule| - 1].OwnerStep?
    ensures AboutToLeave(c, schedule, ready) <==> AboutToLeave(c, schedule[..|schedule| - 1], ready)
  {
    var n := |schedule| - 1;
    var init := schedule[..n];
    Prefixes(c, schedule, n);
    if i: nat :| i < |schedule| && Returned(c, schedule, i, ready) && OwnerRests(schedule, i, |schedule|) {
      assert Returned(c, init, i, ready) && OwnerRests(init, i, |init|);
    }
    if i: nat :| i < |init| && Returned(c, init, i, ready) && OwnerRests(init, i, |init|) {
      assert Returned(c, schedule, i, ready);
      assert OwnerRests(schedule, i, |schedule|);
    }
  }

  /** A scope is completed exactly if some poll whose work returned ready was left
      undisturbed. */
  lemma {:induction false} CompletedExactly(c: nat, schedule: seq<Event>)
    ensures Run(Init(c), schedule).core.phase.Completed? <==> SomeReadyPoll(c, schedule)
    decreases |schedule|
  {
    if schedule != [] {
      var n := |schedule| - 1;
      CompletedExactly(c, schedule[..n]);
      StepAt(c, schedule, n);
      assert schedule[..n + 1] == schedule;
      CompletingStep(Before(c, schedule, n), schedule[n]);
      LeavingExactly(c, schedule[..n], true);
      ReadyPollGrows(c, schedule);
    }
  }

  lemma ReadyPollPersists(c: nat, schedule: seq<Event>, n: nat)
    requires n <= |schedule| && SomeReadyPoll(c, schedule[..n])
    ensures SomeReadyPoll(c, schedule)
  {
    var init := schedule[..n];
    Prefixes(c, schedule, n);
    var i: nat, j: nat :| i < j < |init| && LeftAfter(c, init, i, j, true);
    assert LeftAfter(c, schedule, i, j, true);
  }

  lemma ReadyPollArrives(c: nat, schedule: seq<Event>)
    requires schedule != [] && schedule[|schedule| - 1].OwnerStep? && AboutToLeave(c, schedule[..|schedule| - 1], true)
    requires Undisturbed(Before(c, schedule, |schedule| - 1))
    ensures SomeReadyPoll(c, schedule)
  {
    var n := |schedule| - 1;
    var init := schedule[..n];
    Prefixes(c, schedule, n);
    var i: nat :| i < |init| && Returned(c, init, i, true) && OwnerRests(init, i, |init|);
    assert Returned(c, schedule, i, true) && OwnerRests(schedule, i, n);
    assert LeftAfter(c, schedule, i, n, true);
  }

  lemma ReadyPollGrows(c: nat, schedule: seq<Event>)
    requires schedule != []
    ensures var n := |schedule| - 1;
      SomeReadyPoll(c, schedule)
      <==> SomeReadyPoll(c, schedule[..n])
           || (schedule[n].OwnerStep? && AboutToLeave(c, schedule[..n], true) && Undisturbed(Before(c, schedule, n)))
  {
    var n := |schedule| - 1;
    var init := schedule[..n];
    if i: nat, j: nat :| i < j < |schedule| && LeftAfter(c, schedule, i, j, true) {
      Prefixes(c, schedule, n);
      if j < n {
        assert LeftAfter(c, init, i, j, true);
      } else {
        assert Returned(c, init, i, true) && OwnerRests(init, i, |init|);
      }
    }
    if SomeReadyPoll(c, init) {
      ReadyPollPersists(c, schedule, n);
    }
    if schedule[n].OwnerStep? && AboutToLeave(c, init, true) && Undisturbed(Before(c, schedule, n)) {
      ReadyPollArrives(c, schedule);
    }
  }

  // ---- Main results ------------------------------------------------------------------------------

  /** A value was returned, is being returned or was lost exactly if the work of some poll
      returned ready and the owner's next step found no cancellation and an open registry. */
  lemma ValueMeansReadyWork(c: nat, schedule: seq<Event>)
    ensures var s := Run(Init(c), schedule);
      Value in s.results || Returning(s.owner) || s.lost <==> SomeReadyPoll(c, schedule)
  {
    CompletedDelivers(c, schedule);
    CompletedExactly(c, schedule);
  }

  /** Work that returned pending under the same conditions goes back to waiting: the scope is
      pending, its owner may poll again, and nothing was reported. */
  lemma PendingWorkStaysPending(c: nat, schedule: seq<Event>, i: nat, j: nat)
    requires i < j < |schedule| && LeftAfter(c, schedule, i, j, false)
    ensures var s := Before(c, schedule, j + 1);
      s.core.phase == Pending && s.owner == Ready && s.results == Before(c, schedule, i).results
  {
    var init := schedule[..j];
    Prefixes(c, schedule, j);
    assert Returned(c, init, i, false) && OwnerRests(init, i, |init|);
    LeavingExactly(c, init, false);
    assert init[..j] == init && Before(c, schedule, j).owner == Leave(false);
    StepAt(c, schedule, j);
    StepAt(c, schedule, i);
    ResultsRest(c, schedule, i + 1, j);
  }

  lemma {:induction false} ResultsRest(c: nat, schedule: seq<Event>, i: nat, j: nat)
    requires 0 < i <= j <= |schedule| && OwnerRests(schedule, i - 1, j)
    ensures Before(c, schedule, j).results == Before(c, schedule, i).results
    decreases j - i
  {
    if i < j {
      ResultsRest(c, schedule, i, j - 1);
      StepAt(c, schedule, j - 1);
    }
  }

  // ---- A scope left alone ---------------------------------------------------------------------------

  function Fresh(c: nat, closing: bool, steps: nat): State {
    Init(c).(steps := steps, core := Core(Pending, None, closing, None))
  }

  const GO: Event := OwnerStep(Poll)

  function PendingRounds(n: nat): seq<Event> {
    if n == 0 then [] else [GO, GO, OwnerStep(ReturnPending), GO] + PendingRounds(n - 1)
  }

  lemma RunFour(s: State, e0: Event, e1: Event, e2: Event, e3: Event, rest: seq<Event>)
    ensures Run(s, [e0, e1, e2, e3] + rest) == Run(Step(Step(Step(Step(s, e0), e1), e2), e3), rest)
  {
    var s1 := Step(s, e0);
    var s2 := Step(s1, e1);
    var s3 := Step(s2, e2);
    RunOne(s, e0, [e1, e2, e3] + rest);
    RunOne(s1, e1, [e2, e3] + rest);
    RunOne(s2, e2, [e3] + rest);
    RunOne(s3, e3, rest);
    assert [e0, e1, e2, e3] + rest == [e0] + ([e1, e2, e3] + rest);
    assert [e1, e2, e3] + rest == [e1] + ([e2, e3] + rest);
    assert [e2, e3] + rest == [e2] + ([e3] + rest);
  }

  lemma PendingRound(c: nat, steps: nat)
    ensures Step(Step(Step(Step(Fresh(c, false, steps), GO), GO), OwnerStep(ReturnPending)), GO) == Fresh(c, false, steps + 4)
  {
    var s1 := Step(Fresh(c, false, steps), GO);
    var s2 := Step(s1, GO);
    assert s2.owner == Running && s2.core == Core(Polling(None), None, false, None);
    var s3 := Step(s2, OwnerStep(ReturnPending));
    assert s3.owner == Leave(false);
    assert Step(s3, GO).core == Core(Pending, None, false, None) && Step(s3, GO).owner == Ready;
  }

  /** A scope polled until its work is ready, with nobody cancelling, closing, dropping or
      panicking, returns exactly one value and ends its token as finished. */
  lemma {:induction false} PolledUntilReady(c: nat, n: nat, steps: nat)
    ensures var s := Run(Fresh(c, false, steps), PendingRounds(n) + [GO, GO, OwnerStep(ReturnReady), GO, GO]);
      s.results == [Value] && s.core.phase == Completed && s.core.token == Some(ScopeFinished) && s.owner == Ready
    decreases n
  {
    var last := [GO, GO, OwnerStep(ReturnReady), GO, GO];
    if n == 0 {
      assert PendingRounds(0) + last == [GO, GO, OwnerStep(ReturnReady), GO] + [GO];
      RunFour(Fresh(c, false, steps), GO, GO, OwnerStep(ReturnReady), GO, [GO]);
      var s4 := Step(Step(Step(Step(Fresh(c, false, steps), GO), GO), OwnerStep(ReturnReady)), GO);
      assert s4.owner == Announce(ScopeFinished, Value, true) && s4.results == [];
      RunOne(s4, GO, []);
    } else {
      assert PendingRounds(n) + last == [GO, GO, OwnerStep(ReturnPending), GO] + (PendingRounds(n - 1) + last);
      RunFour(Fresh(c, false, steps), GO, GO, OwnerStep(ReturnPending), GO, PendingRounds(n - 1) + last);
      PendingRound(c, steps);
      PolledUntilReady(c, n - 1, steps + 4);
    }
  }

  /** The reason a scope left alone ends with when it is dropped or panics. */
  function Expected(closing: bool): Reason { if closing then CacheShutdown else CallerDropped }

  lemma DropDecides(c: nat, closing: bool) returns (s4: State)
    ensures s4 == Step(Step(Step(Step(Fresh(c, closing, 0), OwnerStep(Drop)), GO), GO), GO)
    ensures s4.core == Core(Pending, None, closing, None) && s4.owner.Dropping? && s4.owner.cancel.LockState?
    ensures s4.owner.cancel.reason == Expected(closing)
  {
    var s1 := Step(Fresh(c, closing, 0), OwnerStep(Drop));
    assert s1.owner == LoadDropReason && s1.core == Core(Pending, None, closing, None);
    var s2 := Step(s1, GO);
    assert s2.owner == LoadClosing;
    var s3 := Step(s2, GO);
    assert s3.owner == Dropping(LoadReason(Expected(closing)));
    s4 := Step(s3, GO);
  }

  lemma DropFinishes(s: State)
    requires s.owner.Dropping? && s.owner.cancel.LockState? && s.core.phase == Pending && s.core.token.None?
    ensures var r := Step(Step(s, GO), GO);
      r.owner == Gone && r.core.phase == Cancelled(s.owner.cancel.reason) && r.core.token == Some(s.owner.cancel.reason)
  {
  }

  /** Dropped without a poll. */
  lemma DropEndsScope(c: nat, closing: bool)
    ensures var s := Run(Fresh(c, closing, 0), [OwnerStep(Drop), GO, GO, GO] + [GO, GO]);
      s.owner == Gone && s.core.phase == Cancelled(Expected(closing)) && s.core.token == Some(Expected(closing))
  {
    RunFour(Fresh(c, closing, 0), OwnerStep(Drop), GO, GO, GO, [GO, GO]);
    var s4 := DropDecides(c, closing);
    RunOne(s4, GO, [GO]);
    RunOne(Step(s4, GO), GO, []);
    assert [GO] + [GO] == [GO, GO];
    DropFinishes(s4);
  }

  /** A panicking poll. */
  lemma PanicEndsScope(c: nat, closing: bool)
    ensures var s := Run(Fresh(c, closing, 0), [GO, GO, OwnerStep(Panic), GO] + [GO, GO]);
      s.results == [Panicked] && s.core.phase == Cancelled(Expected(closing)) && s.core.token == Some(Expected(closing))
  {
    RunFour(Fresh(c, closing, 0), GO, GO, OwnerStep(Panic), GO, [GO, GO]);
    var s4 := Step(Step(Step(Step(Fresh(c, closing, 0), GO), GO), OwnerStep(Panic)), GO);
    assert s4.owner.UnwindClosing? && s4.core.phase == Polling(None);
    RunOne(s4, GO, [GO]);
    RunOne(Step(s4, GO), GO, []);
    assert [GO] + [GO] == [GO, GO];
  }

  /** A closed registry cancels whatever the poll returned. */
  lemma ClosedPollFails(c: nat, ready: bool)
    ensures var s := Run(Fresh(c, true, 0), [GO, GO, OwnerStep(Return(ready)), GO] + [GO]);
      s.results == [Failed(CacheShutdown)] && s.core.phase == Cancelled(CacheShutdown) && s.core.token == Some(CacheShutdown)
  {
    RunFour(Fresh(c, true, 0), GO, GO, OwnerStep(Return(ready)), GO, [GO]);
    var s4 := Step(Step(Step(Step(Fresh(c, true, 0), GO), GO), OwnerStep(Return(ready))), GO);
    assert s4.owner == Announce(CacheShutdown, Failed(CacheShutdown), true);
    RunOne(s4, GO, []);
  }

  /** A lone canceller ends a pending scope with exactly the reason it asks for. */
  lemma CancelEndsScope(c: nat, k: nat, reason: Reason)
    requires k < c
    ensures var e := CancelStep(k, reason);
      var s := Run(Init(c), [e, e, e, e] + []);
      s.core.phase == Cancelled(reason) && s.core.token == Some(reason)
  {
    var e := CancelStep(k, reason);
    RunFour(Init(c), e, e, e, e, []);
  }
}
