/** Which functors a loop that is being stopped still runs: AsyncCall never looks at the status, so a
    call can come too late, and this module says exactly when. */
module LoopStranding {
  import opened Options
  import opened Tasks
  import opened LoopProtocol
  import opened LoopProgress

  /** Somebody is bound to take the queue: the loop has not been asked to exit, or is past its wake-up
      and before its swap, or a thread inside Stop has not returned. */
  predicate Handled(s: State) {
    !s.exitAsked || LoopWillSwap(s) || exists j :: 0 <= j < |s.stops| && s.stops[j].pc != Returned
  }

  predicate Reachable(room: nat, steps: seq<Step>, s: State) {
    room > 0 && Exec(Init(room), steps) == Some(s)
  }

  /** A run without new outside calls that ends where no thread can step. */
  ghost predicate RunsToRest(s: State, more: seq<Step>, end: State) {
    && (forall i :: 0 <= i < |more| ==> Internal(more[i]))
    && Exec(s, more) == Some(end) && Quiescent(end)
  }

  /** However the threads are scheduled, each functor queued so far has run by the time they rest. */
  ghost predicate Served(s: State) {
    forall more, end, t | RunsToRest(s, more, end) :: multiset(s.enqueued)[t] <= multiset(end.executed)[t]
  }

  // ---------------------------------------------------------------- a handled queue is taken

  lemma HandledKeeps(s: State, step: Step)
    requires Handled(s) && s.pending != [] && Enabled(s, step) && Internal(step) && !Takes(step)
    ensures Handled(Next(s, step)) && s.pending <= Next(s, step).pending
  {
    var s' := Next(s, step);
    if exists j :: 0 <= j < |s.stops| && s.stops[j].pc != Returned {
      var j :| 0 <= j < |s.stops| && s.stops[j].pc != Returned;
      assert s'.stops[j].pc != Returned;
    }
  }

  lemma SameHandled(s: State, s': State)
    requires s'.exitAsked == s.exitAsked && s'.pc == s.pc && |s'.stops| == |s.stops|
    requires forall j :: 0 <= j < |s.stops| ==> s'.stops[j].pc == s.stops[j].pc
    ensures Handled(s') <==> Handled(s)
  {
    if exists j :: 0 <= j < |s.stops| && s.stops[j].pc != Returned {
      var j :| 0 <= j < |s.stops| && s.stops[j].pc != Returned;
      assert s'.stops[j].pc != Returned;
    }
    if exists j :: 0 <= j < |s'.stops| && s'.stops[j].pc != Returned {
      var j :| 0 <= j < |s'.stops| && s'.stops[j].pc != Returned;
      assert s.stops[j].pc != Returned;
    }
  }

  lemma NotHandledAtRest(s: State)
    requires Placed(s) && Covered(s) && Quiescent(s) && s.pending != []
    ensures !Handled(s)
  {
    QuiescentLoop(s);
    forall j | 0 <= j < |s.stops| ensures s.stops[j].pc == Returned && s.stops[j].work == IDLE {
      QuiescentStopper(s, j);
    }
    assert !SomeoneOwes(s);
  }

  /** What is queued in `s'` was queued after everything in `first`. */
  predicate Younger(first: seq<Task>, s': State) {
    |first| + |s'.pending| <= |s'.enqueued| && first <= s'.enqueued
    && s'.enqueued[|s'.enqueued| - |s'.pending|..] == s'.pending
  }

  /** A step that does not take the queue leaves it alone or adds to its end. */
  lemma QueueOnlyGrows(s: State, step: Step)
    requires Enabled(s, step) && !Takes(step)
    ensures Next(s, step).pending == s.pending + Queued(s, step)
    ensures Next(s, step).enqueued == s.enqueued + Queued(s, step)
  {
  }

  lemma GrowthIsYounger(first: seq<Task>, s: State, s': State, more: seq<Task>)
    requires Younger(first, s) && s'.pending == s.pending + more && s'.enqueued == s.enqueued + more
    ensures Younger(first, s')
  {
  }

  lemma StepKeepsYounger(first: seq<Task>, s: State, step: Step)
    requires Enabled(s, step)
    requires Younger(first, s) || (Takes(step) && first <= s.enqueued)
    ensures Younger(first, Next(s, step))
  {
    if !Takes(step) {
      QueueOnlyGrows(s, step);
      hide Next, Enabled;
      GrowthIsYounger(first, s, Next(s, step), Queued(s, step));
    }
  }

  lemma {:induction false} YoungerAlongRun(first: seq<Task>, s: State, steps: seq<Step>)
    requires Younger(first, s)
    ensures Exec(s, steps).Some? ==> Younger(first, Exec(s, steps).value)
    decreases |steps|
  {
    if steps != [] && Enabled(s, steps[0]) {
      StepKeepsYounger(first, s, steps[0]);
      YoungerAlongRun(first, Next(s, steps[0]), steps[1..]);
    }
  }

  /** Every run to rest from a handled queue takes it. */
  lemma {:induction false} HandledIsTaken(first: seq<Task>, s: State, more: seq<Step>, end: State)
    requires Placed(s) && Covered(s) && RunsToRest(s, more, end) && first <= s.enqueued
    requires Younger(first, s) || (Handled(s) && s.pending != [])
    ensures Younger(first, end)
    decreases |more|
  {
    if Younger(first, s) {
      YoungerAlongRun(first, s, more);
    } else if more == [] {
      NotHandledAtRest(s);
    } else {
      StepKeepsCover(s, more[0]);
      EnqueuedGrows(s, more[0]);
      if Takes(more[0]) {
        StepKeepsYounger(first, s, more[0]);
      } else {
        HandledKeeps(s, more[0]);
      }
      HandledIsTaken(first, Next(s, more[0]), more[1..], end);
    }
  }

  lemma EnqueuedGrows(s: State, step: Step)
    requires Enabled(s, step)
    ensures s.enqueued <= Next(s, step).enqueued
  {
  }

  /** At rest, all but the queue has run. */
  lemma YoungerIsServed(first: seq<Task>, s: State, t: Task)
    requires Younger(first, s) && multiset(s.enqueued)[t] == multiset(s.executed)[t] + multiset(s.pending)[t]
    ensures multiset(first)[t] <= multiset(s.executed)[t]
  {
    var n := |s.enqueued| - |s.pending|;
    assert s.enqueued == s.enqueued[..n] + s.pending;
    assert s.enqueued[..n] == first + s.enqueued[|first|..n];
  }

  // ---------------------------------------------------------------- one that is not can be left behind

  /** One step of a schedule in which the loop finishes its batch and exits without waking up again. */
  lemma WayOut(s: State) returns (step: Step)
    requires Placed(s) && !Handled(s) && !Quiescent(s)
    ensures Enabled(s, step) && Internal(step) && !Takes(step) && !Handled(Next(s, step))
  {
    if s.owing > 0 {
      step := Notify;
    } else if s.pc == Waiting {
      step := Exit;
    } else if s.pc == Running {
      step := if s.work == IDLE then Finish
              else LoopAct(if s.work.owes then Tell else if s.work.spawning != [] then Spawn else Begin);
    } else {
      ExitedIsQuiescent(s);
    }
    var s' := Next(s, step);
    assert s'.stops == s.stops;
  }

  lemma {:induction false} LeftBehind(s: State) returns (more: seq<Step>, end: State, late: seq<Task>)
    requires Placed(s) && Covered(s) && !Handled(s)
    ensures RunsToRest(s, more, end) && Placed(end) && Covered(end)
    ensures end.pending == s.pending + late && end.enqueued == s.enqueued + late
    decreases Measure(s)
  {
    hide Placed, Covered, Handled, Measure, Enabled, Next;
    MeasureNonNegative(s);
    if Quiescent(s) {
      more, end, late := [], s, [];
    } else {
      var step := WayOut(s);
      var s' := Next(s, step);
      StepKeepsCover(s, step);
      EveryStepProgresses(s, step);
      MeasureNonNegative(s');
      QueueOnlyGrows(s, step);
      var t := Queued(s, step);
      var rest, later;
      rest, end, later := LeftBehind(s');
      more, late := [step] + rest, t + later;
      ExecStep(s, step, rest);
      assert (s.pending + t) + later == s.pending + late && (s.enqueued + t) + later == s.enqueued + late;
    }
  }

  // ---------------------------------------------------------------- exactly when

  lemma ReachedFacts(room: nat, steps: seq<Step>, s: State, t: Task)
    requires Reachable(room, steps, s)
    ensures Placed(s) && Covered(s) && Conserved(s, t)
  {
    CoverAlongRun(Init(room), steps);
    ConservedAlongRun(Init(room), steps, t);
  }

  lemma HandledIsServed(room: nat, steps: seq<Step>, s: State)
    requires Reachable(room, steps, s) && (s.pending == [] || Handled(s))
    ensures Served(s)
  {
    forall more, end, t | RunsToRest(s, more, end)
      ensures multiset(s.enqueued)[t] <= multiset(end.executed)[t]
    {
      ReachedFacts(room, steps, s, t);
      CoverAlongRun(s, more);
      ConservedAlongRun(s, more, t);
      QuiescentMeansDone(end, t);
      HandledIsTaken(s.enqueued, s, more, end);
      YoungerIsServed(s.enqueued, end, t);
    }
  }

  lemma UnhandledIsLeft(room: nat, steps: seq<Step>, s: State)
    requires Reachable(room, steps, s) && s.pending != [] && !Handled(s)
    ensures !Served(s)
  {
    var t := s.pending[0];
    ReachedFacts(room, steps, s, t);
    var more, end, late := LeftBehind(s);
    ConservedAlongRun(s, more, t);
    QuiescentMeansDone(end, t);
    assert RunsToRest(s, more, end) && multiset(s.enqueued)[t] > multiset(end.executed)[t];
  }

  /** In every reachable state: everything queued so far is sure to run, under every schedule, exactly
      when the queue is empty or somebody is bound to take it. */
  lemma ServedExactly(room: nat, steps: seq<Step>, s: State)
    requires Reachable(room, steps, s)
    ensures Served(s) <==> (s.pending == [] || Handled(s))
  {
    if s.pending == [] || Handled(s) {
      HandledIsServed(room, steps, s);
    } else {
      UnhandledIsLeft(room, steps, s);
    }
  }

  /** The queue is the last part of what was ever queued, so call `i`, in lock order, is still queued when
      no more than `i` functors have been taken. */
  predicate StillQueued(s: State, i: nat) {
    |s.enqueued| - |s.pending| <= i < |s.enqueued|
  }

  lemma QueueIsTail(room: nat, steps: seq<Step>, s: State)
    requires Reachable(room, steps, s)
    ensures |s.pending| <= |s.enqueued| && s.enqueued[|s.enqueued| - |s.pending|..] == s.pending
  {
    YoungerAlongRun([], Init(room), steps);
  }

  /** The state after one more step is reachable. */
  lemma ReachNext(room: nat, steps: seq<Step>, s: State, step: Step)
    requires Reachable(room, steps, s) && Enabled(s, step)
    ensures Reachable(room, steps + [step], Next(s, step))
  {
    ExecConcat(Init(room), steps, [step]);
    assert [step][1..] == [];
    assert Exec(s, [step]) == Some(Next(s, step));
  }

  lemma HandledCallIsTaken(room: nat, steps: seq<Step>, s: State, i: nat, more: seq<Step>, end: State)
    requires Reachable(room, steps, s) && Handled(s) && RunsToRest(s, more, end) && i < |s.enqueued|
    ensures !StillQueued(end, i)
  {
    CoverAlongRun(Init(room), steps);
    HandledIsTaken(s.enqueued, s, more, end);
  }

  /** In every reachable state, for a call of AsyncCall from outside or by a functor that is running:
      under every schedule that very call has been taken from the queue by the time the threads rest,
      and with it all earlier ones have run, exactly when at that moment the loop has not been asked to
      exit, or is about to swap, or some Stop is still draining. */
  lemma CallIsServedExactly(room: nat, steps: seq<Step>, s: State, step: Step)
    requires Reachable(room, steps, s) && Enabled(s, step) && Queued(s, step) != []
    ensures var s', i := Next(s, step), |s.enqueued|;
            && (Handled(s) <==> forall more, end | RunsToRest(s', more, end) :: !StillQueued(end, i))
            && (Handled(s) <==> Served(s'))
  {
    var s', i := Next(s, step), |s.enqueued|;
    SameHandled(s, s');
    StepHistory(s, step);
    QueueOnlyGrows(s, step);
    ReachNext(room, steps, s, step);
    ServedExactly(room, steps + [step], s');
    hide Next, Queued, Enabled;
    if Handled(s) {
      forall more, end | RunsToRest(s', more, end) ensures !StillQueued(end, i) {
        HandledCallIsTaken(room, steps + [step], s', i, more, end);
      }
    } else {
      CoverAlongRun(Init(room), steps + [step]);
      var more, end, late := LeftBehind(s');
      QueueIsTail(room, steps, s);
      assert RunsToRest(s', more, end) && StillQueued(end, i);
    }
  }

  /** What Stop is for: once a thread has entered it, everything queued until then is sure to run. */
  lemma StopServesEarlierCalls(room: nat, steps: seq<Step>, s: State)
    requires Reachable(room, steps, s)
    ensures Served(Next(s, StopEnter))
  {
    var s' := Next(s, StopEnter);
    assert s'.stops[|s.stops|].pc == Checking;
    ReachNext(room, steps, s, StopEnter);
    ServedExactly(room, steps + [StopEnter], s');
  }
}
