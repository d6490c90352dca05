/** Termination of the task queue: a measure that every internal step decreases. */
module LoopProgress {
  import opened Options
  import opened Tasks
  import opened LoopProtocol

  /** Everything but a new outside AsyncCall and a new call of Stop. */
  predicate Internal(step: Step) {
    !step.Enqueue? && !step.StopEnter?
  }

  function LoopRank(pc: LoopPc): nat {
    match pc
    case Waiting => 1
    case Woken => 0
    case Draining => 5
    case Drained => 4
    case Running => 3
    case Exited => 0
  }

  function WorkCost(w: Work): int {
    10 * Sizes(w.batch) - 9 * |w.batch| + 10 * Sizes(w.spawning) + if w.owes then 7 else 0
  }

  function StopsCost(xs: seq<Stopper>): int {
    if xs == [] then 0 else WorkCost(xs[0].work) + StopsCost(xs[1..])
  }

  /** Remaining spawn-tree size, unsent notifications, channel bytes and loop phase, weighted. */
  function Load(s: State): int {
    10 * Sizes(s.pending) - 8 * |s.pending| + 6 * s.bytes + 7 * s.owing
    + LoopRank(s.pc) + WorkCost(s.work) + StopsCost(s.stops)
  }

  /** How far a stopper can go before it must either return or take a functor from the queue. */
  function StopRank(empty: bool, x: Stopper): nat {
    (if x.last then 0 else 4) +
    match x.pc
    case Returned => 0
    case Checking => 1
    case Processing => 2
    case Committed => if empty then 3 else 0
  }

  function StopsRank(empty: bool, xs: seq<Stopper>): (n: nat)
    ensures n <= 7 * |xs|
  {
    if xs == [] then 0 else StopRank(empty, xs[0]) + StopsRank(empty, xs[1..])
  }

  function Measure(s: State): int {
    Load(s) * (8 * |s.stops| + 1) + StopsRank(s.pending == [], s.stops)
  }

  lemma {:induction false} StopsUpdate(xs: seq<Stopper>, j: nat, x: Stopper, empty: bool)
    requires j < |xs|
    ensures StopsCost(xs[j := x]) == StopsCost(xs) - WorkCost(xs[j].work) + WorkCost(x.work)
    ensures StopsRank(empty, xs[j := x]) == StopsRank(empty, xs) - StopRank(empty, xs[j]) + StopRank(empty, x)
  {
    if j == 0 {
      assert xs[0 := x][1..] == xs[1..];
    } else {
      assert xs[j := x][1..] == xs[1..][j - 1 := x];
      StopsUpdate(xs[1..], j - 1, x, empty);
    }
  }

  lemma ActCosts(s: State, w: Work, a: Act)
    requires CanAct(w, a)
    ensures var s' := ActShared(s, w, a);
            10 * Sizes(s'.pending) - 8 * |s'.pending| + 6 * s'.bytes + WorkCost(ActWork(w, a))
            < 10 * Sizes(s.pending) - 8 * |s.pending| + 6 * s.bytes + WorkCost(w)
    ensures var s' := ActShared(s, w, a);
            s' == s.(pending := s'.pending, bytes := s'.bytes, enqueued := s'.enqueued, executed := s'.executed)
  {
    match a
    case Begin =>
      assert Size(w.batch[0]) == 1 + Sizes(w.batch[0].spawns);
    case Spawn =>
      SizesConcat(s.pending, [w.spawning[0]]);
      assert Sizes([w.spawning[0]]) == Size(w.spawning[0]);
    case Tell =>
  }

  /** Steps of producers and of the loop thread reduce the load. */
  lemma LoopStepReducesLoad(s: State, step: Step)
    requires Placed(s) && Enabled(s, step) && Internal(step)
    requires !step.StopCheck? && !step.StopSwap? && !step.StopAct? && !step.StopDone?
    ensures Load(Next(s, step)) < Load(s) && |Next(s, step).stops| == |s.stops|
  {
    if step.LoopAct? {
      ActCosts(s, s.work, step.a);
    }
  }

  lemma StopActReducesLoad(s: State, j: nat, a: Act)
    requires Enabled(s, StopAct(j, a))
    ensures Load(Next(s, StopAct(j, a))) < Load(s) && |Next(s, StopAct(j, a)).stops| == |s.stops|
  {
    var x := s.stops[j];
    ActCosts(s, x.work, a);
    StopsUpdate(s.stops, j, x.(work := ActWork(x.work, a)), true);
  }

  lemma StopSwapReduces(s: State, j: nat)
    requires Placed(s) && Enabled(s, StopSwap(j))
    ensures var s' := Next(s, StopSwap(j));
            && |s'.stops| == |s.stops|
            && (s.pending != [] ==> Load(s') < Load(s))
            && (s.pending == [] ==> Load(s') == Load(s) && StopsRank(true, s'.stops) < StopsRank(true, s.stops))
  {
    assert s.stops[j].work == IDLE;
    StopsUpdate(s.stops, j, s.stops[j].(pc := Processing, work := Work(s.pending, [], false)), true);
  }

  lemma StopCheckReduces(s: State, j: nat)
    requires Enabled(s, StopCheck(j))
    ensures var s' := Next(s, StopCheck(j));
            && |s'.stops| == |s.stops| && s'.pending == s.pending && Load(s') == Load(s)
            && StopsRank(s.pending == [], s'.stops) < StopsRank(s.pending == [], s.stops)
  {
    StopsUpdate(s.stops, j, Next(s, StopCheck(j)).stops[j], s.pending == []);
  }

  lemma StopDoneReduces(s: State, j: nat)
    requires Enabled(s, StopDone(j))
    ensures var s' := Next(s, StopDone(j));
            && |s'.stops| == |s.stops| && s'.pending == s.pending && Load(s') == Load(s)
            && StopsRank(s.pending == [], s'.stops) < StopsRank(s.pending == [], s.stops)
  {
    StopsUpdate(s.stops, j, s.stops[j].(pc := Checking), s.pending == []);
  }

  lemma LexicographicToMeasure(a: int, a': int, b: nat, b': nat, n: nat)
    requires b <= 7 * n && b' <= 7 * n
    requires a' < a || (a' == a && b' < b)
    ensures a' * (8 * n + 1) + b' < a * (8 * n + 1) + b
  {
    if a' < a {
      assert a' * (8 * n + 1) <= (a - 1) * (8 * n + 1);
      assert (a - 1) * (8 * n + 1) == a * (8 * n + 1) - (8 * n + 1);
    }
  }

  /** Every step other than a new outside call decreases the measure, whichever thread takes it. */
  lemma EveryStepProgresses(s: State, step: Step)
    requires Placed(s) && Enabled(s, step) && Internal(step)
    ensures Measure(Next(s, step)) < Measure(s)
  {
    hide Load, StopsRank, Placed;
    var s' := Next(s, step);
    if step.StopAct? {
      StopActReducesLoad(s, step.j, step.b);
    } else if step.StopCheck? {
      StopCheckReduces(s, step.j);
    } else if step.StopSwap? {
      StopSwapReduces(s, step.j);
    } else if step.StopDone? {
      StopDoneReduces(s, step.j);
    } else {
      LoopStepReducesLoad(s, step);
    }
    LexicographicToMeasure(Load(s), Load(s'), StopsRank(s.pending == [], s.stops),
                           StopsRank(s'.pending == [], s'.stops), |s.stops|);
  }

  lemma WorkCostNonNegative(w: Work)
    ensures WorkCost(w) >= 0
  {
  }

  lemma {:induction false} StopsCostNonNegative(xs: seq<Stopper>)
    ensures StopsCost(xs) >= 0
  {
    if xs != [] {
      WorkCostNonNegative(xs[0].work);
      StopsCostNonNegative(xs[1..]);
    }
  }

  lemma ProductNonNegative(a: int, b: int)
    requires a >= 0 && b >= 0
    ensures a * b >= 0
  {
  }

  lemma MeasureNonNegative(s: State)
    ensures Measure(s) >= 0
  {
    StopsCostNonNegative(s.stops);
    WorkCostNonNegative(s.work);
    ProductNonNegative(Load(s), 8 * |s.stops| + 1);
  }

  /** A run without new outside calls has at most `Measure` steps: Stop's drain loops terminate, and
      so does the loop's activity, for any finite spawn forest and any schedule. */
  lemma {:induction false} InternalRunsAreBounded(s: State, steps: seq<Step>)
    requires Placed(s) && Covered(s)
    requires Exec(s, steps).Some? && forall i :: 0 <= i < |steps| ==> Internal(steps[i])
    ensures |steps| <= Measure(s) - Measure(Exec(s, steps).value) <= Measure(s)
    decreases |steps|
  {
    MeasureNonNegative(Exec(s, steps).value);
    if steps != [] {
      EveryStepProgresses(s, steps[0]);
      StepKeepsCover(s, steps[0]);
      InternalRunsAreBounded(Next(s, steps[0]), steps[1..]);
    }
  }

  ghost predicate Quiescent(s: State) {
    forall step :: Internal(step) ==> !Enabled(s, step)
  }

  lemma NoActMeansIdle(w: Work)
    requires forall a :: !CanAct(w, a)
    ensures w == IDLE
  {
    assert !CanAct(w, Begin) && !CanAct(w, Spawn) && !CanAct(w, Tell);
  }

  lemma QuiescentLoop(s: State)
    requires Placed(s) && Quiescent(s)
    ensures s.pc == Exited || (s.pc == Waiting && s.bytes == 0 && !s.exitAsked)
    ensures s.owing == 0 && s.work == IDLE
  {
    assert !Enabled(s, Notify) && !Enabled(s, Wake) && !Enabled(s, RecvEmpty) && !Enabled(s, Swap);
    assert !Enabled(s, Recv(1)) && !Enabled(s, Finish) && !Enabled(s, Exit);
    if s.pc == Running {
      forall a ensures !CanAct(s.work, a) {
        assert !Enabled(s, LoopAct(a));
      }
      NoActMeansIdle(s.work);
    }
  }

  lemma QuiescentStopper(s: State, j: nat)
    requires Placed(s) && Quiescent(s) && j < |s.stops|
    ensures s.stops[j].pc == Returned && s.stops[j].work == IDLE
  {
    assert !Enabled(s, StopCheck(j)) && !Enabled(s, StopSwap(j)) && !Enabled(s, StopDone(j));
    if s.stops[j].pc == Processing {
      forall a ensures !CanAct(s.stops[j].work, a) {
        assert !Enabled(s, StopAct(j, a));
      }
      NoActMeansIdle(s.stops[j].work);
    }
  }

  lemma {:induction false} NobodyHolds(xs: seq<Stopper>, t: Task)
    requires forall j :: 0 <= j < |xs| ==> xs[j].work == IDLE
    ensures Held(xs, t) == 0
  {
    if xs != [] {
      NobodyHolds(xs[1..], t);
    }
  }

  /** When nothing more can happen, the queue is empty and everything queued has run; the one
      exception is a loop that Stop has made exit, which strands exactly what is still queued. */
  lemma QuiescentMeansDone(s: State, t: Task)
    requires Placed(s) && Covered(s) && Conserved(s, t) && Quiescent(s)
    ensures multiset(s.enqueued)[t] == multiset(s.executed)[t] + multiset(s.pending)[t]
    ensures !s.exitAsked ==> s.pending == [] && s.bytes == 0
    ensures forall j :: 0 <= j < |s.stops| ==> s.stops[j].pc == Returned
  {
    QuiescentLoop(s);
    forall j | 0 <= j < |s.stops| ensures s.stops[j].pc == Returned && s.stops[j].work == IDLE {
      QuiescentStopper(s, j);
    }
    NobodyHolds(s.stops, t);
    assert !SomeoneOwes(s);
  }

  /** From any reachable state the threads, left alone, come to rest. */
  lemma {:induction false} ComesToRest(s: State) returns (steps: seq<Step>, end: State)
    requires Placed(s) && Covered(s)
    ensures Exec(s, steps) == Some(end) && Placed(end) && Covered(end) && Quiescent(end)
    ensures forall i :: 0 <= i < |steps| ==> Internal(steps[i])
    decreases Measure(s)
  {
    MeasureNonNegative(s);
    if Quiescent(s) {
      steps, end := [], s;
    } else {
      var step :| Internal(step) && Enabled(s, step);
      StepKeepsCover(s, step);
      EveryStepProgresses(s, step);
      MeasureNonNegative(Next(s, step));
      var rest;
      rest, end := ComesToRest(Next(s, step));
      steps := [step] + rest;
      assert steps[1..] == rest;
    }
  }

  lemma ExitedIsQuiescent(s: State)
    requires s.pc == Exited && s.owing == 0
    requires forall j :: 0 <= j < |s.stops| ==> s.stops[j].pc == Returned
    ensures Quiescent(s)
  {
  }

  /** Stop drains an empty queue twice and returns. */
  lemma StopOnEmpty() returns (s1: State, s2: State, s3: State)
    ensures Leads(Init(1), StopEnter, s1) && Leads(s1, StopCheck(0), s2) && Leads(s2, StopCheck(0), s3)
    ensures s3 == Init(1).(stops := [Stopper(Returned, true, IDLE)], exitAsked := true)
  {
    s1 := Init(1).(stops := [Stopper(Checking, false, IDLE)]);
    s2 := Init(1).(stops := [Stopper(Checking, true, IDLE)], exitAsked := true);
    s3 := Init(1).(stops := [Stopper(Returned, true, IDLE)], exitAsked := true);
  }

  lemma CallAfterExit(t: Task, s3: State) returns (s4: State, s5: State, s: State)
    requires s3 == Init(1).(stops := [Stopper(Returned, true, IDLE)], exitAsked := true)
    ensures Leads(s3, Exit, s4) && Leads(s4, Enqueue(t), s5) && Leads(s5, Notify, s)
    ensures s.enqueued == [t] && s.executed == [] && s.pending == [t] && Quiescent(s)
  {
    s4 := s3.(pc := Exited);
    s5 := s4.(pending := [t], enqueued := [t], owing := 1);
    s := s5.(owing := 0, bytes := 1);
    ExitedIsQuiescent(s);
  }

  /** AsyncCall never looks at the loop status, so a functor queued after Stop has returned and the
      loop has exited is never run. */
  lemma CallAfterStopIsStranded(t: Task) returns (steps: seq<Step>, s: State)
    ensures Exec(Init(1), steps) == Some(s) && Quiescent(s)
    ensures s.enqueued == [t] && s.executed == [] && s.pending == [t]
  {
    var s1, s2, s3 := StopOnEmpty();
    var s4, s5;
    s4, s5, s := CallAfterExit(t, s3);
    LeadsExec(s5, Notify, s, [], s);
    var r5 := [Notify] + [];
    hide *;
    LeadsExec(s4, Enqueue(t), s5, r5, s);
    var r4 := [Enqueue(t)] + r5;
    LeadsExec(s3, Exit, s4, r4, s);
    var r3 := [Exit] + r4;
    LeadsExec(s2, StopCheck(0), s3, r3, s);
    var r2 := [StopCheck(0)] + r3;
    LeadsExec(s1, StopCheck(0), s2, r2, s);
    var r1 := [StopCheck(0)] + r2;
    LeadsExec(Init(1), StopEnter, s1, r1, s);
    steps := [StopEnter] + r1;
  }
}
