/** The headline of the task queue: no functor of any spawn tree is lost or run twice. */
module LoopForest {
  import opened Options
  import opened Tasks
  import opened LoopProtocol
  import opened LoopProgress

  /** The functors that come from outside calls, in order. */
  function Outside(steps: seq<Step>): seq<Task> {
    if steps == [] then []
    else (if steps[0].Enqueue? then [steps[0].task] else []) + Outside(steps[1..])
  }

  /** Copies of `t` still to be run by a consumer, in its batch or below it. */
  function WorkForest(w: Work, t: Task): nat {
    Forest(w.batch)[t] + Forest(w.spawning)[t]
  }

  function StopsForest(xs: seq<Stopper>, t: Task): nat {
    if xs == [] then 0 else WorkForest(xs[0].work, t) + StopsForest(xs[1..], t)
  }

  /** Copies of `t` run so far or still to be run, wherever they are. */
  function Accounted(s: State, t: Task): nat {
    multiset(s.executed)[t] + Forest(s.pending)[t] + WorkForest(s.work, t) + StopsForest(s.stops, t)
  }

  lemma {:induction false} StopsForestUpdate(xs: seq<Stopper>, j: nat, x: Stopper, t: Task)
    requires j < |xs|
    ensures StopsForest(xs[j := x], t) + WorkForest(xs[j].work, t) == StopsForest(xs, t) + WorkForest(x.work, t)
  {
    hide WorkForest;
    if j == 0 {
      assert xs[0 := x][1..] == xs[1..];
    } else {
      assert xs[j := x][1..] == xs[1..][j - 1 := x];
      StopsForestUpdate(xs[1..], j - 1, x, t);
    }
  }

  lemma {:induction false} StopsForestSnoc(xs: seq<Stopper>, x: Stopper, t: Task)
    ensures StopsForest(xs + [x], t) == StopsForest(xs, t) + WorkForest(x.work, t)
  {
    hide WorkForest;
    if xs == [] {
      assert xs + [x] == [x];
    } else {
      assert (xs + [x])[1..] == xs[1..] + [x];
      StopsForestSnoc(xs[1..], x, t);
    }
  }

  lemma ForestSnoc(ts: seq<Task>, x: Task)
    ensures Forest(ts + [x]) == Forest(ts) + Nodes(x)
  {
    ForestConcat(ts, [x]);
    assert [x][1..] == [];
  }

  lemma ForestHead(ts: seq<Task>)
    requires ts != []
    ensures Forest(ts) == multiset{ts[0]} + Forest(ts[0].spawns) + Forest(ts[1..])
  {
    assert Nodes(ts[0]) == multiset{ts[0]} + Forest(ts[0].spawns);
  }

  /** Starting a functor turns its tree into itself, now run, and the trees it will queue; queueing one
      of those moves its tree to the queue. */
  lemma ActAccounts(s: State, w: Work, a: Act, t: Task)
    requires CanAct(w, a)
    ensures var s' := ActShared(s, w, a);
            multiset(s'.executed)[t] + Forest(s'.pending)[t] + WorkForest(ActWork(w, a), t)
            == multiset(s.executed)[t] + Forest(s.pending)[t] + WorkForest(w, t)
  {
    match a
    case Begin => ForestHead(w.batch);
    case Spawn =>
      ForestSnoc(s.pending, w.spawning[0]);
    case Tell =>
  }

  lemma StopActAccounts(s: State, j: nat, a: Act, t: Task)
    requires Enabled(s, StopAct(j, a))
    ensures Accounted(Next(s, StopAct(j, a)), t) == Accounted(s, t)
  {
    var x := s.stops[j];
    ActAccounts(s, x.work, a, t);
    StopsForestUpdate(s.stops, j, x.(work := ActWork(x.work, a)), t);
    hide Forest, WorkForest, StopsForest;
  }

  lemma StopSwapAccounts(s: State, j: nat, t: Task)
    requires Placed(s) && Enabled(s, StopSwap(j))
    ensures Accounted(Next(s, StopSwap(j)), t) == Accounted(s, t)
  {
    assert s.stops[j].work == IDLE;
    StopsForestUpdate(s.stops, j, s.stops[j].(pc := Processing, work := Work(s.pending, [], false)), t);
  }

  lemma StopMoveAccounts(s: State, step: Step, j: nat, t: Task)
    requires Enabled(s, step) && (step == StopCheck(j) || step == StopDone(j))
    ensures Accounted(Next(s, step), t) == Accounted(s, t)
  {
    hide Forest, WorkForest, StopsForest;
    StopsForestUpdate(s.stops, j, Next(s, step).stops[j], t);
  }

  lemma StepAccounts(s: State, step: Step, t: Task)
    requires Placed(s) && Enabled(s, step)
    ensures Accounted(Next(s, step), t) == Accounted(s, t) + if step.Enqueue? then Nodes(step.task)[t] else 0
  {
    match step
    case Enqueue(x) => ForestSnoc(s.pending, x);
    case LoopAct(a) => ActAccounts(s, s.work, a, t);
    case StopEnter => StopsForestSnoc(s.stops, Stopper(Checking, false, IDLE), t);
    case StopCheck(j) => StopMoveAccounts(s, step, j, t);
    case StopDone(j) => StopMoveAccounts(s, step, j, t);
    case StopSwap(j) => StopSwapAccounts(s, j, t);
    case StopAct(j, a) => StopActAccounts(s, j, a, t);
    case _ =>
  }

  lemma {:induction false} RunAccounts(s: State, steps: seq<Step>, t: Task)
    requires Placed(s) && Covered(s) && Exec(s, steps).Some?
    ensures Accounted(Exec(s, steps).value, t) == Accounted(s, t) + Forest(Outside(steps))[t]
    decreases |steps|
  {
    hide Accounted;
    if steps != [] {
      StepAccounts(s, steps[0], t);
      StepKeepsCover(s, steps[0]);
      RunAccounts(Next(s, steps[0]), steps[1..], t);
      var rest := Outside(steps[1..]);
      if steps[0].Enqueue? {
        assert ([steps[0].task] + rest)[1..] == rest;
        assert Forest([steps[0].task] + rest) == Nodes(steps[0].task) + Forest(rest);
      } else {
        assert [] + rest == rest;
      }
    }
  }

  lemma {:induction false} IdleStopsForest(xs: seq<Stopper>, t: Task)
    requires forall j :: 0 <= j < |xs| ==> xs[j].work == IDLE
    ensures StopsForest(xs, t) == 0
  {
    if xs != [] {
      IdleStopsForest(xs[1..], t);
    }
  }

  /** In every run, of any number of producers and stoppers, that reaches a state from which no thread
      can step: each functor of each spawn tree handed to AsyncCall has run exactly once or is, with
      the tree below it, still queued; and nothing is, unless Stop asked the loop to exit.  Which
      functors can be left behind is the subject of LoopStranding. */
  lemma EveryFunctorRunsOnce(room: nat, steps: seq<Step>, s: State, t: Task)
    requires room > 0 && Exec(Init(room), steps) == Some(s)
    requires Quiescent(s)
    ensures multiset(s.executed)[t] + Forest(s.pending)[t] == Forest(Outside(steps))[t]
    ensures !s.exitAsked ==> s.pending == [] && multiset(s.executed)[t] == Forest(Outside(steps))[t]
  {
    CoverAlongRun(Init(room), steps);
    RunAccounts(Init(room), steps, t);
    ConservedAlongRun(Init(room), steps, t);
    QuiescentMeansDone(s, t);
    QuiescentLoop(s);
    forall j | 0 <= j < |s.stops| ensures s.stops[j].work == IDLE {
      QuiescentStopper(s, j);
    }
    IdleStopsForest(s.stops, t);
  }

  /** ... and such a state is reached, within the measure, once outside calls cease: whatever the
      schedule, a run of internal steps is that short, and there is one that ends at rest. */
  lemma RestIsReached(room: nat, steps: seq<Step>, s: State) returns (more: seq<Step>, end: State)
    requires room > 0 && Exec(Init(room), steps) == Some(s)
    ensures Exec(Init(room), steps + more) == Some(end) && Quiescent(end) && |more| <= Measure(s)
    ensures Outside(steps + more) == Outside(steps)
  {
    CoverAlongRun(Init(room), steps);
    more, end := ComesToRest(s);
    InternalRunsAreBounded(s, more);
    ExecConcat(Init(room), steps, more);
    OutsideConcat(steps, more);
  }

  lemma {:induction false} OutsideConcat(a: seq<Step>, b: seq<Step>)
    requires forall i :: 0 <= i < |b| ==> Internal(b[i])
    ensures Outside(a + b) == Outside(a)
    decreases |a| + |b|
  {
    if a == [] {
      assert a + b == b;
      if b != [] {
        OutsideConcat([], b[1..]);
        assert [] + b[1..] == b[1..];
      }
    } else {
      assert (a + b)[1..] == a[1..] + b && (a + b)[0] == a[0];
      OutsideConcat(a[1..], b);
    }
  }
}
