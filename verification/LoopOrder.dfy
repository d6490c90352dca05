/** In which order functors start: the order of the calls, unless a thread inside Stop overtakes a batch. */
module LoopOrder {
  import opened Options
  import opened Tasks
  import opened LoopProtocol

  function Batches(xs: seq<Stopper>): seq<Task> {
    if xs == [] then [] else xs[0].work.batch + Batches(xs[1..])
  }

  /** What has been swapped out and not started, by the loop and by the threads inside Stop. */
  function InHand(s: State): seq<Task> {
    s.work.batch + Batches(s.stops)
  }

  /** The step takes functors from the queue while others, queued before them, still wait in a batch. */
  predicate Overlaps(s: State, step: Step) {
    Takes(step) && s.pending != [] && InHand(s) != []
  }

  predicate NoOverlap(s: State, steps: seq<Step>)
    decreases |steps|
  {
    steps != [] && Enabled(s, steps[0]) ==>
      !Overlaps(s, steps[0]) && NoOverlap(Next(s, steps[0]), steps[1..])
  }

  predicate NoBatches(xs: seq<Stopper>) {
    forall j :: 0 <= j < |xs| ==> xs[j].work.batch == []
  }

  /** At most one consumer has a batch in hand. */
  predicate OneBatch(s: State) {
    && (s.work.batch != [] ==> NoBatches(s.stops))
    && forall i, j :: 0 <= i < j < |s.stops| ==> s.stops[i].work.batch == [] || s.stops[j].work.batch == []
  }

  /** The lock-order history is what has started, then the batch in hand, then the queue. */
  predicate InOrder(s: State) {
    OneBatch(s) && s.enqueued == s.executed + InHand(s) + s.pending
  }

  lemma {:induction false} BatchesEmpty(xs: seq<Stopper>)
    ensures Batches(xs) == [] <==> NoBatches(xs)
  {
    if xs != [] {
      BatchesEmpty(xs[1..]);
      if NoBatches(xs) {
        assert xs[0].work.batch == [] && forall j :: 0 <= j < |xs[1..]| ==> xs[1..][j] == xs[j + 1];
      } else if xs[0].work.batch == [] {
        var j :| 0 <= j < |xs| && xs[j].work.batch != [];
        assert xs[1..][j - 1] == xs[j];
      }
    }
  }

  /** When nobody but stopper `j` has a batch, its batch is all there is. */
  lemma {:induction false} OnlyBatch(xs: seq<Stopper>, j: nat)
    requires j < |xs| && forall i :: 0 <= i < |xs| && i != j ==> xs[i].work.batch == []
    ensures Batches(xs) == xs[j].work.batch
  {
    if j == 0 {
      BatchesEmpty(xs[1..]);
      assert NoBatches(xs[1..]);
    } else {
      OnlyBatch(xs[1..], j - 1);
    }
  }

  lemma {:induction false} BatchesSnoc(xs: seq<Stopper>, x: Stopper)
    requires x.work.batch == []
    ensures Batches(xs + [x]) == Batches(xs)
  {
    if xs == [] {
      assert xs + [x] == [x] && [x][1..] == [];
    } else {
      assert (xs + [x])[1..] == xs[1..] + [x];
      BatchesSnoc(xs[1..], x);
    }
  }

  lemma {:induction false} BatchesSame(xs: seq<Stopper>, j: nat, x: Stopper)
    requires j < |xs| && x.work.batch == xs[j].work.batch
    ensures Batches(xs[j := x]) == Batches(xs)
  {
    if j == 0 {
      assert xs[0 := x][1..] == xs[1..];
    } else {
      assert xs[j := x][1..] == xs[1..][j - 1 := x];
      BatchesSame(xs[1..], j - 1, x);
    }
  }

  /** One step takes from the front of what lies ahead, adds at its back, or leaves it alone. */
  predicate Advances(s: State, step: Step)
    requires Enabled(s, step)
  {
    var s' := Next(s, step);
    && OneBatch(s')
    && InHand(s) + s.pending + Queued(s, step) == Started(s, step) + (InHand(s') + s'.pending)
  }

  /** A stopper goes on, its batch as it was. */
  lemma SameBatches(s: State, s': State, j: nat, x: Stopper)
    requires OneBatch(s) && j < |s.stops| && x.work.batch == s.stops[j].work.batch
    requires s'.stops == s.stops[j := x] && s'.work.batch == s.work.batch
    ensures OneBatch(s') && InHand(s') == InHand(s)
  {
    BatchesSame(s.stops, j, x);
  }

  lemma LoopBeginAdvances(s: State)
    requires OneBatch(s) && Enabled(s, LoopAct(Begin))
    ensures Advances(s, LoopAct(Begin))
  {
    var w, s' := s.work, Next(s, LoopAct(Begin));
    BatchesEmpty(s.stops);
    assert InHand(s) == w.batch && InHand(s') == w.batch[1..];
    FrontAdvances(w.batch, s.pending);
  }

  lemma FrontAdvances(batch: seq<Task>, pending: seq<Task>)
    requires batch != []
    ensures batch + pending + [] == [batch[0]] + (batch[1..] + pending)
  {
  }

  lemma LoopActAdvances(s: State, a: Act)
    requires OneBatch(s) && Enabled(s, LoopAct(a))
    ensures Advances(s, LoopAct(a))
  {
    if a == Begin {
      LoopBeginAdvances(s);
    } else {
      var s' := Next(s, LoopAct(a));
      assert s'.stops == s.stops && s'.work.batch == s.work.batch;
      assert InHand(s') == InHand(s);
    }
  }

  lemma StopBeginAdvances(s: State, j: nat)
    requires OneBatch(s) && Enabled(s, StopAct(j, Begin))
    ensures Advances(s, StopAct(j, Begin))
  {
    var w := s.stops[j].work;
    var s' := Next(s, StopAct(j, Begin));
    OnlyBatch(s.stops, j);
    OnlyBatch(s'.stops, j);
    assert InHand(s) == w.batch && InHand(s') == w.batch[1..];
    FrontAdvances(w.batch, s.pending);
    hide InHand;
  }

  lemma StopMoveAdvances(s: State, step: Step, j: nat)
    requires OneBatch(s) && Enabled(s, step) && (step == StopCheck(j) || step == StopDone(j))
    ensures Advances(s, step)
  {
    var s' := Next(s, step);
    SameBatches(s, s', j, s'.stops[j]);
    hide OneBatch, InHand;
  }

  lemma StopSpawnAdvances(s: State, j: nat, a: Act)
    requires OneBatch(s) && Enabled(s, StopAct(j, a)) && a != Begin
    ensures Advances(s, StopAct(j, a))
  {
    var s' := Next(s, StopAct(j, a));
    SameBatches(s, s', j, s'.stops[j]);
    hide OneBatch, InHand;
  }

  lemma StopSwapAdvances(s: State, j: nat)
    requires Placed(s) && OneBatch(s) && Enabled(s, StopSwap(j)) && !Overlaps(s, StopSwap(j))
    ensures Advances(s, StopSwap(j))
  {
    var s' := Next(s, StopSwap(j));
    assert s.stops[j].work == IDLE;
    if s.pending == [] {
      BatchesSame(s.stops, j, s'.stops[j]);
    } else {
      BatchesEmpty(s.stops);
      OnlyBatch(s'.stops, j);
    }
  }

  lemma SwapAdvances(s: State)
    requires Placed(s) && OneBatch(s) && Enabled(s, Swap) && !Overlaps(s, Swap)
    ensures Advances(s, Swap)
  {
    BatchesEmpty(s.stops);
  }

  lemma EnterAdvances(s: State)
    requires OneBatch(s)
    ensures Advances(s, StopEnter)
  {
    BatchesSnoc(s.stops, Stopper(Checking, false, IDLE));
    assert InHand(Next(s, StopEnter)) == InHand(s);
  }

  /** Producers, and the loop between batches. */
  lemma PlainAdvances(s: State, step: Step)
    requires OneBatch(s) && Enabled(s, step)
    requires step.Enqueue? || step.Notify? || step.Wake? || step.Recv? || step.RecvEmpty? || step.Finish? || step.Exit?
    ensures Advances(s, step)
  {
    var s' := Next(s, step);
    assert s'.stops == s.stops && s'.work == s.work;
    assert InHand(s') == InHand(s);
    hide InHand;
    if step.Enqueue? {
      assert InHand(s) + s.pending + [step.task] == InHand(s) + (s.pending + [step.task]);
    }
  }

  lemma StepAdvances(s: State, step: Step)
    requires Placed(s) && OneBatch(s) && Enabled(s, step) && !Overlaps(s, step)
    ensures Advances(s, step)
  {
    hide Advances, OneBatch, InHand, Placed;
    match step
    case LoopAct(a) => LoopActAdvances(s, a);
    case StopAct(j, a) => if a == Begin { StopBeginAdvances(s, j); } else { StopSpawnAdvances(s, j, a); }
    case StopCheck(j) => StopMoveAdvances(s, step, j);
    case StopDone(j) => StopMoveAdvances(s, step, j);
    case StopSwap(j) => StopSwapAdvances(s, j);
    case Swap => SwapAdvances(s);
    case StopEnter => EnterAdvances(s);
    case _ => PlainAdvances(s, step);
  }

  lemma StepKeepsOrder(s: State, step: Step)
    requires Placed(s) && InOrder(s) && Enabled(s, step) && !Overlaps(s, step)
    ensures InOrder(Next(s, step))
  {
    StepAdvances(s, step);
    StepHistory(s, step);
    var s' := Next(s, step);
    hide InHand, Next, OneBatch, Started, Queued, Batches, Overlaps, Enabled, Placed;
    Rearranged(s.executed, InHand(s), s.pending, Queued(s, step), Started(s, step), InHand(s'), s'.pending);
  }

  lemma Rearranged(e: seq<Task>, h: seq<Task>, p: seq<Task>, q: seq<Task>, b: seq<Task>, h': seq<Task>, p': seq<Task>)
    requires h + p + q == b + (h' + p')
    ensures e + h + p + q == e + b + h' + p'
  {
    assert e + h + p + q == e + (h + p + q);
    assert e + b + h' + p' == e + (b + (h' + p'));
  }

  lemma {:induction false} OrderAlongRun(s: State, steps: seq<Step>)
    requires Placed(s) && Covered(s) && InOrder(s) && NoOverlap(s, steps)
    ensures Exec(s, steps).Some? ==> InOrder(Exec(s, steps).value)
    decreases |steps|
  {
    hide InOrder, Overlaps, Placed, Covered;
    if steps != [] && Enabled(s, steps[0]) {
      StepKeepsCover(s, steps[0]);
      StepKeepsOrder(s, steps[0]);
      OrderAlongRun(Next(s, steps[0]), steps[1..]);
    }
  }

  lemma InitInOrder(room: nat)
    requires room > 0
    ensures Placed(Init(room)) && Covered(Init(room)) && InOrder(Init(room))
  {
  }

  /** However many threads drain the queue: as long as nobody takes functors from it while others are
      still waiting in a batch, functors start in exactly the order AsyncCall queued them, those queued
      by running functors included. */
  lemma LoopIsFifo(room: nat, steps: seq<Step>, s: State)
    requires room > 0
    requires Exec(Init(room), steps) == Some(s) && NoOverlap(Init(room), steps)
    ensures s.enqueued == s.executed + InHand(s) + s.pending
  {
    InitInOrder(room);
    OrderAlongRun(Init(room), steps);
  }

  /** A loop that nobody stops never has two batches at once. */
  lemma {:induction false} AloneNeverOverlaps(s: State, steps: seq<Step>)
    requires Placed(s) && Covered(s) && s.stops == []
    requires forall i :: 0 <= i < |steps| ==> steps[i] != StopEnter
    ensures NoOverlap(s, steps)
    decreases |steps|
  {
    if steps != [] && Enabled(s, steps[0]) {
      StepKeepsCover(s, steps[0]);
      AloneNeverOverlaps(Next(s, steps[0]), steps[1..]);
    }
  }

  // ---------------------------------------------------------------- exactly then

  /** What has started is the first part of what was queued, and stays so whichever functor starts next. */
  ghost predicate Fifo(s: State) {
    && s.executed <= s.enqueued
    && forall step :: Enabled(s, step) ==> Next(s, step).executed <= Next(s, step).enqueued
  }

  ghost predicate FifoThroughout(s: State, steps: seq<Step>)
    decreases |steps|
  {
    Fifo(s) && (steps != [] && Enabled(s, steps[0]) ==> FifoThroughout(Next(s, steps[0]), steps[1..]))
  }

  predicate Distinct(ts: seq<Task>) {
    forall i, j :: 0 <= i < j < |ts| ==> ts[i] != ts[j]
  }

  lemma StartsFirst(s: State, step: Step)
    requires InOrder(s) && Enabled(s, step)
    ensures Started(s, step) <= InHand(s)
  {
    if step == LoopAct(Begin) {
      LoopActAdvances(s, Begin);
    } else if step.StopAct? && step.b == Begin {
      OnlyBatch(s.stops, step.j);
      BatchesEmpty(s.stops);
    }
  }

  lemma InOrderIsFifo(s: State)
    requires InOrder(s)
    ensures Fifo(s)
  {
    forall step | Enabled(s, step) ensures Next(s, step).executed <= Next(s, step).enqueued {
      StartsFirst(s, step);
      StepHistory(s, step);
      hide InHand, Next, Started, Queued, OneBatch, Enabled;
      PrefixGrows(s.executed, Started(s, step), InHand(s), s.pending, Queued(s, step));
    }
  }

  lemma PrefixGrows(e: seq<Task>, b: seq<Task>, h: seq<Task>, p: seq<Task>, q: seq<Task>)
    requires b <= h
    ensures e + b <= e + h + p + q
  {
  }

  /** Whoever takes functors over the heads of others can start the first of them next. */
  lemma OverlapBreaks(s: State, step: Step)
    requires Placed(s) && InOrder(s) && Enabled(s, step) && Overlaps(s, step) && s.pending[0] != InHand(s)[0]
    ensures !Fifo(Next(s, step))
  {
    var s' := Next(s, step);
    var start := if step.Swap? then LoopAct(Begin) else StopAct(step.j, Begin);
    assert Enabled(s', start) && Started(s', start) == [s.pending[0]];
    StepHistory(s', start);
    StepHistory(s, step);
    hide InHand, Next, Started, Queued, OneBatch, Enabled, Placed;
    NotNext(s.executed, InHand(s), s.pending);
    assert !(Next(s', start).executed <= Next(s', start).enqueued);
  }

  lemma NotNext(e: seq<Task>, h: seq<Task>, p: seq<Task>)
    requires h != [] && p != [] && h[0] != p[0]
    ensures forall q: seq<Task> :: !(e + [p[0]] <= e + h + p + q)
  {
    forall q: seq<Task> ensures !(e + [p[0]] <= e + h + p + q) {
      assert (e + [p[0]])[|e|] != (e + h + p + q)[|e|];
    }
  }

  lemma {:induction false} EnqueuedAlongRun(s: State, steps: seq<Step>)
    requires Exec(s, steps).Some?
    ensures s.enqueued <= Exec(s, steps).value.enqueued
    decreases |steps|
  {
    if steps != [] {
      StepHistory(s, steps[0]);
      EnqueuedAlongRun(Next(s, steps[0]), steps[1..]);
    }
  }

  lemma DistinctHeads(s: State, later: seq<Task>)
    requires InOrder(s) && s.enqueued <= later && Distinct(later) && s.pending != [] && InHand(s) != []
    ensures s.pending[0] != InHand(s)[0]
  {
    hide InHand;
    var i, j := |s.executed|, |s.executed| + |InHand(s)|;
    assert later[i] == s.enqueued[i] == InHand(s)[0] && later[j] == s.enqueued[j] == s.pending[0];
  }

  lemma {:induction false} FifoExactlyFrom(s: State, steps: seq<Step>, end: State)
    requires Placed(s) && Covered(s) && InOrder(s) && Exec(s, steps) == Some(end) && Distinct(end.enqueued)
    ensures FifoThroughout(s, steps) <==> NoOverlap(s, steps)
    decreases |steps|
  {
    InOrderIsFifo(s);
    if steps != [] {
      StepKeepsCover(s, steps[0]);
      EnqueuedAlongRun(s, steps);
      hide Placed, Covered, InOrder, Fifo, Next, Enabled, InHand;
      if Overlaps(s, steps[0]) {
        DistinctHeads(s, end.enqueued);
        OverlapBreaks(s, steps[0]);
      } else {
        StepKeepsOrder(s, steps[0]);
        FifoExactlyFrom(Next(s, steps[0]), steps[1..], end);
      }
    }
  }

  /** For every run in which the functors queued are told apart: at every point what has started is the
      first part of what was queued, whichever functor starts next, exactly when nobody ever takes
      functors from the queue while others are still waiting in a batch. */
  lemma FifoExactly(room: nat, steps: seq<Step>, s: State)
    requires room > 0 && Exec(Init(room), steps) == Some(s) && Distinct(s.enqueued)
    ensures FifoThroughout(Init(room), steps) <==> NoOverlap(Init(room), steps)
  {
    InitInOrder(room);
    FifoExactlyFrom(Init(room), steps, s);
  }

  // ---------------------------------------------------------------- a run that overlaps

  const ENTERED := Stopper(Checking, false, IDLE)

  /** `a` has been queued, and nobody notified yet. */
  function JustQueued(a: Task): State {
    Init(1).(pending := [a], owing := 1, enqueued := [a])
  }

  /** The loop has swapped `a` out and not started it, and a thread has entered Stop. */
  function InBatch(a: Task): State {
    Init(1).(pc := Running, work := Work([a], [], false), stops := [ENTERED], enqueued := [a])
  }

  /** Then `b` is queued, */
  function Behind(a: Task, b: Task): State {
    InBatch(a).(pending := [b], owing := 1, enqueued := [a, b])
  }

  /** the stopper takes it, */
  function TakenOver(a: Task, b: Task): State {
    Behind(a, b).(pending := [], stops := [Stopper(Processing, false, Work([b], [], false))])
  }

  /** starts it, */
  function SecondFirst(a: Task, b: Task): State {
    TakenOver(a, b).(stops := [Stopper(Processing, false, Work([], b.spawns, false))], executed := [b])
  }

  /** and only then the loop starts `a`. */
  function Reversed(a: Task, b: Task): State {
    SecondFirst(a, b).(work := Work([], a.spawns, false), executed := [b, a])
  }

  /** From the call that queued `a` to the swap that takes it, and the thread that enters Stop. */
  const WAKEUP := [Notify, Wake, Recv(1), RecvEmpty, Swap, StopEnter]

  const TAKEOVER := [StopCheck(0), StopSwap(0)]

  lemma SpelledOut()
    ensures WAKEUP == [Notify] + ([Wake] + ([Recv(1)] + ([RecvEmpty] + ([Swap] + ([StopEnter] + [])))))
    ensures TAKEOVER == [StopCheck(0)] + ([StopSwap(0)] + [])
  {
  }

  lemma ExecNone(s: State)
    ensures Exec(s, []) == Some(s)
  {
  }

  lemma WakeupSteps(a: Task) returns (s2: State, s3: State, s4: State, s5: State, s6: State)
    ensures Leads(JustQueued(a), Notify, s2) && Leads(s2, Wake, s3) && Leads(s3, Recv(1), s4)
    ensures Leads(s4, RecvEmpty, s5) && Leads(s5, Swap, s6) && Leads(s6, StopEnter, InBatch(a))
  {
    s2 := JustQueued(a).(owing := 0, bytes := 1);
    s3 := s2.(pc := Woken);
    s4 := s3.(pc := Draining, bytes := 0);
    s5 := s4.(pc := Drained);
    s6 := s5.(pc := Running, pending := [], work := Work([a], [], false));
    assert [] + [ENTERED] == [ENTERED];
  }

  lemma WakesUp(a: Task)
    ensures Exec(JustQueued(a), WAKEUP) == Some(InBatch(a))
  {
    hide *;
    var s2, s3, s4, s5, s6 := WakeupSteps(a);
    var end := InBatch(a);
    ExecNone(end);
    LeadsExec(s6, StopEnter, end, [], end);
    var r := [StopEnter] + [];
    LeadsExec(s5, Swap, s6, r, end);
    r := [Swap] + r;
    LeadsExec(s4, RecvEmpty, s5, r, end);
    r := [RecvEmpty] + r;
    LeadsExec(s3, Recv(1), s4, r, end);
    r := [Recv(1)] + r;
    LeadsExec(s2, Wake, s3, r, end);
    r := [Wake] + r;
    LeadsExec(JustQueued(a), Notify, s2, r, end);
    SpelledOut();
  }

  lemma TakesOver(a: Task, b: Task)
    ensures Exec(Behind(a, b), TAKEOVER) == Some(TakenOver(a, b))
  {
    var s := Behind(a, b).(stops := [Stopper(Committed, false, IDLE)]);
    assert Leads(Behind(a, b), StopCheck(0), s) && Leads(s, StopSwap(0), TakenOver(a, b));
    hide *;
    ExecNone(TakenOver(a, b));
    LeadsExec(s, StopSwap(0), TakenOver(a, b), [], TakenOver(a, b));
    LeadsExec(Behind(a, b), StopCheck(0), s, [StopSwap(0)] + [], TakenOver(a, b));
    SpelledOut();
  }

  lemma OvertakeLeads(a: Task, b: Task)
    ensures Leads(Init(1), Enqueue(a), JustQueued(a)) && Leads(InBatch(a), Enqueue(b), Behind(a, b))
    ensures Leads(TakenOver(a, b), StopAct(0, Begin), SecondFirst(a, b))
    ensures Leads(SecondFirst(a, b), LoopAct(Begin), Reversed(a, b))
  {
    assert [a] + [b] == [a, b] && [b] + [a] == [b, a];
    assert [b][1..] == [] && [a][1..] == [];
  }

  /** A thread in Stop that swaps the queue while the loop still holds an unstarted batch: the functor
      queued second starts first. */
  lemma StopOvertakes(a: Task, b: Task) returns (steps: seq<Step>, s: State)
    ensures Exec(Init(1), steps) == Some(s) && s.enqueued == [a, b] && s.executed == [b, a]
  {
    s := Reversed(a, b);
    assert s.enqueued == [a, b] && s.executed == [b, a];
    OvertakeLeads(a, b);
    WakesUp(a);
    TakesOver(a, b);
    hide *;
    ExecNone(s);
    LeadsExec(SecondFirst(a, b), LoopAct(Begin), s, [], s);
    var r := [LoopAct(Begin)] + [];
    LeadsExec(TakenOver(a, b), StopAct(0, Begin), SecondFirst(a, b), r, s);
    r := [StopAct(0, Begin)] + r;
    ExecConcat(Behind(a, b), TAKEOVER, r);
    r := TAKEOVER + r;
    LeadsExec(InBatch(a), Enqueue(b), Behind(a, b), r, s);
    r := [Enqueue(b)] + r;
    ExecConcat(JustQueued(a), WAKEUP, r);
    r := WAKEUP + r;
    LeadsExec(Init(1), Enqueue(a), JustQueued(a), r, s);
    steps := [Enqueue(a)] + r;
  }
}
