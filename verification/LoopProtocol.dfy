/** The cross-thread task queue as an interleaved step system.

    Any number of producers, the loop thread and any number of threads inside `Stop` take atomic
    steps in any order.  The atomic steps are the critical sections under the queue mutex, the
    single `send` or `recv` calls on the wake channel, and the start of one functor. */
module LoopProtocol {
  import opened Options
  import opened Tasks

  /** What one consumer still has to do: the rest of its swapped-out batch, the `AsyncCall`s left in
      the functor it is running, and whether it has queued a functor without notifying yet. */
  datatype Work = Work(batch: seq<Task>, spawning: seq<Task>, owes: bool)

  const IDLE := Work([], [], false)

  /** Woken is "inside Update, before the first recv"; Drained is "after the last recv, before the swap". */
  datatype LoopPc = Waiting | Woken | Draining | Drained | Running | Exited

  /** A thread inside `Stop`: `checking` the emptiness test, `committed` to a swap, `processing` a batch.
      `last` tells the drain loop after event_base_loopexit from the one before it. */
  datatype StopPc = Checking | Committed | Processing | Returned
  datatype Stopper = Stopper(pc: StopPc, last: bool, work: Work)

  /** `enqueued` and `executed` are histories: lock order of AsyncCall, and start order of functors. */
  datatype State = State(
    room: nat, pending: seq<Task>, bytes: nat, owing: nat,
    pc: LoopPc, work: Work, stops: seq<Stopper>, exitAsked: bool,
    enqueued: seq<Task>, executed: seq<Task>)

  function Init(room: nat): State {
    State(room, [], 0, 0, Waiting, IDLE, [], false, [], [])
  }

  datatype Act = Begin | Spawn | Tell

  datatype Step =
    | Enqueue(task: Task)      // an outside AsyncCall, under the mutex
    | Notify                   // an outside AsyncCall, its send
    | StopEnter                // some thread passes the status test of Stop
    | Wake | Recv(n: nat) | RecvEmpty | Swap | LoopAct(a: Act) | Finish | Exit
    | StopCheck(j: nat) | StopSwap(j: nat) | StopAct(j: nat, b: Act) | StopDone(j: nat)

  predicate CanAct(w: Work, a: Act) {
    match a
    case Begin => !w.owes && w.spawning == [] && w.batch != []
    case Spawn => !w.owes && w.spawning != []
    case Tell => w.owes
  }

  function ActWork(w: Work, a: Act): Work
    requires CanAct(w, a)
  {
    match a
    case Begin => Work(w.batch[1..], w.batch[0].spawns, false)
    case Spawn => Work(w.batch, w.spawning[1..], true)
    case Tell => Work(w.batch, w.spawning, false)
  }

  function Sent(s: State): nat {
    Filled(s.room, s.bytes, 1)
  }

  function Put(s: State, t: Task): State {
    s.(pending := s.pending + [t], enqueued := s.enqueued + [t])
  }

  function ActShared(s: State, w: Work, a: Act): State
    requires CanAct(w, a)
  {
    match a
    case Begin => s.(executed := s.executed + [w.batch[0]])
    case Spawn => Put(s, w.spawning[0])
    case Tell => s.(bytes := Sent(s))
  }

  /** One `recv` takes at most 64 bytes, and at least one when it succeeds. */
  const RECV_SIZE: nat := 64

  predicate StopAt(s: State, j: nat, pc: StopPc) {
    j < |s.stops| && s.stops[j].pc == pc
  }

  predicate Enabled(s: State, step: Step) {
    match step
    case Enqueue(_) => true
    case Notify => s.owing > 0
    case StopEnter => true
    case Wake => s.pc == Waiting && s.bytes > 0
    case Recv(n) => (s.pc == Woken || s.pc == Draining) && 0 < n <= s.bytes && n <= RECV_SIZE
    case RecvEmpty => (s.pc == Woken || s.pc == Draining) && s.bytes == 0
    case Swap => s.pc == Drained
    case LoopAct(a) => s.pc == Running && CanAct(s.work, a)
    case Finish => s.pc == Running && s.work == IDLE
    case Exit => s.pc == Waiting && s.exitAsked
    case StopCheck(j) => StopAt(s, j, Checking)
    case StopSwap(j) => StopAt(s, j, Committed)
    case StopAct(j, a) => StopAt(s, j, Processing) && CanAct(s.stops[j].work, a)
    case StopDone(j) => StopAt(s, j, Processing) && s.stops[j].work == IDLE
  }

  function WithStop(s: State, j: nat, x: Stopper): State
    requires j < |s.stops|
  {
    s.(stops := s.stops[j := x])
  }

  function Next(s: State, step: Step): State
    requires Enabled(s, step)
  {
    match step
    case Enqueue(t) => Put(s, t).(owing := s.owing + 1)
    case Notify => s.(owing := s.owing - 1, bytes := Sent(s))
    case StopEnter => s.(stops := s.stops + [Stopper(Checking, false, IDLE)])
    case Wake => s.(pc := Woken)
    case Recv(n) => s.(pc := Draining, bytes := s.bytes - n)
    case RecvEmpty => s.(pc := Drained)
    case Swap => s.(pc := Running, pending := [], work := Work(s.pending, [], false))
    case LoopAct(a) => ActShared(s, s.work, a).(work := ActWork(s.work, a))
    case Finish => s.(pc := Waiting)
    case Exit => s.(pc := Exited)
    case StopCheck(j) =>
      var x := s.stops[j];
      if s.pending != [] then WithStop(s, j, x.(pc := Committed))
      else if !x.last then WithStop(s, j, x.(last := true)).(exitAsked := true)
      else WithStop(s, j, x.(pc := Returned))
    case StopSwap(j) =>
      WithStop(s, j, s.stops[j].(pc := Processing, work := Work(s.pending, [], false))).(pending := [])
    case StopAct(j, a) =>
      var x := s.stops[j];
      WithStop(ActShared(s, x.work, a), j, x.(work := ActWork(x.work, a)))
    case StopDone(j) => WithStop(s, j, s.stops[j].(pc := Checking))
  }

  /** The functor that the step starts, if any. */
  function Started(s: State, step: Step): seq<Task>
    requires Enabled(s, step)
  {
    match step
    case LoopAct(Begin) => [s.work.batch[0]]
    case StopAct(j, Begin) => [s.stops[j].work.batch[0]]
    case _ => []
  }

  /** The functor that the step queues, if any. */
  function Queued(s: State, step: Step): seq<Task>
    requires Enabled(s, step)
  {
    match step
    case Enqueue(t) => [t]
    case LoopAct(Spawn) => [s.work.spawning[0]]
    case StopAct(j, Spawn) => [s.stops[j].work.spawning[0]]
    case _ => []
  }

  predicate Takes(step: Step) {
    step.Swap? || step.StopSwap?
  }

  function Exec(s: State, steps: seq<Step>): Option<State>
    decreases |steps|
  {
    if steps == [] then Some(s)
    else if Enabled(s, steps[0]) then Exec(Next(s, steps[0]), steps[1..])
    else None
  }

  lemma {:induction false} ExecConcat(s: State, a: seq<Step>, b: seq<Step>)
    requires Exec(s, a).Some?
    ensures Exec(s, a + b) == Exec(Exec(s, a).value, b)
    decreases |a|
  {
    if a == [] {
      assert a + b == b;
    } else {
      assert (a + b)[1..] == a[1..] + b && (a + b)[0] == a[0];
      ExecConcat(Next(s, a[0]), a[1..], b);
    }
  }

  lemma ExecStep(s: State, step: Step, rest: seq<Step>)
    requires Enabled(s, step)
    ensures Exec(s, [step] + rest) == Exec(Next(s, step), rest)
  {
    assert ([step] + rest)[1..] == rest;
  }

  /** One step of a concrete run. */
  predicate Leads(s: State, step: Step, s': State) {
    Enabled(s, step) && Next(s, step) == s'
  }

  lemma LeadsExec(s: State, step: Step, s': State, rest: seq<Step>, end: State)
    requires Leads(s, step, s') && Exec(s', rest) == Some(end)
    ensures Exec(s, [step] + rest) == Some(end)
  {
    ExecStep(s, step, rest);
  }

  lemma StepHistory(s: State, step: Step)
    requires Enabled(s, step)
    ensures Next(s, step).enqueued == s.enqueued + Queued(s, step)
    ensures Next(s, step).executed == s.executed + Started(s, step)
  {
  }

  // ---------------------------------------------------------------- the wake channel

  /** The step sends a byte: an outside call, the loop or a thread in Stop notifying. */
  predicate Sends(step: Step) {
    step == Notify || (step.LoopAct? && step.a == Tell) || (step.StopAct? && step.b == Tell)
  }

  /** A send adds one byte, or none to a full channel; a receive takes 64 at most; nothing else touches the
      channel. */
  lemma ChannelExactly(s: State, step: Step)
    requires Enabled(s, step)
    ensures Sends(step) ==> Next(s, step).bytes == if s.bytes < s.room then s.bytes + 1 else s.bytes
    ensures step.Recv? ==> 1 <= step.n <= 64 && Next(s, step).bytes == s.bytes - step.n
    ensures !Sends(step) && !step.Recv? ==> Next(s, step).bytes == s.bytes
    ensures Next(s, step).room == s.room
  {
  }

  lemma {:induction false} ChannelAlongRun(s: State, steps: seq<Step>)
    requires s.bytes <= s.room
    ensures Exec(s, steps).Some? ==> var s' := Exec(s, steps).value; s'.bytes <= s'.room == s.room
    decreases |steps|
  {
    if steps != [] && Enabled(s, steps[0]) {
      ChannelExactly(s, steps[0]);
      ChannelAlongRun(Next(s, steps[0]), steps[1..]);
    }
  }

  /** In every reachable state the channel holds no more than fits. */
  lemma ChannelNeverOverflows(room: nat, steps: seq<Step>, s: State)
    requires Exec(Init(room), steps) == Some(s)
    ensures s.bytes <= s.room == room
  {
    ChannelAlongRun(Init(room), steps);
  }

  // ---------------------------------------------------------------- how Stop ends

  /** The exit is asked for by a thread in Stop that finds the queue empty, and by nothing else; and one
      that returns has found it empty again after that. */
  lemma ExitAskedOnEmpty(s: State, step: Step)
    requires Enabled(s, step)
    ensures s.exitAsked ==> Next(s, step).exitAsked
    ensures !s.exitAsked && Next(s, step).exitAsked ==>
      step.StopCheck? && s.pending == [] && Next(s, step).stops[step.j].last
    ensures forall j :: 0 <= j < |s.stops| && s.stops[j].pc != Returned && Next(s, step).stops[j].pc == Returned ==>
      step == StopCheck(j) && s.pending == [] && s.stops[j].last
  {
  }

  /** Threads in Stop are in their second loop, or have returned, only after the exit has been asked for. */
  predicate AskedFirst(s: State) {
    forall j :: 0 <= j < |s.stops| ==>
      (s.stops[j].pc == Returned ==> s.stops[j].last) && (s.stops[j].last ==> s.exitAsked)
  }

  lemma {:induction false} AskedFirstAlongRun(s: State, steps: seq<Step>)
    requires AskedFirst(s)
    ensures Exec(s, steps).Some? ==> AskedFirst(Exec(s, steps).value)
    decreases |steps|
  {
    if steps != [] && Enabled(s, steps[0]) {
      AskedFirstAlongRun(Next(s, steps[0]), steps[1..]);
    }
  }

  /** In every reachable state: a thread whose Stop has returned has asked the loop to exit first. */
  lemma StopAsksBeforeReturning(room: nat, steps: seq<Step>, s: State, j: nat)
    requires Exec(Init(room), steps) == Some(s) && j < |s.stops| && s.stops[j].pc == Returned
    ensures s.exitAsked
  {
    AskedFirstAlongRun(Init(room), steps);
  }

  // ---------------------------------------------------------------- no lost wake-up

  predicate SomeoneOwes(s: State) {
    s.owing > 0 || s.work.owes || exists j :: 0 <= j < |s.stops| && s.stops[j].work.owes
  }

  predicate LoopWillSwap(s: State) {
    s.pc == Woken || s.pc == Draining || s.pc == Drained
  }

  /** A queued functor is always covered: by a byte in the channel, by a thread about to send one, or
      by a loop that is past its wake-up and before its swap. */
  predicate Covered(s: State) {
    s.pending != [] ==> s.bytes > 0 || SomeoneOwes(s) || LoopWillSwap(s)
  }

  /** Only a running loop, or a stopper processing a batch, has work in hand. */
  predicate Placed(s: State) {
    && s.room > 0
    && (s.pc != Running ==> s.work == IDLE)
    && (s.pc == Woken ==> s.bytes > 0)
    && (s.pc == Exited ==> s.exitAsked)
    && forall j :: 0 <= j < |s.stops| && s.stops[j].pc != Processing ==> s.stops[j].work == IDLE
  }

  lemma StopActKeepsCover(s: State, j: nat, a: Act)
    requires Placed(s) && Covered(s) && Enabled(s, StopAct(j, a))
    ensures Placed(Next(s, StopAct(j, a))) && Covered(Next(s, StopAct(j, a)))
  {
    var s' := Next(s, StopAct(j, a));
    assert s'.stops[j].work == ActWork(s.stops[j].work, a);
    if exists i :: 0 <= i < |s.stops| && i != j && s.stops[i].work.owes {
      var i :| 0 <= i < |s.stops| && i != j && s.stops[i].work.owes;
      assert s'.stops[i] == s.stops[i];
    }
  }

  lemma StopStepKeepsCover(s: State, step: Step)
    requires Placed(s) && Covered(s) && Enabled(s, step)
    requires step.StopEnter? || step.StopCheck? || step.StopSwap? || step.StopDone?
    ensures Placed(Next(s, step)) && Covered(Next(s, step))
  {
    var s' := Next(s, step);
    if !step.StopSwap? {
      OwesElsewhere(s, s');
    }
  }

  lemma StepKeepsCover(s: State, step: Step)
    requires Placed(s) && Covered(s) && Enabled(s, step)
    ensures Placed(Next(s, step)) && Covered(Next(s, step))
  {
    match step
    case StopAct(j, a) => StopActKeepsCover(s, j, a);
    case StopCheck(j) => StopStepKeepsCover(s, step);
    case StopSwap(j) => StopStepKeepsCover(s, step);
    case StopDone(j) => StopStepKeepsCover(s, step);
    case StopEnter => StopStepKeepsCover(s, step);
    case _ =>
  }

  /** A stopper whose work does not change cannot stop anybody from owing a notification. */
  lemma OwesElsewhere(s: State, s': State)
    requires |s.stops| <= |s'.stops|
    requires forall i :: 0 <= i < |s.stops| ==> s'.stops[i].work == s.stops[i].work
    requires s'.owing == s.owing && s'.work == s.work
    ensures SomeoneOwes(s) ==> SomeoneOwes(s')
  {
    if exists i :: 0 <= i < |s.stops| && s.stops[i].work.owes {
      var i :| 0 <= i < |s.stops| && s.stops[i].work.owes;
      assert s'.stops[i].work.owes;
    }
  }

  lemma {:induction false} CoverAlongRun(s: State, steps: seq<Step>)
    requires Placed(s) && Covered(s)
    ensures Exec(s, steps).Some? ==> Placed(Exec(s, steps).value) && Covered(Exec(s, steps).value)
    decreases |steps|
  {
    if steps != [] && Enabled(s, steps[0]) {
      StepKeepsCover(s, steps[0]);
      CoverAlongRun(Next(s, steps[0]), steps[1..]);
    }
  }

  /** No lost wake-up, in every reachable interleaving, whatever the channel capacity. */
  lemma NoLostWakeup(room: nat, steps: seq<Step>, s: State)
    requires room > 0
    requires Exec(Init(room), steps) == Some(s)
    ensures s.pending != [] ==> s.bytes > 0 || SomeoneOwes(s) || LoopWillSwap(s)
  {
    CoverAlongRun(Init(room), steps);
  }

  // ---------------------------------------------------------------- exactly once

  /** How many copies of `t` the threads inside Stop have swapped out and not started. */
  function Held(xs: seq<Stopper>, t: Task): nat {
    if xs == [] then 0 else multiset(xs[0].work.batch)[t] + Held(xs[1..], t)
  }

  lemma {:induction false} HeldUpdate(xs: seq<Stopper>, j: nat, x: Stopper, t: Task)
    requires j < |xs|
    ensures Held(xs[j := x], t) + multiset(xs[j].work.batch)[t] == Held(xs, t) + multiset(x.work.batch)[t]
  {
    if j == 0 {
      assert xs[0 := x][1..] == xs[1..];
    } else {
      assert xs[j := x][1..] == xs[1..][j - 1 := x];
      HeldUpdate(xs[1..], j - 1, x, t);
    }
  }

  lemma {:induction false} HeldSnoc(xs: seq<Stopper>, x: Stopper, t: Task)
    ensures Held(xs + [x], t) == Held(xs, t) + multiset(x.work.batch)[t]
  {
    if xs == [] {
      assert xs + [x] == [x];
    } else {
      assert (xs + [x])[1..] == xs[1..] + [x];
      HeldSnoc(xs[1..], x, t);
    }
  }

  /** Each queueing of `t` is matched by one start, or by one copy waiting in exactly one place. */
  predicate Conserved(s: State, t: Task) {
    multiset(s.enqueued)[t]
    == multiset(s.executed)[t] + multiset(s.work.batch)[t] + Held(s.stops, t) + multiset(s.pending)[t]
  }

  lemma ActConserves(w: Work, a: Act, t: Task)
    requires CanAct(w, a)
    ensures multiset(w.batch)[t]
         == multiset(ActWork(w, a).batch)[t] + (if a == Begin && w.batch[0] == t then 1 else 0)
  {
    if a == Begin {
      assert w.batch == [w.batch[0]] + w.batch[1..];
    }
  }

  lemma StopActConserves(s: State, j: nat, a: Act, t: Task)
    requires Conserved(s, t) && Enabled(s, StopAct(j, a))
    ensures Conserved(Next(s, StopAct(j, a)), t)
  {
    var x := s.stops[j];
    ActConserves(x.work, a, t);
    HeldUpdate(s.stops, j, x.(work := ActWork(x.work, a)), t);
  }

  lemma StopSwapConserves(s: State, j: nat, t: Task)
    requires Placed(s) && Conserved(s, t) && Enabled(s, StopSwap(j))
    ensures Conserved(Next(s, StopSwap(j)), t)
  {
    var x := s.stops[j];
    assert x.work == IDLE;
    HeldUpdate(s.stops, j, x.(pc := Processing, work := Work(s.pending, [], false)), t);
  }

  lemma StopCheckConserves(s: State, j: nat, t: Task)
    requires Conserved(s, t) && Enabled(s, StopCheck(j))
    ensures Conserved(Next(s, StopCheck(j)), t)
  {
    HeldUpdate(s.stops, j, Next(s, StopCheck(j)).stops[j], t);
  }

  lemma StopDoneConserves(s: State, j: nat, t: Task)
    requires Conserved(s, t) && Enabled(s, StopDone(j))
    ensures Conserved(Next(s, StopDone(j)), t)
  {
    HeldUpdate(s.stops, j, s.stops[j].(pc := Checking), t);
  }

  lemma LoopActConserves(s: State, a: Act, t: Task)
    requires Conserved(s, t) && Enabled(s, LoopAct(a))
    ensures Conserved(Next(s, LoopAct(a)), t)
  {
    ActConserves(s.work, a, t);
  }

  lemma StepConserves(s: State, step: Step, t: Task)
    requires Placed(s) && Conserved(s, t) && Enabled(s, step)
    ensures Conserved(Next(s, step), t)
  {
    if step.StopCheck? {
      StopCheckConserves(s, step.j, t);
    } else if step.StopSwap? {
      StopSwapConserves(s, step.j, t);
    } else if step.StopAct? {
      StopActConserves(s, step.j, step.b, t);
    } else if step.StopDone? {
      StopDoneConserves(s, step.j, t);
    } else if step.LoopAct? {
      LoopActConserves(s, step.a, t);
    } else if step.StopEnter? {
      HeldSnoc(s.stops, Stopper(Checking, false, IDLE), t);
    }
  }

  lemma {:induction false} ConservedAlongRun(s: State, steps: seq<Step>, t: Task)
    requires Placed(s) && Covered(s) && Conserved(s, t)
    ensures Exec(s, steps).Some? ==> Conserved(Exec(s, steps).value, t)
    decreases |steps|
  {
    if steps != [] && Enabled(s, steps[0]) {
      StepKeepsCover(s, steps[0]);
      StepConserves(s, steps[0], t);
      ConservedAlongRun(Next(s, steps[0]), steps[1..], t);
    }
  }

  /** However many threads drain the queue at once, no functor is lost and none runs twice. */
  lemma ExactlyOnce(room: nat, steps: seq<Step>, s: State, t: Task)
    requires room > 0
    requires Exec(Init(room), steps) == Some(s)
    ensures multiset(s.enqueued)[t]
         == multiset(s.executed)[t] + multiset(s.work.batch)[t] + Held(s.stops, t) + multiset(s.pending)[t]
  {
    ConservedAlongRun(Init(room), steps, t);
  }
}
