/** The life of connections on the interleaved loops of LoopProtocol.

    `jobs` tells which functor on a connection a task stands for; all other tasks leave connections
    alone.  Running functors may queue further ones, on their own loop as they run and on others by
    Call.  Any thread that drains a queue may run them, one inside `Stop` included. */
module LoopLifecycle {
  import opened Options
  import opened Bytes
  import opened Tasks
  import opened Registry
  import Loop = LoopProtocol
  import Order = LoopOrder
  import Life = Lifecycle

  type Jobs = map<nat, Life.Functor>

  datatype System = System(loops: seq<Loop.State>, registry: Table, conns: map<int, Life.Conn>, crashed: bool)

  /** Accept is HandleNewConn, with the functor it queues; Call any other outside AsyncCall; Turn a step of
      loop `l`, of a thread in AsyncCall or of one in Stop, `k` being the result of a direct write. */
  datatype Move =
    | Accept(id: int, l: nat, t: Task)
    | Call(l: nat, t: Task)
    | Turn(l: nat, step: Loop.Step, k: int)
    | Event(e: Life.Step)

  function Init(count: nat, room: nat): System {
    System(seq(count, i => Loop.Init(room)), map[], map[], false)
  }

  /** The table and the connections, without queues. */
  function Bare(s: System): Life.State {
    Life.State(s.registry, s.conns, [], s.crashed)
  }

  function With(loops: seq<Loop.State>, r: Life.State): System {
    System(loops, r.registry, r.conns, r.crashed)
  }

  /** Close queues a functor on the loop of its connection; Send does while the connection is up. */
  predicate Proper(jobs: Jobs, s: System, l: nat, t: Task) {
    t.id in jobs ==>
      var f := jobs[t.id];
      && !f.Start? && f.id in s.conns && s.conns[f.id].loop == l
      && (f.Send? ==> s.conns[f.id].io.status == Life.SendPath.Connected)
  }

  /** A functor that starts can run. */
  predicate Runnable(jobs: Jobs, s: System, t: Task, k: int) {
    t.id in jobs ==>
      var f := jobs[t.id];
      f.id in s.conns && (f.Send? ==> -1 <= k <= |f.buf|)
  }

  predicate CanTurn(s: System, l: nat, step: Loop.Step) {
    l < |s.loops| && Loop.Enabled(s.loops[l], step)
  }

  predicate CanMove(jobs: Jobs, s: System, m: Move) {
    match m
    case Accept(id, l, t) => id !in s.conns && l < |s.loops| && t.id in jobs && jobs[t.id] == Life.Start(id)
    case Call(l, t) => l < |s.loops| && Proper(jobs, s, l, t)
    case Event(e) => (e.Readable? || e.Writable? || e.Find?) && Life.Enabled(Bare(s), e)
    case Turn(l, step, k) =>
      && CanTurn(s, l, step) && !step.Enqueue?
      && (var qs := Loop.Queued(s.loops[l], step); qs != [] ==> Proper(jobs, s, l, qs[0]))
      && (var ts := Loop.Started(s.loops[l], step); ts != [] ==> Runnable(jobs, s, ts[0], k))
  }

  function Turned(s: System, l: nat, step: Loop.Step): seq<Loop.State>
    requires CanTurn(s, l, step)
  {
    s.loops[l := Loop.Next(s.loops[l], step)]
  }

  /** The loops take their own steps; only an accept, a functor that starts or an event touches the table
      and the connections. */
  function Moved(jobs: Jobs, s: System, m: Move): System
    requires CanMove(jobs, s, m)
  {
    match m
    case Accept(id, l, t) =>
      System(Turned(s, l, Loop.Enqueue(t)), Insert(s.registry, id),
             s.conns[id := Life.Conn(l, Life.SendPath.FRESH, [])], s.crashed)
    case Call(l, t) => s.(loops := Turned(s, l, Loop.Enqueue(t)))
    case Event(e) => With(s.loops, Life.Next(Bare(s), e))
    case Turn(l, step, k) =>
      var ts := Loop.Started(s.loops[l], step);
      if ts != [] && ts[0].id in jobs
      then With(Turned(s, l, step), Life.Run(Bare(s), jobs[ts[0].id], k))
      else s.(loops := Turned(s, l, step))
  }

  function Play(jobs: Jobs, s: System, ms: seq<Move>): Option<System>
    decreases |ms|
  {
    if ms == [] then Some(s)
    else if CanMove(jobs, s, ms[0]) then Play(jobs, Moved(jobs, s, ms[0]), ms[1..])
    else None
  }

  /** The move takes functors from a queue while others of that loop still wait in a batch. */
  predicate Overtakes(s: System, m: Move) {
    m.Turn? && m.l < |s.loops| && Order.Overlaps(s.loops[m.l], m.step)
  }

  predicate NoOvertaking(jobs: Jobs, s: System, ms: seq<Move>)
    decreases |ms|
  {
    ms != [] && CanMove(jobs, s, ms[0]) ==>
      !Overtakes(s, ms[0]) && NoOvertaking(jobs, Moved(jobs, s, ms[0]), ms[1..])
  }

  // ---------------------------------------------------------------- each loop reduced to one queue

  /** The connection functors among the tasks of a queue. */
  function Functors(jobs: Jobs, ts: seq<Task>): seq<Life.Functor> {
    if ts == [] then []
    else (if ts[0].id in jobs then [jobs[ts[0].id]] else []) + Functors(jobs, ts[1..])
  }

  /** What a loop has still to run: the batch in hand, whoever holds it, then its queue. */
  function Ahead(jobs: Jobs, s: Loop.State): seq<Life.Functor> {
    Functors(jobs, Order.InHand(s) + s.pending)
  }

  function Queues(jobs: Jobs, loops: seq<Loop.State>): (r: seq<seq<Life.Functor>>)
    ensures |r| == |loops| && forall l :: 0 <= l < |loops| ==> r[l] == Ahead(jobs, loops[l])
  {
    seq(|loops|, l requires 0 <= l < |loops| => Ahead(jobs, loops[l]))
  }

  function Reduced(jobs: Jobs, s: System): Life.State {
    Bare(s).(queues := Queues(jobs, s.loops))
  }

  function CallOf(jobs: Jobs, t: Task): Option<Life.Step> {
    if t.id !in jobs then None else
    match jobs[t.id]
    case Start(_) => None
    case Close(id) => Some(Life.CallClose(id))
    case Send(id, buf) => Some(Life.CallSend(id, buf))
  }

  /** The step of the reduced system that the move stands for, if any. */
  function Effect(jobs: Jobs, s: System, m: Move): Option<Life.Step> {
    match m
    case Accept(id, l, _) => Some(Life.Accept(id, l))
    case Call(_, t) => CallOf(jobs, t)
    case Event(e) => Some(e)
    case Turn(l, step, k) =>
      if !CanTurn(s, l, step) then None else
      var ts, qs := Loop.Started(s.loops[l], step), Loop.Queued(s.loops[l], step);
      if ts != [] then (if ts[0].id in jobs then Some(Life.RunHead(l, k)) else None)
      else if qs != [] then CallOf(jobs, qs[0])
      else None
  }

  /** Reduced to one queue per loop, the move is the step that Effect names, or changes nothing. */
  predicate Refines(jobs: Jobs, s: System, m: Move)
    requires CanMove(jobs, s, m)
  {
    match Effect(jobs, s, m)
    case None => Reduced(jobs, Moved(jobs, s, m)) == Reduced(jobs, s)
    case Some(e) =>
      Life.Enabled(Reduced(jobs, s), e) && Reduced(jobs, Moved(jobs, s, m)) == Life.Next(Reduced(jobs, s), e)
  }

  predicate LoopGood(s: Loop.State) {
    Loop.Placed(s) && Loop.Covered(s) && Order.OneBatch(s)
  }

  ghost predicate Good(jobs: Jobs, s: System) {
    && Life.Inv(Reduced(jobs, s))
    && forall l :: 0 <= l < |s.loops| ==> LoopGood(s.loops[l])
  }

  lemma {:induction false} FunctorsConcat(jobs: Jobs, a: seq<Task>, b: seq<Task>)
    ensures Functors(jobs, a + b) == Functors(jobs, a) + Functors(jobs, b)
  {
    if a == [] {
      assert a + b == b;
    } else {
      assert (a + b)[1..] == a[1..] + b && (a + b)[0] == a[0];
      FunctorsConcat(jobs, a[1..], b);
    }
  }

  /** Without overlap a step takes from the front of what is ahead, or adds at the back. */
  lemma AheadAdvances(jobs: Jobs, s: Loop.State, step: Loop.Step)
    requires LoopGood(s) && Loop.Enabled(s, step) && !Order.Overlaps(s, step)
    ensures LoopGood(Loop.Next(s, step))
    ensures Ahead(jobs, s) + Functors(jobs, Loop.Queued(s, step))
         == Functors(jobs, Loop.Started(s, step)) + Ahead(jobs, Loop.Next(s, step))
  {
    Order.StepAdvances(s, step);
    Loop.StepKeepsCover(s, step);
    var s' := Loop.Next(s, step);
    FunctorsConcat(jobs, Order.InHand(s) + s.pending, Loop.Queued(s, step));
    FunctorsConcat(jobs, Loop.Started(s, step), Order.InHand(s') + s'.pending);
  }

  lemma OneFunctor(jobs: Jobs, t: Task)
    ensures Functors(jobs, [t]) == if t.id in jobs then [jobs[t.id]] else []
  {
    assert [t][1..] == [];
  }

  lemma OneAtATime(s: Loop.State, step: Loop.Step)
    requires Loop.Enabled(s, step)
    ensures |Loop.Started(s, step)| + |Loop.Queued(s, step)| <= 1
  {
  }

  /** The queues after a step of loop `l`. */
  lemma QueuesAfter(jobs: Jobs, s: System, l: nat, step: Loop.Step)
    requires CanTurn(s, l, step)
    ensures Queues(jobs, Turned(s, l, step)) == Queues(jobs, s.loops)[l := Ahead(jobs, Loop.Next(s.loops[l], step))]
  {
  }

  // ---------------------------------------------------------------- every move is a step of Lifecycle, or none

  lemma AcceptRefines(jobs: Jobs, s: System, id: int, l: nat, t: Task)
    requires Good(jobs, s) && CanMove(jobs, s, Accept(id, l, t))
    ensures Refines(jobs, s, Accept(id, l, t))
  {
    hide Ahead, Functors, Life.Inv, LoopGood;
    AheadAdvances(jobs, s.loops[l], Loop.Enqueue(t));
    OneFunctor(jobs, t);
    QueuesAfter(jobs, s, l, Loop.Enqueue(t));
    assert Functors(jobs, []) + Ahead(jobs, Loop.Next(s.loops[l], Loop.Enqueue(t)))
        == Ahead(jobs, Loop.Next(s.loops[l], Loop.Enqueue(t))) by {
      NoFunctor(jobs);
    }
  }

  lemma NoFunctor(jobs: Jobs)
    ensures Functors(jobs, []) == []
  {
  }

  /** A proper call by anybody is a call in the reduced system. */
  lemma CallReduces(jobs: Jobs, s: System, l: nat, t: Task, q: seq<Life.Functor>)
    requires l < |s.loops| && Proper(jobs, s, l, t) && Ahead(jobs, s.loops[l]) + Functors(jobs, [t]) == q
    ensures var r := Reduced(jobs, s).(queues := Queues(jobs, s.loops)[l := q]);
      match CallOf(jobs, t)
      case None => r == Reduced(jobs, s)
      case Some(e) => Life.Enabled(Reduced(jobs, s), e) && Life.Next(Reduced(jobs, s), e) == r
  {
    hide Ahead, Functors;
    OneFunctor(jobs, t);
    if t.id !in jobs {
      assert q == Ahead(jobs, s.loops[l]);
    }
  }

  lemma CallRefines(jobs: Jobs, s: System, l: nat, t: Task)
    requires Good(jobs, s) && CanMove(jobs, s, Call(l, t))
    ensures Refines(jobs, s, Call(l, t))
  {
    AheadAdvances(jobs, s.loops[l], Loop.Enqueue(t));
    NoFunctor(jobs);
    QueuesAfter(jobs, s, l, Loop.Enqueue(t));
    hide Ahead, Functors, LoopGood, Life.Next, Life.Enabled, CallOf, Proper;
    CallReduces(jobs, s, l, t, Ahead(jobs, Loop.Next(s.loops[l], Loop.Enqueue(t))));
  }

  /** A functor at the head of the reduced queue is what RunHead runs; running does not look at queues. */
  lemma StartReduces(jobs: Jobs, s: System, l: nat, f: Life.Functor, k: int, q: seq<Life.Functor>)
    requires l < |s.loops| && f.id in s.conns && (f.Send? ==> -1 <= k <= |f.buf|)
    requires Ahead(jobs, s.loops[l]) == [f] + q
    ensures Life.Enabled(Reduced(jobs, s), Life.RunHead(l, k))
    ensures Life.Next(Reduced(jobs, s), Life.RunHead(l, k))
         == Life.Run(Bare(s), f, k).(queues := Queues(jobs, s.loops)[l := q])
  {
    hide Ahead, Life.Ran;
    assert Queues(jobs, s.loops)[l] == [f] + q && ([f] + q)[1..] == q;
  }

  /** A turn starts one functor, queues one, or does neither; `q` is what then lies ahead. */
  lemma TurnAhead(jobs: Jobs, s: System, l: nat, step: Loop.Step) returns (q: seq<Life.Functor>)
    requires CanTurn(s, l, step) && LoopGood(s.loops[l]) && !Order.Overlaps(s.loops[l], step)
    ensures Queues(jobs, Turned(s, l, step)) == Queues(jobs, s.loops)[l := q]
    ensures var ts, qs := Loop.Started(s.loops[l], step), Loop.Queued(s.loops[l], step);
      if ts != [] then qs == [] && Ahead(jobs, s.loops[l]) == Functors(jobs, [ts[0]]) + q
      else if qs != [] then Ahead(jobs, s.loops[l]) + Functors(jobs, [qs[0]]) == q
      else q == Ahead(jobs, s.loops[l])
  {
    q := Ahead(jobs, Loop.Next(s.loops[l], step));
    QueuesAfter(jobs, s, l, step);
    AheadAdvances(jobs, s.loops[l], step);
    OneAtATime(s.loops[l], step);
    NoFunctor(jobs);
    hide Ahead, Functors, LoopGood, Loop.Next, Loop.Enabled, Order.Overlaps, Loop.Started, Loop.Queued, Queues;
    var ts, qs := Loop.Started(s.loops[l], step), Loop.Queued(s.loops[l], step);
    assert Ahead(jobs, s.loops[l]) + [] == Ahead(jobs, s.loops[l]) && [] + q == q;
    assert ts != [] ==> ts == [ts[0]];
    assert qs != [] ==> qs == [qs[0]];
  }

  lemma StartRefines(jobs: Jobs, s: System, l: nat, step: Loop.Step, k: int, q: seq<Life.Functor>)
    requires CanMove(jobs, s, Turn(l, step, k)) && Loop.Started(s.loops[l], step) != []
    requires Ahead(jobs, s.loops[l]) == Functors(jobs, [Loop.Started(s.loops[l], step)[0]]) + q
    requires Queues(jobs, Turned(s, l, step)) == Queues(jobs, s.loops)[l := q]
    ensures Refines(jobs, s, Turn(l, step, k))
  {
    hide Ahead, Functors, Life.Run, Life.Next, Life.Enabled, Loop.Next, Loop.Started, Loop.Enabled, Queues, Turned;
    var t := Loop.Started(s.loops[l], step)[0];
    OneFunctor(jobs, t);
    assert [] + q == q;
    if t.id in jobs {
      StartReduces(jobs, s, l, jobs[t.id], k, q);
    }
  }

  lemma SpawnRefines(jobs: Jobs, s: System, l: nat, step: Loop.Step, k: int, q: seq<Life.Functor>)
    requires CanMove(jobs, s, Turn(l, step, k)) && Loop.Started(s.loops[l], step) == []
    requires var qs := Loop.Queued(s.loops[l], step);
      if qs != [] then Ahead(jobs, s.loops[l]) + Functors(jobs, [qs[0]]) == q else q == Ahead(jobs, s.loops[l])
    requires Queues(jobs, Turned(s, l, step)) == Queues(jobs, s.loops)[l := q]
    ensures Refines(jobs, s, Turn(l, step, k))
  {
    hide Ahead, Functors, Life.Next, Life.Enabled, Loop.Next, Loop.Started, Loop.Queued, Loop.Enabled;
    hide CallOf, Proper, Turned;
    var qs := Loop.Queued(s.loops[l], step);
    if qs != [] {
      CallReduces(jobs, s, l, qs[0], q);
    }
  }

  lemma TurnRefines(jobs: Jobs, s: System, l: nat, step: Loop.Step, k: int)
    requires Good(jobs, s) && CanMove(jobs, s, Turn(l, step, k)) && !Overtakes(s, Turn(l, step, k))
    ensures Refines(jobs, s, Turn(l, step, k))
  {
    hide LoopGood, Life.Inv, Refines, Loop.Started, Loop.Queued, Ahead, Functors;
    var q := TurnAhead(jobs, s, l, step);
    if Loop.Started(s.loops[l], step) == [] {
      SpawnRefines(jobs, s, l, step, k, q);
    } else {
      StartRefines(jobs, s, l, step, k, q);
    }
  }

  lemma EventRefines(jobs: Jobs, s: System, e: Life.Step)
    requires Good(jobs, s) && CanMove(jobs, s, Event(e))
    ensures Refines(jobs, s, Event(e))
  {
    hide Ahead, Functors;
  }

  /** A system of interleaved loops refines Lifecycle, in which each loop is a plain queue, as long as
      nobody overtakes a batch. */
  lemma MoveRefines(jobs: Jobs, s: System, m: Move)
    requires Good(jobs, s) && CanMove(jobs, s, m) && !Overtakes(s, m)
    ensures Refines(jobs, s, m)
  {
    hide Good, Refines, Overtakes;
    match m
    case Accept(id, l, t) => AcceptRefines(jobs, s, id, l, t);
    case Call(l, t) => CallRefines(jobs, s, l, t);
    case Event(e) => EventRefines(jobs, s, e);
    case Turn(l, step, k) => TurnRefines(jobs, s, l, step, k);
  }

  lemma MovedLoops(jobs: Jobs, s: System, m: Move)
    requires CanMove(jobs, s, m)
    ensures var loops := Moved(jobs, s, m).loops;
      if m.Event? then loops == s.loops
      else var step := if m.Turn? then m.step else Loop.Enqueue(m.t);
           CanTurn(s, m.l, step) && loops == Turned(s, m.l, step)
  {
    hide Life.Run, Life.Next, Proper, Runnable;
  }

  lemma LoopsStayGood(jobs: Jobs, s: System, m: Move)
    requires Good(jobs, s) && CanMove(jobs, s, m) && !Overtakes(s, m)
    ensures var s' := Moved(jobs, s, m); forall l :: 0 <= l < |s'.loops| ==> LoopGood(s'.loops[l])
  {
    MovedLoops(jobs, s, m);
    hide LoopGood, Moved, CanMove, Life.Inv;
    if !m.Event? {
      var step := if m.Turn? then m.step else Loop.Enqueue(m.t);
      AheadAdvances(jobs, s.loops[m.l], step);
    }
  }

  lemma MoveKeepsGood(jobs: Jobs, s: System, m: Move)
    requires Good(jobs, s) && CanMove(jobs, s, m) && !Overtakes(s, m)
    ensures Good(jobs, Moved(jobs, s, m))
  {
    MoveRefines(jobs, s, m);
    LoopsStayGood(jobs, s, m);
    hide Life.Inv, LoopGood, Reduced, Moved, CanMove, Effect;
    var e := Effect(jobs, s, m);
    if e.Some? {
      Life.StepKeepsInv(Reduced(jobs, s), e.value);
    }
  }

  lemma {:induction false} PlayKeepsGood(jobs: Jobs, s: System, ms: seq<Move>)
    requires Good(jobs, s) && NoOvertaking(jobs, s, ms)
    ensures Play(jobs, s, ms).Some? ==> Good(jobs, Play(jobs, s, ms).value)
    decreases |ms|
  {
    hide Good, CanMove, Moved, Overtakes;
    if ms != [] && CanMove(jobs, s, ms[0]) {
      MoveKeepsGood(jobs, s, ms[0]);
      PlayKeepsGood(jobs, Moved(jobs, s, ms[0]), ms[1..]);
    }
  }

  lemma InitIsGood(jobs: Jobs, count: nat, room: nat)
    requires room > 0
    ensures Good(jobs, Init(count, room))
  {
    var loops := Init(count, room).loops;
    forall l | 0 <= l < |loops| ensures LoopGood(loops[l]) && Ahead(jobs, loops[l]) == [] {
      assert loops[l] == Loop.Init(room);
    }
  }

  /** In every interleaving of any number of loops, producers, threads in Stop and socket events, down to
      single sends and receives on the wake channels, in which nobody overtakes a batch: a queued Start
      finds its connection in the table; each connection's callbacks are one connect, then messages, then
      closes; the table lists exactly the connections without a close callback; and a connection is read
      exactly between connect and close. */
  lemma OrderlyOnLoops(jobs: Jobs, count: nat, room: nat, ms: seq<Move>, s: System, id: int)
    requires room > 0 && Play(jobs, Init(count, room), ms) == Some(s) && NoOvertaking(jobs, Init(count, room), ms)
    ensures !s.crashed
    ensures id in s.conns ==> Life.Orderly(s.conns[id].trace)
    ensures Listed(s.registry, id) <==> id in s.conns && Life.OnClose !in s.conns[id].trace
    ensures id in s.conns ==>
      (s.conns[id].io.registered.read <==>
       Life.OnConnect in s.conns[id].trace && Life.OnClose !in s.conns[id].trace)
  {
    InitIsGood(jobs, count, room);
    PlayKeepsGood(jobs, Init(count, room), ms);
    Life.InvMeans(Reduced(jobs, s), id);
  }

  // ---------------------------------------------------------------- in whatever order functors start

  /** The table lists exactly the connections without a close callback. */
  ghost predicate Tabled(s: Life.State) {
    && Keyed(s.registry)
    && forall id :: Listed(s.registry, id) <==> id in s.conns && Life.OnClose !in s.conns[id].trace
  }

  lemma RunKeepsTable(r: Life.State, f: Life.Functor, k: int)
    requires Tabled(r) && f.id in r.conns && (f.Send? ==> -1 <= k <= |f.buf|)
    ensures Tabled(Life.Run(r, f, k))
  {
    hide Life.SendPath.SendInLoop, Life.SendPath.SetRead, Life.SendPath.HandleClose;
    var c, c' := r.conns[f.id], Life.Ran(r.conns[f.id], f, k);
    assert Life.OnClose in c'.trace <==> f.Close? || Life.OnClose in c.trace;
  }

  lemma EventKeepsTable(r: Life.State, e: Life.Step)
    requires Tabled(r) && Life.Enabled(r, e) && (e.Readable? || e.Writable? || e.Find?)
    ensures Tabled(Life.Next(r, e))
  {
    if e.Readable? && e.n == 0 {
      RunKeepsTable(r, Life.Close(e.id), 0);
    }
  }

  lemma MoveKeepsTable(jobs: Jobs, s: System, m: Move)
    requires Tabled(Bare(s)) && CanMove(jobs, s, m)
    ensures Tabled(Bare(Moved(jobs, s, m)))
  {
    hide Life.Run, Life.Next, Turned, Loop.Enabled, Proper;
    match m
    case Event(e) => EventKeepsTable(Bare(s), e);
    case Turn(l, step, k) =>
      var ts := Loop.Started(s.loops[l], step);
      if ts != [] && ts[0].id in jobs {
        RunKeepsTable(Bare(s), jobs[ts[0].id], k);
      }
    case _ =>
  }

  lemma {:induction false} PlayKeepsTable(jobs: Jobs, s: System, ms: seq<Move>)
    requires Tabled(Bare(s))
    ensures Play(jobs, s, ms).Some? ==> Tabled(Bare(Play(jobs, s, ms).value))
    decreases |ms|
  {
    hide Tabled, CanMove, Moved;
    if ms != [] && CanMove(jobs, s, ms[0]) {
      MoveKeepsTable(jobs, s, ms[0]);
      PlayKeepsTable(jobs, Moved(jobs, s, ms[0]), ms[1..]);
    }
  }

  /** In every reachable state, overtaking or not: a Start about to run finds no entry in the table exactly
      when its connection has already been closed. */
  lemma StartFindsExactly(jobs: Jobs, count: nat, room: nat, ms: seq<Move>, s: System, m: Move, t: Task, id: int)
    requires Play(jobs, Init(count, room), ms) == Some(s) && !s.crashed
    requires m.Turn? && CanMove(jobs, s, m) && Loop.Started(s.loops[m.l], m.step) == [t]
    requires t.id in jobs && jobs[t.id] == Life.Start(id)
    ensures Moved(jobs, s, m).crashed <==> Life.OnClose in s.conns[id].trace
  {
    PlayKeepsTable(jobs, Init(count, room), ms);
  }

  /** A play in which no thread enters Stop overtakes nobody. */
  lemma {:induction false} NobodyStopsNobodyOvertakes(jobs: Jobs, s: System, ms: seq<Move>)
    requires forall l :: 0 <= l < |s.loops| ==>
      Loop.Placed(s.loops[l]) && Loop.Covered(s.loops[l]) && s.loops[l].stops == []
    requires forall i :: 0 <= i < |ms| && ms[i].Turn? ==> ms[i].step != Loop.StopEnter
    ensures NoOvertaking(jobs, s, ms)
    decreases |ms|
  {
    if ms != [] && CanMove(jobs, s, ms[0]) {
      MovedLoops(jobs, s, ms[0]);
      hide CanMove, Moved;
      if !ms[0].Event? {
        AloneStays(s.loops[ms[0].l], if ms[0].Turn? then ms[0].step else Loop.Enqueue(ms[0].t));
      }
      hide Loop.Placed, Loop.Covered, Loop.Next, Order.Overlaps;
      NobodyStopsNobodyOvertakes(jobs, Moved(jobs, s, ms[0]), ms[1..]);
    }
  }

  lemma AloneStays(s: Loop.State, step: Loop.Step)
    requires Loop.Placed(s) && Loop.Covered(s) && s.stops == [] && Loop.Enabled(s, step) && step != Loop.StopEnter
    ensures var s' := Loop.Next(s, step); Loop.Placed(s') && Loop.Covered(s') && s'.stops == []
    ensures !Order.Overlaps(s, step)
  {
    Loop.StepKeepsCover(s, step);
  }

  // ---------------------------------------------------------------- a Start overtaken

  /** A step that neither starts nor queues a functor. */
  predicate Silent(step: Loop.Step) {
    !step.Enqueue? && !step.LoopAct? && !step.StopAct?
  }

  function Turns(steps: seq<Loop.Step>): seq<Move> {
    if steps == [] then [] else [Turn(0, steps[0], 0)] + Turns(steps[1..])
  }

  lemma PlayStep(jobs: Jobs, s: System, m: Move, s': System, rest: seq<Move>, end: System)
    requires CanMove(jobs, s, m) && Moved(jobs, s, m) == s' && Play(jobs, s', rest) == Some(end)
    ensures Play(jobs, s, [m] + rest) == Some(end)
  {
    assert ([m] + rest)[1..] == rest;
  }

  lemma {:induction false} PlaySilent(jobs: Jobs, s: System, steps: seq<Loop.Step>, q: Loop.State,
                                      rest: seq<Move>, end: System)
    requires |s.loops| == 1 && Loop.Exec(s.loops[0], steps) == Some(q)
    requires forall i :: 0 <= i < |steps| ==> Silent(steps[i])
    requires Play(jobs, s.(loops := [q]), rest) == Some(end)
    ensures Play(jobs, s, Turns(steps) + rest) == Some(end)
    decreases |steps|
  {
    if steps == [] {
      assert s.(loops := [q]) == s && Turns(steps) + rest == rest;
    } else {
      var m, s' := Turn(0, steps[0], 0), s.(loops := [Loop.Next(s.loops[0], steps[0])]);
      assert Loop.Started(s.loops[0], steps[0]) == [] && Loop.Queued(s.loops[0], steps[0]) == [];
      assert CanMove(jobs, s, m) && Moved(jobs, s, m) == s';
      hide CanMove, Moved, Loop.Next, Loop.Enabled;
      PlaySilent(jobs, s', steps[1..], q, rest, end);
      PlayStep(jobs, s, m, s', Turns(steps[1..]) + rest, end);
      assert Turns(steps) + rest == [m] + (Turns(steps[1..]) + rest);
    }
  }

  const START := Task(0, [])
  const CLOSE := Task(1, [])

  function StartAndClose(id: int): Jobs {
    map[0 := Life.Start(id), 1 := Life.Close(id)]
  }

  function Accepted(id: int, q: Loop.State): System {
    System([q], Insert(map[], id), map[id := Life.Conn(0, Life.SendPath.FRESH, [])], false)
  }

  function ClosedFirst(id: int, q: Loop.State): System {
    var c := Life.Ran(Accepted(id, q).conns[id], Life.Close(id), 0);
    System([q], Remove(Insert(map[], id), id), map[id := c], false)
  }

  lemma AcceptMoves(id: int)
    ensures var s, m := Init(1, 1), Accept(id, 0, START);
      CanMove(StartAndClose(id), s, m) && Moved(StartAndClose(id), s, m) == Accepted(id, Order.JustQueued(START))
  {
    Order.OvertakeLeads(START, CLOSE);
    assert map[][id := Life.Conn(0, Life.SendPath.FRESH, [])] == map[id := Life.Conn(0, Life.SendPath.FRESH, [])];
  }

  lemma CallMoves(id: int)
    ensures var s, m := Accepted(id, Order.InBatch(START)), Call(0, CLOSE);
      CanMove(StartAndClose(id), s, m) && Moved(StartAndClose(id), s, m) == Accepted(id, Order.Behind(START, CLOSE))
  {
    Order.OvertakeLeads(START, CLOSE);
  }

  lemma CloseMoves(id: int)
    ensures var s, m := Accepted(id, Order.TakenOver(START, CLOSE)), Turn(0, Loop.StopAct(0, Loop.Begin), 0);
      CanMove(StartAndClose(id), s, m)
      && Moved(StartAndClose(id), s, m) == ClosedFirst(id, Order.SecondFirst(START, CLOSE))
  {
    Order.OvertakeLeads(START, CLOSE);
    var c := Accepted(id, Order.TakenOver(START, CLOSE)).conns;
    assert c[id := Life.Ran(c[id], Life.Close(id), 0)] == map[id := Life.Ran(c[id], Life.Close(id), 0)];
  }

  lemma StartMoves(id: int)
    ensures var s, m := ClosedFirst(id, Order.SecondFirst(START, CLOSE)), Turn(0, Loop.LoopAct(Loop.Begin), 0);
      CanMove(StartAndClose(id), s, m) && Moved(StartAndClose(id), s, m).crashed
  {
    Order.OvertakeLeads(START, CLOSE);
  }

  lemma SilentRuns()
    ensures forall i :: 0 <= i < |Order.WAKEUP| ==> Silent(Order.WAKEUP[i])
    ensures forall i :: 0 <= i < |Order.TAKEOVER| ==> Silent(Order.TAKEOVER[i])
  {
  }

  lemma OneLoop(id: int, q: Loop.State, q': Loop.State)
    ensures Accepted(id, q).loops == [q] && Accepted(id, q').loops == [q']
    ensures Accepted(id, q') == Accepted(id, q).(loops := [q'])
  {
  }

  lemma CloseThenStart(id: int) returns (ms: seq<Move>, s: System)
    ensures Play(StartAndClose(id), Accepted(id, Order.Behind(START, CLOSE)), ms) == Some(s) && s.crashed
  {
    hide *;
    CloseMoves(id);
    StartMoves(id);
    Order.TakesOver(START, CLOSE);
    SilentRuns();
    OneLoop(id, Order.Behind(START, CLOSE), Order.TakenOver(START, CLOSE));
    var jobs, s3 := StartAndClose(id), Accepted(id, Order.Behind(START, CLOSE));
    var s4, s5 := Accepted(id, Order.TakenOver(START, CLOSE)), ClosedFirst(id, Order.SecondFirst(START, CLOSE));
    var close, start := Turn(0, Loop.StopAct(0, Loop.Begin), 0), Turn(0, Loop.LoopAct(Loop.Begin), 0);
    s := Moved(jobs, s5, start);
    PlayNone(jobs, s);
    PlayStep(jobs, s5, start, s, [], s);
    ms := [start] + [];
    PlayStep(jobs, s4, close, s5, ms, s);
    ms := [close] + ms;
    PlaySilent(jobs, s3, Order.TAKEOVER, Order.TakenOver(START, CLOSE), ms, s);
    ms := Turns(Order.TAKEOVER) + ms;
  }

  lemma PlayNone(jobs: Jobs, s: System)
    ensures Play(jobs, s, []) == Some(s)
  {
  }

  /** A connection is accepted and closed while the loop holds its Start in a batch, and a thread in Stop
      runs the Close first: Start then finds no entry in the table. */
  lemma StopCrashesStart(id: int) returns (ms: seq<Move>, s: System)
    ensures Play(StartAndClose(id), Init(1, 1), ms) == Some(s) && s.crashed
  {
    hide *;
    AcceptMoves(id);
    CallMoves(id);
    Order.WakesUp(START);
    SilentRuns();
    OneLoop(id, Order.JustQueued(START), Order.InBatch(START));
    var jobs, s1, s2 := StartAndClose(id), Accepted(id, Order.JustQueued(START)), Accepted(id, Order.InBatch(START));
    var s3 := Accepted(id, Order.Behind(START, CLOSE));
    ms, s := CloseThenStart(id);
    PlayStep(jobs, s2, Call(0, CLOSE), s3, ms, s);
    ms := [Call(0, CLOSE)] + ms;
    PlaySilent(jobs, s1, Order.WAKEUP, Order.InBatch(START), ms, s);
    ms := Turns(Order.WAKEUP) + ms;
    PlayStep(jobs, Init(1, 1), Accept(id, 0, START), s1, ms, s);
    ms := [Accept(id, 0, START)] + ms;
  }
}
