/** From `Send` to the wire: the task queue composed with the send path of one connection.

    `Send` queues a functor that runs SendInLoop with the buffer it captured.  `payload` gives that
    buffer for the functors that come from `Send` on this connection; all others leave it alone.  Any
    thread that drains the queue may run them, one inside `Stop` included. */
module SendOrder {
  import opened Options
  import opened Bytes
  import opened Tasks
  import opened LoopProtocol
  import opened LoopProgress
  import opened LoopOrder
  import opened SendPath

  datatype System = System(loop: State, conn: Conn)

  /** A step of the queue, with the result of the direct write it may make, or a socket event. */
  datatype Move = Queue(step: Step, k: int) | Socket(e: Event)

  function Payload(payload: map<nat, bytes>, t: Task): bytes {
    if t.id in payload then payload[t.id] else []
  }

  function Payloads(payload: map<nat, bytes>, ts: seq<Task>): bytes {
    if ts == [] then [] else Payload(payload, ts[0]) + Payloads(payload, ts[1..])
  }

  lemma {:induction false} PayloadsConcat(payload: map<nat, bytes>, a: seq<Task>, b: seq<Task>)
    ensures Payloads(payload, a + b) == Payloads(payload, a) + Payloads(payload, b)
  {
    if a == [] {
      assert a + b == b;
    } else {
      assert (a + b)[1..] == a[1..] + b;
      PayloadsConcat(payload, a[1..], b);
    }
  }

  /** The step starts a functor queued by Send. */
  predicate RunsSend(payload: map<nat, bytes>, s: System, step: Step) {
    Enabled(s.loop, step) && Started(s.loop, step) != [] && Started(s.loop, step)[0].id in payload
  }

  predicate CanMove(payload: map<nat, bytes>, s: System, m: Move) {
    match m
    case Queue(step, k) =>
      && Enabled(s.loop, step)
      && (RunsSend(payload, s, step) ==> -1 <= k <= |payload[Started(s.loop, step)[0].id]|)
    case Socket(e) => !e.Sending? && Possible(s.conn, e)
  }

  function Moved(payload: map<nat, bytes>, s: System, m: Move): System
    requires CanMove(payload, s, m)
  {
    match m
    case Queue(step, k) =>
      System(Next(s.loop, step),
             if RunsSend(payload, s, step) then SendInLoop(s.conn, payload[Started(s.loop, step)[0].id], k) else s.conn)
    case Socket(e) => s.(conn := After(s.conn, e))
  }

  function Play(payload: map<nat, bytes>, s: System, ms: seq<Move>): Option<System>
    decreases |ms|
  {
    if ms == [] then Some(s)
    else if CanMove(payload, s, ms[0]) then Play(payload, Moved(payload, s, ms[0]), ms[1..])
    else None
  }

  /** The part of a play that the queue sees. */
  function QueueSteps(ms: seq<Move>): seq<Step> {
    if ms == [] then []
    else (if ms[0].Queue? then [ms[0].step] else []) + QueueSteps(ms[1..])
  }

  lemma {:induction false} PlayRunsQueue(payload: map<nat, bytes>, s: System, ms: seq<Move>)
    requires Play(payload, s, ms).Some?
    ensures Exec(s.loop, QueueSteps(ms)) == Some(Play(payload, s, ms).value.loop)
    decreases |ms|
  {
    if ms != [] {
      PlayRunsQueue(payload, Moved(payload, s, ms[0]), ms[1..]);
      var rest := QueueSteps(ms[1..]);
      match ms[0]
      case Queue(step, k) => ExecStep(s.loop, step, rest);
      case Socket(e) => assert [] + rest == rest;
    }
  }

  // ---------------------------------------------------------------- what holds in whatever order functors start

  predicate Good(payload: map<nat, bytes>, s: System) {
    Sound(s.conn) && s.conn.handed == Payloads(payload, s.loop.executed)
  }

  lemma QueueKeepsGood(payload: map<nat, bytes>, s: System, step: Step, k: int)
    requires Good(payload, s) && CanMove(payload, s, Queue(step, k))
    ensures Good(payload, Moved(payload, s, Queue(step, k)))
  {
    StepHistory(s.loop, step);
    var ts := Started(s.loop, step);
    PayloadsConcat(payload, s.loop.executed, ts);
    hide Next, Enabled, Sound, SendInLoop;
    if ts != [] {
      StartsOne(s.loop, step);
      assert Payloads(payload, ts) == Payload(payload, ts[0]) + [];
    }
    if RunsSend(payload, s, step) {
      SendSound(s.conn, payload[ts[0].id], k);
      SendHands(s.conn, payload[ts[0].id], k);
    }
  }

  lemma StartsOne(s: State, step: Step)
    requires Enabled(s, step)
    ensures |Started(s, step)| <= 1
  {
  }

  lemma SendHands(c: Conn, buf: bytes, k: int)
    requires -1 <= k <= |buf|
    ensures SendInLoop(c, buf, k).handed == c.handed + buf
  {
  }

  lemma MoveKeepsGood(payload: map<nat, bytes>, s: System, m: Move)
    requires Good(payload, s) && CanMove(payload, s, m)
    ensures Good(payload, Moved(payload, s, m))
  {
    match m
    case Socket(e) => StepSound(s.conn, e);
    case Queue(step, k) => QueueKeepsGood(payload, s, step, k);
  }

  lemma {:induction false} PlayKeepsGood(payload: map<nat, bytes>, s: System, ms: seq<Move>)
    requires Good(payload, s)
    ensures Play(payload, s, ms).Some? ==> Good(payload, Play(payload, s, ms).value)
    decreases |ms|
  {
    if ms != [] && CanMove(payload, s, ms[0]) {
      MoveKeepsGood(payload, s, ms[0]);
      PlayKeepsGood(payload, Moved(payload, s, ms[0]), ms[1..]);
    }
  }

  /** In every reachable state, stoppers or not: the bytes on the wire and in the send buffer are the
      buffers in the order their functors started. */
  lemma WireInStartOrder(payload: map<nat, bytes>, room: nat, ms: seq<Move>, s: System)
    requires Play(payload, System(Init(room), FRESH), ms) == Some(s)
    ensures s.conn.wire + s.conn.pending == Payloads(payload, s.loop.executed)
  {
    assert Good(payload, System(Init(room), FRESH));
    PlayKeepsGood(payload, System(Init(room), FRESH), ms);
  }

  // ---------------------------------------------------------------- when that is the order of the calls

  /** In every state reached without an overlapping swap, whatever the threads, the partial writes and
      the write errors: the bytes on the wire, the send buffer, and the buffers still travelling through
      the queue make up the buffers in the order `Send` queued them.  So the wire is a prefix of that. */
  lemma EndToEndOrder(payload: map<nat, bytes>, room: nat, ms: seq<Move>, s: System)
    requires room > 0 && Play(payload, System(Init(room), FRESH), ms) == Some(s)
    requires NoOverlap(Init(room), QueueSteps(ms))
    ensures s.conn.wire + s.conn.pending
            + Payloads(payload, InHand(s.loop)) + Payloads(payload, s.loop.pending)
         == Payloads(payload, s.loop.enqueued)
    ensures s.conn.wire <= Payloads(payload, s.loop.enqueued)
  {
    var s0 := System(Init(room), FRESH);
    PlayRunsQueue(payload, s0, ms);
    LoopIsFifo(room, QueueSteps(ms), s.loop);
    WireInStartOrder(payload, room, ms, s);
    PayloadsConcat(payload, s.loop.executed + InHand(s.loop), s.loop.pending);
    PayloadsConcat(payload, s.loop.executed, InHand(s.loop));
    hide *;
    PrefixOfSum(s.conn.wire, s.conn.pending, Payloads(payload, InHand(s.loop)), Payloads(payload, s.loop.pending));
  }

  lemma PrefixOfSum(w: bytes, x: bytes, y: bytes, z: bytes)
    ensures w <= w + x + y + z
  {
    assert w + x + y + z == w + (x + y + z);
  }

  lemma AtRestNothingInHand(s: State)
    requires Placed(s) && Quiescent(s)
    ensures InHand(s) == []
  {
    QuiescentLoop(s);
    forall j | 0 <= j < |s.stops| ensures s.stops[j].work.batch == [] {
      QuiescentStopper(s, j);
    }
    BatchesEmpty(s.stops);
  }

  /** Once no thread can step, everything sent is on the wire, or waiting, watched, in the send buffer, or
      still in the queue of a loop that Stop made exit. */
  lemma AtRestAllHanded(payload: map<nat, bytes>, room: nat, ms: seq<Move>, s: System)
    requires room > 0 && Play(payload, System(Init(room), FRESH), ms) == Some(s)
    requires NoOverlap(Init(room), QueueSteps(ms)) && Quiescent(s.loop)
    ensures s.conn.wire + s.conn.pending + Payloads(payload, s.loop.pending) == Payloads(payload, s.loop.enqueued)
    ensures !s.loop.exitAsked ==> s.loop.pending == []
    ensures s.conn.status == Connected && s.conn.pending != [] ==> s.conn.registered.write
  {
    var s0 := System(Init(room), FRESH);
    assert Good(payload, s0);
    EndToEndOrder(payload, room, ms, s);
    PlayKeepsGood(payload, s0, ms);
    PlayRunsQueue(payload, s0, ms);
    CoverAlongRun(Init(room), QueueSteps(ms));
    AtRestNothingInHand(s.loop);
    RestMeansTaken(s.loop);
    assert s.conn.wire + s.conn.pending + [] == s.conn.wire + s.conn.pending;
  }

  lemma RestMeansTaken(s: State)
    requires Placed(s) && Covered(s) && Quiescent(s)
    ensures !s.exitAsked ==> s.pending == []
  {
    QuiescentLoop(s);
    forall j | 0 <= j < |s.stops| ensures s.stops[j].work == IDLE {
      QuiescentStopper(s, j);
    }
    assert !SomeoneOwes(s);
  }

  // ---------------------------------------------------------------- a send overtaken

  /** Any run of the queue can be played, every direct write failing. */
  lemma {:induction false} PlayAlong(payload: map<nat, bytes>, s: System, steps: seq<Step>)
    returns (ms: seq<Move>, end: System)
    requires Exec(s.loop, steps).Some?
    ensures Play(payload, s, ms) == Some(end) && QueueSteps(ms) == steps
    ensures end.loop == Exec(s.loop, steps).value
    decreases |steps|
  {
    if steps == [] {
      ms, end := [], s;
    } else {
      var m := Queue(steps[0], -1);
      var rest;
      rest, end := PlayAlong(payload, Moved(payload, s, m), steps[1..]);
      ms := [m] + rest;
      assert ms[1..] == rest && steps == [steps[0]] + steps[1..];
    }
  }

  /** Two sends, the second taken by a thread in Stop while the loop holds the first in its batch: their
      bytes leave in reverse. */
  lemma SendsReversed(payload: map<nat, bytes>, a: Task, b: Task) returns (ms: seq<Move>, s: System)
    ensures Play(payload, System(Init(1), FRESH), ms) == Some(s) && s.loop.enqueued == [a, b]
    ensures s.conn.wire + s.conn.pending == Payload(payload, b) + Payload(payload, a)
  {
    var steps, loop := StopOvertakes(a, b);
    ms, s := PlayAlong(payload, System(Init(1), FRESH), steps);
    WireInStartOrder(payload, 1, ms, s);
    assert Payloads(payload, [a]) == Payload(payload, a) + [];
    assert [b, a][1..] == [a];
  }
}
