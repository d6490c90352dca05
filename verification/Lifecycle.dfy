/** The server's connection table and the life of its connections, over whole runs.

    Here each loop runs the functors queued on it first in, first out; LoopLifecycle puts the
    interleaved loops of LoopProtocol in their place.  Accepting a connection is one step, and so is
    each functor, each lookup by another part of the program and each socket event. */
module Lifecycle {
  import opened Options
  import opened Bytes
  import opened Registry
  import SendPath

  datatype Functor = Start(id: int) | Close(id: int) | Send(id: int, buf: bytes)

  datatype Callback = OnConnect | OnMessage | OnClose

  /** A connection: its loop, its socket state, and the user callbacks made for it so far. */
  datatype Conn = Conn(loop: nat, io: SendPath.Conn, trace: seq<Callback>)

  /** `crashed` records a queued Start that found no entry in the table. */
  datatype State = State(registry: Table, conns: map<int, Conn>, queues: seq<seq<Functor>>, crashed: bool)

  function Init(loops: nat): State {
    State(map[], map[], seq(loops, i => []), false)
  }

  datatype Step =
    | Accept(id: int, loop: nat)
    | CallClose(id: int)
    | CallSend(id: int, buf: bytes)
    | Find(form: Form, id: int)       // GetConnection, by anybody
    | RunHead(loop: nat, k: int)      // k: result of the direct write, for a Send
    | Readable(id: int, n: int)       // n: result of readv
    | Writable(id: int, w: int)       // w: result of write

  function Push(s: State, l: nat, f: Functor): State
    requires l < |s.queues|
  {
    s.(queues := s.queues[l := s.queues[l] + [f]])
  }

  /** What running a functor, or HandleClose, does to the connection itself. */
  function Ran(c: Conn, f: Functor, k: int): Conn
    requires f.Send? ==> -1 <= k <= |f.buf|
  {
    match f
    case Start(_) => c.(io := SendPath.SetRead(c.io, true), trace := c.trace + [OnConnect])
    case Close(_) => c.(io := SendPath.HandleClose(c.io), trace := c.trace + [OnClose])
    case Send(_, buf) => c.(io := SendPath.SendInLoop(c.io, buf, k))
  }

  /** Start goes through the table; a close callback erases the entry. */
  function Run(s: State, f: Functor, k: int): State
    requires f.id in s.conns && (f.Send? ==> -1 <= k <= |f.buf|)
  {
    if f.Start? && !Listed(s.registry, f.id) then s.(crashed := true)
    else s.(registry := if f.Close? then Remove(s.registry, f.id) else s.registry,
            conns := s.conns[f.id := Ran(s.conns[f.id], f, k)])
  }

  predicate Enabled(s: State, step: Step) {
    match step
    case Accept(id, l) => id !in s.conns && l < |s.queues|
    case CallClose(id) => id in s.conns && s.conns[id].loop < |s.queues|
    case CallSend(id, _) => id in s.conns && s.conns[id].loop < |s.queues|
    case Find(_, _) => true
    case RunHead(l, k) =>
      && l < |s.queues| && s.queues[l] != [] && s.queues[l][0].id in s.conns
      && (s.queues[l][0].Send? ==> -1 <= k <= |s.queues[l][0].buf|)
    case Readable(id, n) => id in s.conns && s.conns[id].io.registered.read
    case Writable(id, w) => id in s.conns && -1 <= w <= |s.conns[id].io.pending|
  }

  function Next(s: State, step: Step): State
    requires Enabled(s, step)
  {
    match step
    case Accept(id, l) =>
      Push(s.(registry := Insert(s.registry, id), conns := s.conns[id := Conn(l, SendPath.FRESH, [])]), l, Start(id))
    case CallClose(id) => Push(s, s.conns[id].loop, Close(id))
    case CallSend(id, buf) =>
      if s.conns[id].io.status == SendPath.Connected then Push(s, s.conns[id].loop, Send(id, buf)) else s
    case Find(form, id) => s.(registry := Probe(form, s.registry, id))
    case RunHead(l, k) => Run(s.(queues := s.queues[l := s.queues[l][1..]]), s.queues[l][0], k)
    case Readable(id, n) =>
      if n > 0 then s.(conns := s.conns[id := s.conns[id].(trace := s.conns[id].trace + [OnMessage])])
      else if n == 0 then Run(s, Close(id), 0)
      else s
    case Writable(id, w) => s.(conns := s.conns[id := s.conns[id].(io := SendPath.HandleWrite(s.conns[id].io, w))])
  }

  function Exec(s: State, steps: seq<Step>): Option<State>
    decreases |steps|
  {
    if steps == [] then Some(s)
    else if Enabled(s, steps[0]) then Exec(Next(s, steps[0]), steps[1..])
    else None
  }

  // ---------------------------------------------------------------- calls and events in full

  /** Send queues its functor on the loop of the connection while that is Connected, and does nothing
      otherwise; Close queues its functor in any case.  Neither touches the table or a connection. */
  lemma CallsExactly(s: State, id: int, buf: bytes)
    requires id in s.conns && s.conns[id].loop < |s.queues|
    ensures var l := s.conns[id].loop;
      && Next(s, CallClose(id)) == s.(queues := s.queues[l := s.queues[l] + [Close(id)]])
      && Next(s, CallSend(id, buf))
         == if s.conns[id].io.status != SendPath.Connected then s
            else s.(queues := s.queues[l := s.queues[l] + [Send(id, buf)]])
  {
  }

  /** A read makes one message callback when bytes have come, closes at the end of the stream, and an error
      does nothing. */
  lemma ReadsExactly(s: State, id: int, n: int)
    requires id in s.conns && s.conns[id].io.registered.read
    ensures var s' := Next(s, Readable(id, n));
      && s'.queues == s.queues && s'.crashed == s.crashed
      && (n < 0 ==> s' == s)
      && (n > 0 ==> s'.registry == s.registry
                    && s'.conns == s.conns[id := s.conns[id].(trace := s.conns[id].trace + [OnMessage])])
      && (n == 0 ==> s'.registry == s.registry - {id} && id in s'.conns
                     && s'.conns[id].trace == s.conns[id].trace + [OnClose]
                     && s'.conns[id].io.status == SendPath.Disconnected
                     && !s'.conns[id].io.registered.read && !s'.conns[id].io.registered.write)
  {
  }

  /** A write event that the kernel answers with `w` moves bytes and makes no callback. */
  lemma WritesExactly(s: State, id: int, w: int)
    requires id in s.conns && -1 <= w <= |s.conns[id].io.pending|
    ensures Next(s, Writable(id, w))
         == s.(conns := s.conns[id := s.conns[id].(io := SendPath.HandleWrite(s.conns[id].io, w))])
  {
  }

  /** An accepted connection is listed, has had no callback, and is Connected with nothing registered; its
      Start is queued behind all else on its loop. */
  lemma AcceptsExactly(s: State, id: int, l: nat)
    requires id !in s.conns && l < |s.queues|
    ensures var s' := Next(s, Accept(id, l));
      && s'.queues == s.queues[l := s.queues[l] + [Start(id)]] && s'.crashed == s.crashed
      && Listed(s'.registry, id) && s'.conns.Keys == s.conns.Keys + {id}
      && (forall k :: k in s.conns ==> s'.conns[k] == s.conns[k])
      && var c := s'.conns[id];
         c.loop == l && c.trace == [] && c.io.status == SendPath.Connected
         && !c.io.registered.read && !c.io.registered.write && c.io.pending == c.io.wire == c.io.handed == []
  {
  }

  /** The head of a queue is taken off and run: Start makes the connection callback and turns reading on, if
      it finds its entry; Close makes the close callback and erases the entry; Send makes none. */
  lemma RunsExactly(s: State, l: nat, k: int)
    requires l < |s.queues| && s.queues[l] != [] && s.queues[l][0].id in s.conns
    requires s.queues[l][0].Send? ==> -1 <= k <= |s.queues[l][0].buf|
    ensures var s', f := Next(s, RunHead(l, k)), s.queues[l][0];
      && s'.queues == s.queues[l := s.queues[l][1..]] && s'.conns.Keys == s.conns.Keys
      && (forall i :: i in s.conns && i != f.id ==> s'.conns[i] == s.conns[i])
      && var c, c' := s.conns[f.id], s'.conns[f.id];
         match f
         case Start(id) =>
           if !Listed(s.registry, id) then s'.crashed && c' == c && s'.registry == s.registry
           else c'.trace == c.trace + [OnConnect] && c'.io == SendPath.SetRead(c.io, true)
                && s'.registry == s.registry && s'.crashed == s.crashed
         case Close(id) =>
           c'.trace == c.trace + [OnClose] && c'.io == SendPath.HandleClose(c.io)
           && s'.registry == s.registry - {id} && s'.crashed == s.crashed
         case Send(_, buf) =>
           c'.trace == c.trace && c'.io == SendPath.SendInLoop(c.io, buf, k)
           && s'.registry == s.registry && s'.crashed == s.crashed
  {
    hide SendPath.SendInLoop, SendPath.SetRead, SendPath.HandleClose;
  }

  // ---------------------------------------------------------------- invariant

  /** One connection callback first, then messages, then closes, and nothing but closes after a close. */
  predicate Orderly(t: seq<Callback>) {
    && (t != [] ==> t[0] == OnConnect)
    && (forall i :: 0 < i < |t| ==> t[i] != OnConnect)
    && (forall i, j :: 0 <= i < j < |t| && t[i] == OnClose ==> t[j] == OnClose)
  }

  predicate NoStart(q: seq<Functor>, id: int) {
    forall i :: 0 <= i < |q| ==> q[i] != Start(id)
  }

  /** Exactly one Start of `id` is queued, and no Close of it ahead of that. */
  predicate StartAhead(q: seq<Functor>, id: int) {
    q != [] &&
    if q[0] == Start(id) then NoStart(q[1..], id) else q[0] != Close(id) && StartAhead(q[1..], id)
  }

  predicate Closed(t: seq<Callback>) {
    t != [] && t[|t| - 1] == OnClose
  }

  /** What holds of a connection, given its table entry and its loop's queue. */
  predicate ConnOk(id: int, c: Conn, listed: bool, q: seq<Functor>) {
    && c.io.registered.read == c.io.interest.read
    && Orderly(c.trace)
    && listed == !Closed(c.trace)
    && (if c.trace == [] then StartAhead(q, id) else NoStart(q, id))
    && (c.io.interest.read <==> c.trace != [] && !Closed(c.trace))
  }

  /** Functors are queued on the loop of an existing connection. */
  predicate Owned(s: State) {
    forall l, i :: 0 <= l < |s.queues| && 0 <= i < |s.queues[l]| ==>
      s.queues[l][i].id in s.conns && s.conns[s.queues[l][i].id].loop == l
  }

  ghost predicate Inv(s: State) {
    && !s.crashed && Owned(s) && Keyed(s.registry)
    && (forall id :: Listed(s.registry, id) ==> id in s.conns)
    && forall id :: id in s.conns ==>
         s.conns[id].loop < |s.queues| && ConnOk(id, s.conns[id], Listed(s.registry, id), s.queues[s.conns[id].loop])
  }

  // ---------------------------------------------------------------- queues and traces

  lemma {:induction false} StartAheadPush(q: seq<Functor>, f: Functor, id: int)
    requires StartAhead(q, id) && f != Start(id)
    ensures StartAhead(q + [f], id)
  {
    assert (q + [f])[0] == q[0] && (q + [f])[1..] == q[1..] + [f];
    if q[0] != Start(id) {
      StartAheadPush(q[1..], f, id);
    }
  }

  lemma {:induction false} StartAheadNew(q: seq<Functor>, id: int)
    requires forall i :: 0 <= i < |q| ==> q[i].id != id
    ensures StartAhead(q + [Start(id)], id)
  {
    if q == [] {
      assert q + [Start(id)] == [Start(id)];
    } else {
      assert (q + [Start(id)])[1..] == q[1..] + [Start(id)];
      StartAheadNew(q[1..], id);
    }
  }

  lemma PushOk(id: int, c: Conn, listed: bool, q: seq<Functor>, f: Functor)
    requires ConnOk(id, c, listed, q) && f != Start(id)
    ensures ConnOk(id, c, listed, q + [f])
  {
    if c.trace == [] {
      StartAheadPush(q, f, id);
    }
  }

  /** Popping a functor of another connection changes nothing for this one. */
  lemma PopOtherOk(id: int, c: Conn, listed: bool, q: seq<Functor>)
    requires ConnOk(id, c, listed, q) && q != [] && q[0].id != id
    ensures ConnOk(id, c, listed, q[1..])
  {
  }

  lemma OrderlySnoc(t: seq<Callback>, cb: Callback)
    requires Orderly(t)
    requires if cb == OnConnect then t == [] else t != [] && (cb == OnMessage ==> !Closed(t))
    ensures Orderly(t + [cb])
  {
    if t != [] && !Closed(t) {
      assert forall i :: 0 <= i < |t| - 1 && t[i] == OnClose ==> t[|t| - 1] == OnClose;
    }
  }

  // ---------------------------------------------------------------- steps

  lemma CloseOk(id: int, c: Conn, listed: bool, q: seq<Functor>)
    requires ConnOk(id, c, listed, q) && c.trace != []
    ensures ConnOk(id, Ran(c, Close(id), 0), false, q)
  {
    OrderlySnoc(c.trace, OnClose);
  }

  lemma SendKeepsRead(c: SendPath.Conn, buf: bytes, k: int)
    requires -1 <= k <= |buf| && c.registered.read == c.interest.read
    ensures var c' := SendPath.SendInLoop(c, buf, k);
            c'.interest.read == c.interest.read && c'.registered.read == c'.interest.read
  {
  }

  lemma WriteKeepsRead(c: SendPath.Conn, w: int)
    requires -1 <= w <= |c.pending| && c.registered.read == c.interest.read
    ensures var c' := SendPath.HandleWrite(c, w);
            c'.interest.read == c.interest.read && c'.registered.read == c'.interest.read
  {
  }

  /** The head of a queue, run for its own connection. */
  lemma RunOwnOk(id: int, c: Conn, listed: bool, q: seq<Functor>, k: int)
    requires ConnOk(id, c, listed, q) && q != [] && q[0].id == id && (q[0].Send? ==> -1 <= k <= |q[0].buf|)
    ensures q[0].Start? ==> listed
    ensures ConnOk(id, Ran(c, q[0], k), listed && !q[0].Close?, q[1..])
  {
    match q[0]
    case Start(_) => OrderlySnoc(c.trace, OnConnect);
    case Close(_) => CloseOk(id, c, listed, q[1..]);
    case Send(_, buf) => SendKeepsRead(c.io, buf, k);
  }

  lemma AcceptKeepsInv(s: State, id: int, l: nat)
    requires Inv(s) && Enabled(s, Accept(id, l))
    ensures Inv(Next(s, Accept(id, l)))
  {
    var s' := Next(s, Accept(id, l));
    StartAheadNew(s.queues[l], id);
    forall k | k in s'.conns
      ensures s'.conns[k].loop < |s'.queues|
           && ConnOk(k, s'.conns[k], Listed(s'.registry, k), s'.queues[s'.conns[k].loop])
    {
      if k != id && s.conns[k].loop == l {
        PushOk(k, s.conns[k], Listed(s.registry, k), s.queues[l], Start(id));
      }
    }
  }

  lemma PushKeepsInv(s: State, l: nat, f: Functor)
    requires Inv(s) && f.id in s.conns && s.conns[f.id].loop == l && !f.Start?
    ensures Inv(Push(s, l, f))
  {
    var s' := Push(s, l, f);
    forall k | k in s'.conns
      ensures s'.conns[k].loop < |s'.queues|
           && ConnOk(k, s'.conns[k], Listed(s'.registry, k), s'.queues[s'.conns[k].loop])
    {
      if s.conns[k].loop == l {
        PushOk(k, s.conns[k], Listed(s.registry, k), s.queues[l], f);
      }
    }
  }

  lemma OwnedAfterPop(s: State, s': State, l: nat)
    requires Owned(s) && l < |s.queues| && s.queues[l] != [] && s'.queues == s.queues[l := s.queues[l][1..]]
    requires s'.conns.Keys == s.conns.Keys && forall id :: id in s.conns ==> s'.conns[id].loop == s.conns[id].loop
    ensures Owned(s')
  {
    forall m, i | 0 <= m < |s'.queues| && 0 <= i < |s'.queues[m]|
      ensures s'.queues[m][i].id in s'.conns && s'.conns[s'.queues[m][i].id].loop == m
    {
      var j := if m == l then i + 1 else i;
      assert s'.queues[m][i] == s.queues[m][j];
    }
  }

  lemma RunHeadKeepsInv(s: State, l: nat, k: int)
    requires Inv(s) && Enabled(s, RunHead(l, k))
    ensures Inv(Next(s, RunHead(l, k)))
  {
    hide ConnOk, Owned, Ran;
    var s' := Next(s, RunHead(l, k));
    var q, f := s.queues[l], s.queues[l][0];
    assert s.conns[f.id].loop == l by {
      HeadOwner(s, l);
    }
    RunOwnOk(f.id, s.conns[f.id], Listed(s.registry, f.id), q, k);
    KeepsLoop(s.conns[f.id], f, k);
    OwnedAfterPop(s, s', l);
    forall j | j in s'.conns
      ensures s'.conns[j].loop < |s'.queues|
           && ConnOk(j, s'.conns[j], Listed(s'.registry, j), s'.queues[s'.conns[j].loop])
    {
      if j != f.id && s.conns[j].loop == l {
        PopOtherOk(j, s.conns[j], Listed(s.registry, j), q);
      }
    }
  }

  lemma HeadOwner(s: State, l: nat)
    requires Owned(s) && l < |s.queues| && s.queues[l] != []
    ensures s.queues[l][0].id in s.conns && s.conns[s.queues[l][0].id].loop == l
  {
  }

  lemma KeepsLoop(c: Conn, f: Functor, k: int)
    requires f.Send? ==> -1 <= k <= |f.buf|
    ensures Ran(c, f, k).loop == c.loop
  {
  }

  /** A step that changes one connection and its table entry, and no queue. */
  lemma OneConnKeepsInv(s: State, s': State, id: int)
    requires Inv(s) && id in s.conns && s'.queues == s.queues && !s'.crashed && Keyed(s'.registry)
    requires forall k :: Listed(s'.registry, k) ==> Listed(s.registry, k)
    requires s'.conns.Keys == s.conns.Keys && s'.conns[id].loop == s.conns[id].loop
    requires forall k :: k in s.conns && k != id ==>
      s'.conns[k] == s.conns[k] && (Listed(s'.registry, k) <==> Listed(s.registry, k))
    requires ConnOk(id, s'.conns[id], Listed(s'.registry, id), s.queues[s.conns[id].loop])
    ensures Inv(s')
  {
    hide ConnOk;
    forall k | k in s'.conns
      ensures s'.conns[k].loop < |s'.queues|
           && ConnOk(k, s'.conns[k], Listed(s'.registry, k), s'.queues[s'.conns[k].loop])
    {
      assert k in s.conns;
    }
  }

  lemma ReadableKeepsInv(s: State, id: int, n: int)
    requires Inv(s) && Enabled(s, Readable(id, n))
    ensures Inv(Next(s, Readable(id, n)))
  {
    var c := s.conns[id];
    if n > 0 {
      OrderlySnoc(c.trace, OnMessage);
      OneConnKeepsInv(s, Next(s, Readable(id, n)), id);
    } else if n == 0 {
      CloseOk(id, c, Listed(s.registry, id), s.queues[c.loop]);
      OneConnKeepsInv(s, Next(s, Readable(id, n)), id);
    }
  }

  lemma StepKeepsInv(s: State, step: Step)
    requires Inv(s) && Enabled(s, step)
    ensures Inv(Next(s, step))
  {
    match step
    case Accept(id, l) => AcceptKeepsInv(s, id, l);
    case CallClose(id) => PushKeepsInv(s, s.conns[id].loop, Close(id));
    case CallSend(id, buf) => PushKeepsInv(s, s.conns[id].loop, Send(id, buf));
    case Find(form, id) =>
    case RunHead(l, k) => RunHeadKeepsInv(s, l, k);
    case Readable(id, n) => ReadableKeepsInv(s, id, n);
    case Writable(id, w) =>
      WriteKeepsRead(s.conns[id].io, w);
      OneConnKeepsInv(s, Next(s, step), id);
  }

  lemma {:induction false} InvAlongRun(s: State, steps: seq<Step>)
    requires Inv(s)
    ensures Exec(s, steps).Some? ==> Inv(Exec(s, steps).value)
    decreases |steps|
  {
    if steps != [] && Enabled(s, steps[0]) {
      StepKeepsInv(s, steps[0]);
      InvAlongRun(Next(s, steps[0]), steps[1..]);
    }
  }

  /** For any number of loops and any interleaving of accepts, closes, sends, lookups and socket events:
      a queued Start always finds its connection in the table; the callbacks of every connection are one
      connection callback, then messages, then closes, with no message after a close; the table lists
      exactly the connections without a close callback; and a connection is read from exactly between
      its connection callback and its first close callback. */
  lemma CallbacksAreOrderly(loops: nat, steps: seq<Step>, s: State, id: int)
    requires Exec(Init(loops), steps) == Some(s)
    ensures !s.crashed
    ensures id in s.conns ==> Orderly(s.conns[id].trace)
    ensures Listed(s.registry, id) <==> id in s.conns && OnClose !in s.conns[id].trace
    ensures id in s.conns ==>
      (s.conns[id].io.registered.read <==> OnConnect in s.conns[id].trace && OnClose !in s.conns[id].trace)
  {
    assert Inv(Init(loops));
    InvAlongRun(Init(loops), steps);
    InvMeans(s, id);
  }

  /** What the invariant says of one connection. */
  lemma InvMeans(s: State, id: int)
    requires Inv(s)
    ensures id in s.conns ==> Orderly(s.conns[id].trace)
    ensures Listed(s.registry, id) <==> id in s.conns && OnClose !in s.conns[id].trace
    ensures id in s.conns ==>
      (s.conns[id].io.registered.read <==> OnConnect in s.conns[id].trace && OnClose !in s.conns[id].trace)
  {
    if id in s.conns {
      var t := s.conns[id].trace;
      assert ConnOk(id, s.conns[id], Listed(s.registry, id), s.queues[s.conns[id].loop]);
      assert OnClose in t <==> Closed(t);
      assert OnConnect in t <==> t != [];
    }
  }
}
