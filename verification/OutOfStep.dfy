/** Why authorization needs the inner counts of a login to add up: a run in which they do not.

    Data parses past the frame it was given, so bytes left over from one login stand in front of the
    next frame, and are taken for a login themselves. */
module OutOfStep {
  import opened Options
  import opened Bytes
  import opened Codec
  import opened Frames
  import opened Streams
  import opened LoginFrames
  import opened Logins

  /** What surrounds the run: who is taken for whom, and the pair the database is asked about. */
  datatype Scene = Scene(b: Build, select: Select, id: int, other: int, name: bytes, pass: bytes)

  predicate Playable(e: Scene) {
    && Repaired(e.b) && Fits(8, e.id) && Fits(8, e.other) && e.id != e.other
    && |LoginBody(e.name, e.pass)| + 33 < U32
    && Fits(8, e.select(e.name, e.pass)) && Fits(8, e.select([], []))
  }

  const NEWCOMER := Client(false, -1, [], [], {})

  /** The login left over inside the body of another. */
  function Inner(e: Scene): bytes
    requires Playable(e)
  {
    ForwardFrame(e.b.host, e.id, LoginBody(e.name, e.pass))
  }

  /** An empty name, an empty password, and bytes behind them that no count covers. */
  function LongBody(e: Scene): bytes
    requires Playable(e)
  {
    LoginBody([], []) + Inner(e)
  }

  function Outer(e: Scene): bytes
    requires Playable(e)
  {
    ForwardFrame(e.b.host, e.other, LongBody(e))
  }

  /** The next login of the same connection, an honest one. */
  function After(e: Scene): bytes
    requires Playable(e)
  {
    ForwardFrame(e.b.host, e.other, LoginBody([], []))
  }

  lemma Sizes(e: Scene)
    requires Playable(e)
    ensures |LoginBody([], [])| == 8 && |LongBody(e)| + 12 < U32 && |After(e)| == 21 && |Outer(e)| > 0
  {
    ForwardHeader(e.b.host, e.id, LoginBody(e.name, e.pass));
    ForwardHeader(e.b.host, e.other, LongBody(e));
    ForwardHeader(e.b.host, e.other, LoginBody([], []));
  }

  /** Two connections have come, and one has sent the long login. */
  function Sent(e: Scene): Net
    requires Playable(e)
  {
    EMPTY.(clients := map[e.id := NEWCOMER, e.other := Fed(NEWCOMER, Frame(LOGIN, LongBody(e)))],
           used := {e.id, e.other}, toData := Outer(e))
  }

  lemma PlaySend(e: Scene, rest: seq<Step>, end: Net)
    requires Playable(e) && Exec(e.b, e.select, Sent(e), rest) == Some(end)
    ensures Exec(e.b, e.select, EMPTY,
                 [Connect(e.id)] + ([Connect(e.other)] + ([Receive(e.other, Frame(LOGIN, LongBody(e)))] + rest)))
         == Some(end)
  {
    hide Frame, ForwardFrame, LoginBody, Exec, ReceiveStep;
    Sizes(e);
    var n1 := EMPTY.(clients := map[e.id := NEWCOMER], used := {e.id});
    var n2 := EMPTY.(clients := map[e.id := NEWCOMER, e.other := NEWCOMER], used := {e.id, e.other});
    var f := Frame(LOGIN, LongBody(e));
    GateForwardsFrame(e.b, n2, e.other, LongBody(e));
    assert [] + Outer(e) == Outer(e);
    assert n2.clients[e.other := Fed(NEWCOMER, f)] == Sent(e).clients;
    assert EMPTY.clients[e.id := NEWCOMER] == n1.clients && n1.clients[e.other := NEWCOMER] == n2.clients;
    ExecStep(e.b, e.select, n2, Receive(e.other, f), Sent(e), rest, end);
    ExecStep(e.b, e.select, n1, Connect(e.other), n2, [Receive(e.other, f)] + rest, end);
    ExecStep(e.b, e.select, EMPTY, Connect(e.id), n1, [Connect(e.other)] + ([Receive(e.other, f)] + rest), end);
  }

  /** Data has answered the empty login and is left with the inner one; another login has come. */
  function Waiting(e: Scene): Net
    requires Playable(e)
  {
    Sent(e).(clients := Sent(e).clients[e.other := Fed(Sent(e).clients[e.other], ClientFrame([], []))],
             toData := After(e), dataBuf := Inner(e), toGate := Reply(e.b.host, e.other, e.select([], [])))
  }

  /** Data takes the long login for an empty one with the inner frame behind it. */
  lemma LeavesInner(e: Scene)
    requires Playable(e)
    ensures DataParser(e.b)(Outer(e)) == Item(Attempt(Credentials(e.other, [], [])), Inner(e))
  {
    hide ParseLogin, IntWire, ForwardFrame, LoginBody, DataStep;
    Sizes(e);
    assert Outer(e) + [] == Outer(e);
    ForwardParsed(e.b, e.other, LongBody(e), []);
    var w := IntWire(e.b.host, 8, e.other);
    assert w + LongBody(e) + [] == w + LoginBody([], []) + Inner(e);
    ParseLoginRoundTrip(e.b.host, e.other, [], [], Inner(e));
  }

  lemma PlayWait(e: Scene, rest: seq<Step>, end: Net)
    requires Playable(e) && Exec(e.b, e.select, Waiting(e), rest) == Some(end)
    ensures Exec(e.b, e.select, Sent(e),
                 [DataReads(|Outer(e)|)] + ([Receive(e.other, ClientFrame([], []))] + rest))
         == Some(end)
  {
    hide Frame, ForwardFrame, LoginBody, Exec, Reply, ReceiveStep, DataReadStep, DataParser, GateStep, LongBody;
    Sizes(e);
    LeavesInner(e);
    var f := Outer(e);
    var reply := Reply(e.b.host, e.other, e.select([], []));
    var n1 := Sent(e).(toData := [], dataBuf := Inner(e), toGate := reply);
    assert [] + f[..|f|] == f && f[|f|..] == [] && [] + reply == reply;
    DataReadItem(e.b, e.select, Sent(e), |f|, Credentials(e.other, [], []), Inner(e));
    GateForwardsFrame(e.b, n1, e.other, LoginBody([], []));
    assert [] + After(e) == After(e);
    ExecStep(e.b, e.select, n1, Receive(e.other, ClientFrame([], [])), Waiting(e), rest, end);
    ExecStep(e.b, e.select, Sent(e), DataReads(|f|), n1, [Receive(e.other, ClientFrame([], []))] + rest, end);
  }

  /** Data has answered the inner login too. */
  function Answered(e: Scene): Net
    requires Playable(e)
  {
    Sizes(e);
    Waiting(e).(toData := After(e)[1..], dataBuf := After(e)[..1],
                toGate := Reply(e.b.host, e.other, e.select([], []))
                          + Reply(e.b.host, e.id, e.select(e.name, e.pass)))
  }

  lemma PlayAnswer(e: Scene, rest: seq<Step>, end: Net)
    requires Playable(e) && Exec(e.b, e.select, Answered(e), rest) == Some(end)
    ensures Exec(e.b, e.select, Waiting(e), [DataReads(1)] + rest) == Some(end)
  {
    hide ForwardFrame, Exec, Reply, DataReadStep, DataStep;
    Sizes(e);
    DataReadsForwarded(e.b, e.id, e.name, e.pass, After(e)[..1]);
    DataReadItem(e.b, e.select, Waiting(e), 1, Credentials(e.id, e.name, e.pass), After(e)[..1]);
    ExecStep(e.b, e.select, Waiting(e), DataReads(1), Answered(e), rest, end);
  }

  function Final(e: Scene): Net
    requires Playable(e)
  {
    var n := Answered(e);
    n.(toGate := [],
       clients := Ruled(Ruled(n.clients, e.other, e.select([], [])), e.id, e.select(e.name, e.pass)))
  }

  lemma PlayObey(e: Scene)
    requires Playable(e)
    ensures Exec(e.b, e.select, Answered(e),
                 [GateReads(|Reply(e.b.host, e.other, e.select([], []))|)]
                 + ([GateReads(|Reply(e.b.host, e.id, e.select(e.name, e.pass))|)] + []))
         == Some(Final(e))
  {
    hide Reply, GateReadStep, ForwardFrame, LoginBody;
    var u, v := e.select([], []), e.select(e.name, e.pass);
    var first, second := Reply(e.b.host, e.other, u), Reply(e.b.host, e.id, v);
    var n := Answered(e);
    ReplyHeader(e.b.host, e.other, u);
    ReplyHeader(e.b.host, e.id, v);
    GateObeysFirst(e.b, n, e.other, u, second);
    var n1 := n.(toGate := second, clients := Ruled(n.clients, e.other, u));
    assert second + [] == second;
    GateObeysFirst(e.b, n1, e.id, v, []);
    ExecStep(e.b, e.select, n1, GateReads(|second|), Final(e), [], Final(e));
    ExecStep(e.b, e.select, n, GateReads(|first|), n1, [GateReads(|second|)] + [], Final(e));
  }

  lemma TameMeansCarried(b: Build, select: Select, steps: seq<Step>, n: Net, id: int)
    requires Repaired(b) && (forall name, pass :: Fits(8, select(name, pass)))
    requires Exec(b, select, EMPTY, steps) == Some(n) && id in n.clients && n.clients[id].authorized
    ensures TameRun(b, select, EMPTY, steps) ==> exists name, pass :: Carried(n.clients[id], name, pass)
  {
    if TameRun(b, select, EMPTY, steps) {
      AuthorizationSound(b, select, steps, n, id);
    }
  }

  /** For every repaired build and every pair the database knows: a run that is not tame, because one
      login has counts that do not add up, ends with a connection authorized that has sent nothing. */
  lemma StrayLogin(e: Scene) returns (steps: seq<Step>, n: Net)
    requires Playable(e) && e.select(e.name, e.pass) != -1 && forall name, pass :: Fits(8, e.select(name, pass))
    ensures Exec(e.b, e.select, EMPTY, steps) == Some(n) && !TameRun(e.b, e.select, EMPTY, steps)
    ensures e.id in n.clients && n.clients[e.id].authorized && n.clients[e.id].uid == e.select(e.name, e.pass)
    ensures n.clients[e.id].sent == [] && forall name, pass :: !Carried(n.clients[e.id], name, pass)
  {
    hide Reply, Exec, ForwardFrame, LoginBody;
    n := Final(e);
    PlayObey(e);
    steps := [GateReads(|Reply(e.b.host, e.other, e.select([], []))|)]
             + ([GateReads(|Reply(e.b.host, e.id, e.select(e.name, e.pass))|)] + []);
    PlayAnswer(e, steps, n);
    steps := [DataReads(1)] + steps;
    PlayWait(e, steps, n);
    steps := [DataReads(|Outer(e)|)] + ([Receive(e.other, ClientFrame([], []))] + steps);
    PlaySend(e, steps, n);
    steps := [Connect(e.id)] + ([Connect(e.other)] + ([Receive(e.other, Frame(LOGIN, LongBody(e)))] + steps));
    TameMeansCarried(e.b, e.select, steps, n, e.id);
  }
}
