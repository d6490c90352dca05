/** Clients, Gate, Data and the byte streams between the two servers, over whole runs. */
module Logins {
  import opened Options
  import opened Bytes
  import opened Codec
  import opened Frames
  import opened Streams
  import opened LoginFrames
  import Registry

  /** A connection of Gate: its flag and user id, its receive buffer, all it has ever received, and the
      offsets in that at which Gate took a login frame. */
  datatype Client = Client(authorized: bool, uid: int, buf: bytes, sent: bytes, taken: set<int>)

  /** `used` are the serial ids given out so far; each stream is split into what is still in flight and
      what the receiver has buffered.  `broken` records a callback that read past its buffer. */
  datatype Net = Net(
    clients: map<int, Client>, used: set<int>,
    toData: bytes, dataBuf: bytes, toGate: bytes, gateBuf: bytes, broken: bool)

  const EMPTY := Net(map[], {}, [], [], [], [], false)

  /** The name and password check of the database: a user id, or -1. */
  type Select = (bytes, bytes) -> int

  datatype Step =
    | Connect(id: int)
    | Receive(id: int, chunk: bytes)
    | Leave(id: int)
    | DataReads(n: nat)
    | GateReads(n: nat)

  function Received(c: Client, chunk: bytes): Client {
    c.(buf := c.buf + chunk, sent := c.sent + chunk)
  }

  /** The first frame of the receive buffer has been taken, and this is left. */
  function Forwarding(c: Client, rest: bytes): Client {
    c.(buf := rest, taken := c.taken + {|c.sent| - |c.buf|})
  }

  predicate Enabled(n: Net, step: Step) {
    !n.broken &&
    match step
    case Connect(id) => Fits(8, id) && id !in n.used
    case Receive(id, _) => id in n.clients && Fits(8, id)
    case Leave(id) => id in n.clients
    case DataReads(k) => 0 < k <= |n.toData|
    case GateReads(k) => 0 < k <= |n.toGate|
  }

  function ReceiveStep(b: Build, n: Net, id: int, chunk: bytes): Net
    requires id in n.clients && Fits(8, id)
  {
    var c := Received(n.clients[id], chunk);
    match GateStep(b, c.authorized, id, c.buf)
    case Forwarded(frame, rest) =>
      n.(clients := n.clients[id := Forwarding(c, rest)], toData := n.toData + frame)
    case Refused => n.(clients := n.clients[id := c.(buf := [])])
    case _ => n.(clients := n.clients[id := c])
  }

  function DataReadStep(b: Build, select: Select, n: Net, k: nat): Net
    requires k <= |n.toData|
  {
    var n' := n.(dataBuf := n.dataBuf + n.toData[..k], toData := n.toData[k..]);
    match DataStep(b, n'.dataBuf)
    case Incomplete => n'
    case Underrun => n'.(broken := true)
    case Unknown(rest) => n'.(dataBuf := rest)
    case Login(id, name, pass, rest) =>
      var uid := select(name, pass);
      if Fits(8, id) && Fits(8, uid) then n'.(dataBuf := rest, toGate := n.toGate + Reply(b.host, id, uid))
      else n'.(broken := true)
  }

  function GateReadStep(b: Build, n: Net, k: nat): Net
    requires k <= |n.toGate|
  {
    var n' := n.(gateBuf := n.gateBuf + n.toGate[..k], toGate := n.toGate[k..]);
    match VerdictStep(b, n'.gateBuf)
    case Partial => n'
    case Overread => n'.(broken := true)
    case Dropped(rest) => n'.(gateBuf := rest)
    case Granted(id, uid, rest) =>
      var key := Registry.Key(b.lookup, id);
      if key in n.clients
      then n'.(gateBuf := rest, clients := n.clients[key := n.clients[key].(authorized := true, uid := uid)])
      else n'.(gateBuf := rest)
  }

  function Next(b: Build, select: Select, n: Net, step: Step): Net
    requires Enabled(n, step)
  {
    match step
    case Connect(id) => n.(clients := n.clients[id := Client(false, -1, [], [], {})], used := n.used + {id})
    case Receive(id, chunk) => ReceiveStep(b, n, id, chunk)
    case Leave(id) => n.(clients := n.clients - {id})
    case DataReads(k) => DataReadStep(b, select, n, k)
    case GateReads(k) => GateReadStep(b, n, k)
  }

  function Exec(b: Build, select: Select, n: Net, steps: seq<Step>): Option<Net>
    decreases |steps|
  {
    if steps == [] then Some(n)
    else if Enabled(n, steps[0]) then Exec(b, select, Next(b, select, n, steps[0]), steps[1..])
    else None
  }

  // ---------------------------------------------------------------- each step in full

  /** A new connection is not authorized and has sent nothing; one that leaves is gone from the table, while
      its id stays used. */
  lemma ComingsExactly(b: Build, select: Select, n: Net, id: int)
    requires !n.broken
    ensures Fits(8, id) && id !in n.used ==>
      Next(b, select, n, Connect(id))
      == n.(clients := n.clients[id := Client(false, -1, [], [], {})], used := n.used + {id})
    ensures id in n.clients ==> Next(b, select, n, Leave(id)) == n.(clients := n.clients - {id})
  {
  }

  /** What a client sends is added to its buffer, and the callback then waits, forwards the frame in front and
      keeps what is behind it, or throws the buffer away; only a forwarded frame goes on to Data. */
  lemma ReceivesExactly(b: Build, select: Select, n: Net, id: int, chunk: bytes)
    requires !n.broken && id in n.clients && Fits(8, id)
    ensures var c, n' := n.clients[id], Next(b, select, n, Receive(id, chunk));
            var o := GateStep(b, c.authorized, id, c.buf + chunk);
      && n' == n.(clients := n'.clients, toData := n'.toData) && n'.clients.Keys == n.clients.Keys
      && (forall k :: k in n.clients && k != id ==> n'.clients[k] == n.clients[k])
      && n'.toData == n.toData + (if o.Forwarded? then o.frame else [])
      && var c' := n'.clients[id];
         c'.authorized == c.authorized && c'.uid == c.uid && c'.sent == c.sent + chunk
         && c'.buf == if o.Forwarded? then o.rest else if o.Refused? then [] else c.buf + chunk
  {
    hide GateStep;
  }

  /** Data waits, skips, or asks the database and answers with what it was told under the id it was given;
      where the source over-reads, or the database gives no 64-bit id, the run ends. */
  lemma DataReadsExactly(b: Build, select: Select, n: Net, k: nat)
    requires !n.broken && 0 < k <= |n.toData|
    ensures var s, n' := n.dataBuf + n.toData[..k], Next(b, select, n, DataReads(k));
      && n' == n.(dataBuf := n'.dataBuf, toData := n.toData[k..], toGate := n'.toGate, broken := n'.broken)
      && match DataStep(b, s)
         case Incomplete => n'.dataBuf == s && n'.toGate == n.toGate && !n'.broken
         case Underrun => n'.broken
         case Unknown(rest) => n'.dataBuf == rest && n'.toGate == n.toGate && !n'.broken
         case Login(id, name, pass, rest) =>
           var uid := select(name, pass);
           if Fits(8, id) && Fits(8, uid)
           then n'.dataBuf == rest && n'.toGate == n.toGate + Reply(b.host, id, uid) && !n'.broken
           else n'.broken
  {
    hide DataStep, Reply;
  }

  /** A success authorizes the connection under the key its id comes down to, with the user id of the reply,
      and no other; any other reply authorizes nobody. */
  lemma GateReadsExactly(b: Build, select: Select, n: Net, k: nat)
    requires !n.broken && 0 < k <= |n.toGate|
    ensures var s, n' := n.gateBuf + n.toGate[..k], Next(b, select, n, GateReads(k));
      && n' == n.(gateBuf := n'.gateBuf, toGate := n.toGate[k..], clients := n'.clients, broken := n'.broken)
      && match VerdictStep(b, s)
         case Partial => n'.gateBuf == s && n'.clients == n.clients && !n'.broken
         case Overread => n'.broken && n'.clients == n.clients
         case Dropped(rest) => n'.gateBuf == rest && n'.clients == n.clients && !n'.broken
         case Granted(id, uid, rest) =>
           var key := if b.lookup == AsWritten then id % 0x1_0000_0000 else id;
           n'.gateBuf == rest && !n'.broken
           && n'.clients == if key in n.clients
                            then n.clients[key := n.clients[key].(authorized := true, uid := uid)] else n.clients
  {
    hide VerdictStep;
  }

  // ---------------------------------------------------------------- as written: nobody gets in

  /** Nothing flows between the servers and nobody is authorized. */
  predicate Silent(n: Net) {
    && n.toData == [] && n.dataBuf == [] && n.toGate == [] && n.gateBuf == []
    && forall id :: id in n.clients ==> !n.clients[id].authorized
  }

  lemma StepKeepsSilence(b: Build, select: Select, n: Net, step: Step)
    requires b.polarity == AsWritten && Silent(n) && Enabled(n, step)
    ensures Silent(Next(b, select, n, step))
  {
  }

  /** With the test as written a login is forwarded only for a connection that is authorized already, so
      no run authorizes any connection, whatever the clients send and whatever else is put right. */
  lemma {:induction false} AsWrittenNobodyIsAuthorized(b: Build, select: Select, n: Net, steps: seq<Step>)
    requires b.polarity == AsWritten && Silent(n)
    ensures Exec(b, select, n, steps).Some? ==> Silent(Exec(b, select, n, steps).value)
    decreases |steps|
  {
    if steps != [] && Enabled(n, steps[0]) {
      StepKeepsSilence(b, select, n, steps[0]);
      AsWrittenNobodyIsAuthorized(b, select, Next(b, select, n, steps[0]), steps[1..]);
    }
  }

  /** Every connection has an id beyond 32 bits, as generated ids do, and none is authorized. */
  predicate LongAndBarred(n: Net) {
    forall id :: id in n.clients ==> id >= U32 && !n.clients[id].authorized
  }

  lemma StepKeepsBarred(b: Build, select: Select, n: Net, step: Step)
    requires b.lookup == AsWritten && LongAndBarred(n) && Enabled(n, step) && (step.Connect? ==> step.id >= U32)
    ensures LongAndBarred(Next(b, select, n, step))
  {
    hide GateStep, DataStep, VerdictStep;
  }

  /** With the lookup as written the reply of the database never finds its connection, so again no run
      authorizes any, whatever else is put right. */
  lemma {:induction false} NarrowLookupAuthorizesNobody(b: Build, select: Select, n: Net, steps: seq<Step>)
    requires b.lookup == AsWritten && LongAndBarred(n)
    requires forall i :: 0 <= i < |steps| && steps[i].Connect? ==> steps[i].id >= U32
    ensures Exec(b, select, n, steps).Some? ==> LongAndBarred(Exec(b, select, n, steps).value)
    decreases |steps|
  {
    if steps != [] && Enabled(n, steps[0]) {
      StepKeepsBarred(b, select, n, steps[0]);
      NarrowLookupAuthorizesNobody(b, select, Next(b, select, n, steps[0]), steps[1..]);
    }
  }

  // ---------------------------------------------------------------- intended: authorization soundness

  /** The frame of a login attempt, as a client sends it. */
  function ClientFrame(name: bytes, pass: bytes): bytes {
    Frame(LOGIN, LoginBody(name, pass))
  }

  predicate OccursAt(f: bytes, s: bytes, i: nat) {
    i + |f| <= |s| && s[i..i + |f|] == f
  }

  /** The client itself has sent a login frame with this name and password, and Gate took it as one. */
  ghost predicate Carried(c: Client, name: bytes, pass: bytes) {
    exists i: nat :: i in c.taken && OccursAt(ClientFrame(name, pass), c.sent, i)
  }

  /** The client has received more, and had more taken. */
  predicate Continues(c: Client, c': Client) {
    c.sent <= c'.sent && c.taken <= c'.taken
  }

  lemma OccursLater(f: bytes, s: bytes, t: bytes, i: nat)
    requires OccursAt(f, s, i)
    ensures OccursAt(f, s + t, i)
  {
    assert (s + t)[i..i + |f|] == s[i..i + |f|];
  }

  /** The receive buffer of Gate starts with a login whose two counts add up, and whose length leaves
      room for the serial id. */
  predicate ConsistentLogin(s: bytes) {
    && |s| >= 5 && 4 <= DeclaredLen(s) <= |s| - 1 && DeclaredLen(s) + 8 < U32
    && Consistent(s[5..1 + DeclaredLen(s)])
  }

  /** What Gate is about to forward, if anything, is a consistent login. */
  predicate Tame(b: Build, n: Net, step: Step) {
    step.Receive? && step.id in n.clients && Fits(8, step.id) ==>
      var c := Received(n.clients[step.id], step.chunk);
      GateStep(b, c.authorized, step.id, c.buf).Forwarded? ==> ConsistentLogin(c.buf)
  }

  predicate TameRun(b: Build, select: Select, n: Net, steps: seq<Step>)
    decreases |steps|
  {
    steps != [] && Enabled(n, steps[0]) ==>
      Tame(b, n, steps[0]) && TameRun(b, select, Next(b, select, n, steps[0]), steps[1..])
  }

  /** The connection still open under the id of a login has carried it. */
  ghost predicate Backed(n: Net, l: Credentials) {
    Fits(8, l.id) && l.id in n.used && (l.id in n.clients ==> Carried(n.clients[l.id], l.name, l.pass))
  }

  /** Authorization is justified by the connection's own bytes. */
  ghost predicate Justified(select: Select, c: Client) {
    c.authorized ==>
      c.uid != -1 && exists name, pass :: Carried(c, name, pass) && select(name, pass) == c.uid
  }

  /** A positive reply in flight is backed by the connection it names, if that is still open. */
  ghost predicate VerdictOk(select: Select, n: Net, v: Verdict) {
    v.Yes? ==>
      v.uid != -1 && exists name, pass :: Backed(n, Credentials(v.id, name, pass)) && select(name, pass) == v.uid
  }

  ghost predicate AllBacked(n: Net, ps: seq<Packet<Request>>) {
    forall i :: 0 <= i < |ps| ==> ps[i].value.Attempt? && Backed(n, ps[i].value.login)
  }

  ghost predicate AllOk(select: Select, n: Net, qs: seq<Packet<Verdict>>) {
    forall i :: 0 <= i < |qs| ==> VerdictOk(select, n, qs[i].value)
  }

  /** The bytes on their way to Data are login packets, each backed by a connection. */
  ghost predicate Logged(b: Build, n: Net, ps: seq<Packet<Request>>) {
    AllDelimited(DataParser(b), ps) && AllBacked(n, ps) && n.dataBuf + n.toData == Stream(ps)
  }

  /** The bytes on their way back are replies. */
  ghost predicate Answered(b: Build, select: Select, n: Net, qs: seq<Packet<Verdict>>) {
    AllDelimited(VerdictParser(b), qs) && AllOk(select, n, qs) && n.gateBuf + n.toGate == Stream(qs)
  }

  ghost predicate ClientOk(select: Select, n: Net, id: int)
    requires id in n.clients
  {
    var c := n.clients[id];
    && id in n.used && Fits(8, id)
    && |c.buf| <= |c.sent| && c.sent[|c.sent| - |c.buf|..] == c.buf
    && Justified(select, c)
  }

  /** Both streams are sequences of packets backed by the clients they speak of. */
  ghost predicate SoundWith(b: Build, select: Select, n: Net, ps: seq<Packet<Request>>, qs: seq<Packet<Verdict>>) {
    && !n.broken && Logged(b, n, ps) && Answered(b, select, n, qs)
    && forall id :: id in n.clients ==> ClientOk(select, n, id)
  }

  ghost predicate SoundNet(b: Build, select: Select, n: Net) {
    exists ps, qs :: SoundWith(b, select, n, ps, qs)
  }

  /** Builds for which the exchange works: Gate's callbacks put right, and lengths peeked in wire order.
      Data's default branch does not matter here. */
  predicate Repaired(b: Build) {
    && b.cut == b.polarity == b.failure == b.lookup == Intended
    && (b.peek == Intended || b.host == BigEndian)
  }

  // ---------------------------------------------------------------- what a change of clients preserves

  /** Connections only receive more; ids already used are not given out again. */
  predicate Grows(n: Net, n': Net) {
    && n.used <= n'.used
    && forall id :: id in n'.clients ==>
         id !in n.used || (id in n.clients && Continues(n.clients[id], n'.clients[id]))
  }

  lemma CarriedGrows(c: Client, c': Client, name: bytes, pass: bytes)
    requires Carried(c, name, pass) && Continues(c, c')
    ensures Carried(c', name, pass)
  {
    var f, i: nat :| f == ClientFrame(name, pass) && i in c.taken && OccursAt(f, c.sent, i);
    OccursLater(f, c.sent, c'.sent[|c.sent|..], i);
    assert c'.sent == c.sent + c'.sent[|c.sent|..];
  }

  lemma BackedGrows(n: Net, n': Net, l: Credentials)
    requires Backed(n, l) && Grows(n, n')
    ensures Backed(n', l)
  {
    if l.id in n'.clients {
      CarriedGrows(n.clients[l.id], n'.clients[l.id], l.name, l.pass);
    }
  }

  lemma AllBackedGrows(n: Net, n': Net, ps: seq<Packet<Request>>)
    requires AllBacked(n, ps) && Grows(n, n')
    ensures AllBacked(n', ps)
  {
    forall i | 0 <= i < |ps| ensures ps[i].value.Attempt? && Backed(n', ps[i].value.login) {
      BackedGrows(n, n', ps[i].value.login);
    }
  }

  lemma LoggedGrows(b: Build, n: Net, n': Net, ps: seq<Packet<Request>>)
    requires Logged(b, n, ps) && Grows(n, n') && n'.dataBuf + n'.toData == n.dataBuf + n.toData
    ensures Logged(b, n', ps)
  {
    AllBackedGrows(n, n', ps);
  }

  lemma VerdictGrows(select: Select, n: Net, n': Net, v: Verdict)
    requires VerdictOk(select, n, v) && Grows(n, n')
    ensures VerdictOk(select, n', v)
  {
    if v.Yes? {
      var name, pass :| Backed(n, Credentials(v.id, name, pass)) && select(name, pass) == v.uid;
      BackedGrows(n, n', Credentials(v.id, name, pass));
    }
  }

  lemma AllOkGrows(select: Select, n: Net, n': Net, qs: seq<Packet<Verdict>>)
    requires AllOk(select, n, qs) && Grows(n, n')
    ensures AllOk(select, n', qs)
  {
    forall i | 0 <= i < |qs| ensures VerdictOk(select, n', qs[i].value) {
      VerdictGrows(select, n, n', qs[i].value);
    }
  }

  lemma AnsweredGrows(b: Build, select: Select, n: Net, n': Net, qs: seq<Packet<Verdict>>)
    requires Answered(b, select, n, qs) && Grows(n, n') && n'.gateBuf + n'.toGate == n.gateBuf + n.toGate
    ensures Answered(b, select, n', qs)
  {
    AllOkGrows(select, n, n', qs);
  }

  lemma JustifiedGrows(select: Select, c: Client, c': Client)
    requires Justified(select, c) && Continues(c, c') && c'.authorized == c.authorized && c'.uid == c.uid
    ensures Justified(select, c')
  {
    if c.authorized {
      var name, pass :| Carried(c, name, pass) && select(name, pass) == c.uid;
      CarriedGrows(c, c', name, pass);
    }
  }

  // ---------------------------------------------------------------- one step at a time

  lemma ConnectSound(b: Build, select: Select, n: Net, id: int, ps: seq<Packet<Request>>, qs: seq<Packet<Verdict>>)
    requires SoundWith(b, select, n, ps, qs) && Enabled(n, Connect(id))
    ensures SoundWith(b, select, Next(b, select, n, Connect(id)), ps, qs)
  {
    var n' := Next(b, select, n, Connect(id));
    LoggedGrows(b, n, n', ps);
    AnsweredGrows(b, select, n, n', qs);
    forall k | k in n'.clients ensures ClientOk(select, n', k) {
      if k != id {
        assert ClientOk(select, n, k);
      }
    }
  }

  lemma LeaveSound(b: Build, select: Select, n: Net, id: int, ps: seq<Packet<Request>>, qs: seq<Packet<Verdict>>)
    requires SoundWith(b, select, n, ps, qs) && Enabled(n, Leave(id))
    ensures SoundWith(b, select, Next(b, select, n, Leave(id)), ps, qs)
  {
    var n' := Next(b, select, n, Leave(id));
    LoggedGrows(b, n, n', ps);
    AnsweredGrows(b, select, n, n', qs);
    forall k | k in n'.clients ensures ClientOk(select, n', k) {
      assert ClientOk(select, n, k);
    }
  }

  /** Receiving changes one client's buffer; `buf` is what the callback leaves of it. */
  lemma ReceiveClient(b: Build, select: Select, n: Net, n': Net, id: int, chunk: bytes, buf: bytes, taken: set<int>,
                      ps: seq<Packet<Request>>, qs: seq<Packet<Verdict>>)
    requires SoundWith(b, select, n, ps, qs) && id in n.clients
    requires n.clients[id].taken <= taken && n'.used == n.used
    requires n'.clients == n.clients[id := Received(n.clients[id], chunk).(buf := buf, taken := taken)]
    requires |buf| <= |n.clients[id].buf + chunk|
          && (n.clients[id].buf + chunk)[|n.clients[id].buf + chunk| - |buf|..] == buf
    ensures Grows(n, n') && forall k :: k in n'.clients ==> ClientOk(select, n', k)
  {
    var c, c' := n.clients[id], n'.clients[id];
    assert ClientOk(select, n, id);
    SuffixOfSuffix(c.sent, c.buf, chunk, buf);
    JustifiedGrows(select, c, c');
    forall k | k in n'.clients ensures ClientOk(select, n', k) {
      if k != id {
        assert ClientOk(select, n, k);
      }
    }
  }

  lemma SuffixOfSuffix(sent: bytes, buf: bytes, chunk: bytes, rest: bytes)
    requires |buf| <= |sent| && sent[|sent| - |buf|..] == buf
    requires |rest| <= |buf + chunk| && (buf + chunk)[|buf + chunk| - |rest|..] == rest
    ensures (sent + chunk)[|sent + chunk| - |rest|..] == rest
  {
    var s := sent[..|sent| - |buf|];
    assert sent == s + buf;
    assert sent + chunk == s + (buf + chunk);
    assert (s + (buf + chunk))[|s + (buf + chunk)| - |rest|..] == (buf + chunk)[|buf + chunk| - |rest|..];
  }

  /** A consistent login in front of a buffer is a client frame followed by something. */
  lemma SplitLogin(s: bytes) returns (name: bytes, pass: bytes, rest: bytes)
    requires ConsistentLogin(s) && s[0] == LOGIN
    ensures s == ClientFrame(name, pass) + rest && |LoginBody(name, pass)| + 12 < U32
  {
    var body := s[5..1 + DeclaredLen(s)];
    name, pass := ConsistentIsEncoded(body);
    rest := s[1 + DeclaredLen(s)..];
    ToFrom(s[1..5]);
    assert s == [s[0]] + s[1..5] + body + rest;
  }

  lemma GateForwardsLogin(b: Build, id: int, s: bytes) returns (l: Credentials, rest: bytes)
    requires Repaired(b) && Fits(8, id) && ConsistentLogin(s) && GateStep(b, false, id, s).Forwarded?
    ensures l.id == id && Sendable(l) && s == ClientFrame(l.name, l.pass) + rest
    ensures GateStep(b, false, id, s) == Forwarded(LoginPacket(b.host, l).image, rest)
  {
    var name, pass;
    name, pass, rest := SplitLogin(s);
    l := Credentials(id, name, pass);
    ForwardIsExact(b, id, LoginBody(name, pass), rest);
  }

  lemma CarriesBuffered(c: Client, name: bytes, pass: bytes, rest: bytes)
    requires |c.buf| <= |c.sent| && c.sent[|c.sent| - |c.buf|..] == c.buf && c.buf == ClientFrame(name, pass) + rest
    ensures Carried(Forwarding(c, rest), name, pass)
  {
    var i: nat, f := |c.sent| - |c.buf|, ClientFrame(name, pass);
    assert c.sent[i..i + |f|] == c.sent[i..][..|f|] == f;
    assert OccursAt(f, c.sent, i) && i in Forwarding(c, rest).taken;
  }

  lemma LoggedSnoc(b: Build, n: Net, n': Net, ps: seq<Packet<Request>>, p: Packet<Request>)
    requires Logged(b, n, ps) && Grows(n, n') && Delimited(DataParser(b), p)
    requires p.value.Attempt? && Backed(n', p.value.login)
    requires n'.dataBuf == n.dataBuf && n'.toData == n.toData + p.image
    ensures Logged(b, n', ps + [p])
  {
    DelimitedSnoc(DataParser(b), ps, p);
    AllBackedGrows(n, n', ps);
    StreamSnoc(ps, p);
    assert n.dataBuf + (n.toData + p.image) == (n.dataBuf + n.toData) + p.image;
  }

  lemma LoggedTail(b: Build, n: Net, n': Net, ps: seq<Packet<Request>>)
    requires Logged(b, n, ps) && Grows(n, n') && ps != [] && n'.dataBuf + n'.toData == Stream(ps[1..])
    ensures Logged(b, n', ps[1..])
  {
    DelimitedTail(DataParser(b), ps);
    AllBackedGrows(n, n', ps);
  }

  lemma CarriedByReceiver(select: Select, n: Net, id: int, chunk: bytes, l: Credentials, rest: bytes)
    requires id in n.clients && ClientOk(select, n, id)
    requires n.clients[id].buf + chunk == ClientFrame(l.name, l.pass) + rest
    ensures Carried(Forwarding(Received(n.clients[id], chunk), rest), l.name, l.pass)
  {
    hide ClientFrame, Justified;
    var c := n.clients[id];
    var s := c.buf + chunk;
    assert s[|s| - |s|..] == s;
    SuffixOfSuffix(c.sent, c.buf, chunk, s);
    CarriesBuffered(Received(c, chunk), l.name, l.pass, rest);
  }

  /** The callback forwards nothing: it keeps the buffer, or clears it. */
  lemma ReceiveKeeps(b: Build, select: Select, n: Net, id: int, chunk: bytes,
                     ps: seq<Packet<Request>>, qs: seq<Packet<Verdict>>)
    requires SoundWith(b, select, n, ps, qs) && Enabled(n, Receive(id, chunk))
    requires !GateStep(b, n.clients[id].authorized, id, n.clients[id].buf + chunk).Forwarded?
    ensures SoundWith(b, select, ReceiveStep(b, n, id, chunk), ps, qs)
  {
    var n' := ReceiveStep(b, n, id, chunk);
    var s := n.clients[id].buf + chunk;
    assert s[|s| - |s|..] == s;
    ReceiveClient(b, select, n, n', id, chunk, n'.clients[id].buf, n.clients[id].taken, ps, qs);
    LoggedGrows(b, n, n', ps);
    AnsweredGrows(b, select, n, n', qs);
  }

  /** The callback forwards the login `l`. */
  lemma ReceiveForwards(b: Build, select: Select, n: Net, n': Net, id: int, chunk: bytes, l: Credentials, rest: bytes,
                        ps: seq<Packet<Request>>, qs: seq<Packet<Verdict>>)
    requires SoundWith(b, select, n, ps, qs) && id in n.clients && l.id == id && Sendable(l)
    requires Delimited(DataParser(b), LoginPacket(b.host, l))
    requires n.clients[id].buf + chunk == ClientFrame(l.name, l.pass) + rest
    requires n' == n.(clients := n.clients[id := Forwarding(Received(n.clients[id], chunk), rest)],
                      toData := n.toData + LoginPacket(b.host, l).image)
    ensures SoundWith(b, select, n', ps + [LoginPacket(b.host, l)], qs)
  {
    var s := ClientFrame(l.name, l.pass) + rest;
    assert s[|s| - |rest|..] == rest;
    ReceiveClient(b, select, n, n', id, chunk, rest, n'.clients[id].taken, ps, qs);
    AnsweredGrows(b, select, n, n', qs);
    assert ClientOk(select, n, id) && ClientOk(select, n', id);
    CarriedByReceiver(select, n, id, chunk, l, rest);
    LoggedSnoc(b, n, n', ps, LoginPacket(b.host, l));
  }

  lemma ReceiveSound(b: Build, select: Select, n: Net, id: int, chunk: bytes,
                     ps: seq<Packet<Request>>, qs: seq<Packet<Verdict>>)
    returns (ps': seq<Packet<Request>>)
    requires Repaired(b) && SoundWith(b, select, n, ps, qs)
    requires Enabled(n, Receive(id, chunk)) && Tame(b, n, Receive(id, chunk))
    ensures SoundWith(b, select, ReceiveStep(b, n, id, chunk), ps', qs)
  {
    var s := n.clients[id].buf + chunk;
    if GateStep(b, n.clients[id].authorized, id, s).Forwarded? {
      var l, rest := GateForwardsLogin(b, id, s);
      LoginIsDelimited(b, l);
      ReceiveForwards(b, select, n, ReceiveStep(b, n, id, chunk), id, chunk, l, rest, ps, qs);
      ps' := ps + [LoginPacket(b.host, l)];
    } else {
      ReceiveKeeps(b, select, n, id, chunk, ps, qs);
      ps' := ps;
    }
  }

  /** Moving bytes from flight to buffer leaves the stream alone. */
  lemma Shifted(buf: bytes, flight: bytes, k: nat)
    requires k <= |flight|
    ensures (buf + flight[..k]) + flight[k..] == buf + flight
  {
    assert flight == flight[..k] + flight[k..];
  }

  lemma AnsweredSnoc(b: Build, select: Select, n: Net, n': Net, qs: seq<Packet<Verdict>>, q: Packet<Verdict>)
    requires Answered(b, select, n, qs) && Grows(n, n')
    requires Delimited(VerdictParser(b), q) && VerdictOk(select, n', q.value)
    requires n'.gateBuf == n.gateBuf && n'.toGate == n.toGate + q.image
    ensures Answered(b, select, n', qs + [q])
  {
    DelimitedSnoc(VerdictParser(b), qs, q);
    AllOkGrows(select, n, n', qs);
    StreamSnoc(qs, q);
    assert n.gateBuf + (n.toGate + q.image) == (n.gateBuf + n.toGate) + q.image;
  }

  lemma AnsweredTail(b: Build, select: Select, n: Net, n': Net, qs: seq<Packet<Verdict>>)
    requires Answered(b, select, n, qs) && Grows(n, n') && qs != [] && n'.gateBuf + n'.toGate == Stream(qs[1..])
    ensures Answered(b, select, n', qs[1..])
  {
    DelimitedTail(VerdictParser(b), qs);
    AllOkGrows(select, n, n', qs);
  }

  /** Data consumes the first login of its stream and answers it. */
  lemma DataAnswers(b: Build, select: Select, n: Net, n': Net, rest: bytes, flight: bytes, l: Credentials, uid: int,
                    ps: seq<Packet<Request>>, qs: seq<Packet<Verdict>>)
    requires SoundWith(b, select, n, ps, qs) && ps != [] && rest + flight == Stream(ps[1..])
    requires ps[0].value == Attempt(l) && uid == select(l.name, l.pass) && Fits(8, uid) && Fits(8, l.id)
    requires Delimited(VerdictParser(b), VerdictPacket(b.host, l.id, uid))
    requires n' == n.(dataBuf := rest, toData := flight, toGate := n.toGate + Reply(b.host, l.id, uid))
    ensures SoundWith(b, select, n', ps[1..], qs + [VerdictPacket(b.host, l.id, uid)])
  {
    BackedGrows(n, n', l);
    assert l == Credentials(l.id, l.name, l.pass);
    AnsweredSnoc(b, select, n, n', qs, VerdictPacket(b.host, l.id, uid));
    LoggedTail(b, n, n', ps);
    ClientsUntouched(select, n, n');
  }

  lemma ClientsUntouched(select: Select, n: Net, n': Net)
    requires n'.clients == n.clients && n'.used == n.used
    requires forall id :: id in n.clients ==> ClientOk(select, n, id)
    ensures forall id :: id in n'.clients ==> ClientOk(select, n', id)
  {
    forall id | id in n'.clients ensures ClientOk(select, n', id) {
      assert ClientOk(select, n, id);
    }
  }

  lemma ParsedLogin(b: Build, s: bytes, l: Credentials, rest: bytes)
    requires DataParser(b)(s) == Item(Attempt(l), rest)
    ensures DataStep(b, s) == Login(l.id, l.name, l.pass, rest)
  {
  }

  lemma DataReadItem(b: Build, select: Select, n: Net, k: nat, l: Credentials, rest: bytes)
    requires k <= |n.toData| && DataParser(b)(n.dataBuf + n.toData[..k]) == Item(Attempt(l), rest)
    requires Fits(8, l.id) && Fits(8, select(l.name, l.pass))
    ensures DataReadStep(b, select, n, k)
         == n.(dataBuf := rest, toData := n.toData[k..],
               toGate := n.toGate + Reply(b.host, l.id, select(l.name, l.pass)))
  {
    ParsedLogin(b, n.dataBuf + n.toData[..k], l, rest);
    hide DataStep;
  }

  lemma DataReadMore(b: Build, select: Select, n: Net, k: nat)
    requires k <= |n.toData| && DataParser(b)(n.dataBuf + n.toData[..k]) == More
    ensures DataReadStep(b, select, n, k) == n.(dataBuf := n.dataBuf + n.toData[..k], toData := n.toData[k..])
  {
  }

  lemma DataReadsSound(b: Build, select: Select, n: Net, k: nat,
                       ps: seq<Packet<Request>>, qs: seq<Packet<Verdict>>)
    returns (ps': seq<Packet<Request>>, qs': seq<Packet<Verdict>>)
    requires Repaired(b) && SoundWith(b, select, n, ps, qs) && Enabled(n, DataReads(k))
    requires forall name, pass :: Fits(8, select(name, pass))
    ensures SoundWith(b, select, DataReadStep(b, select, n, k), ps', qs')
  {
    hide DataStep, VerdictOk, Justified;
    var buf, flight := n.dataBuf + n.toData[..k], n.toData[k..];
    var n' := DataReadStep(b, select, n, k);
    Shifted(n.dataBuf, n.toData, k);
    StepOnStream(DataParser(b), ps, buf, flight);
    if ps == [] || |buf| < |ps[0].image| {
      DataReadMore(b, select, n, k);
      ps', qs' := ps, qs;
      LoggedGrows(b, n, n', ps);
      AnsweredGrows(b, select, n, n', qs);
      ClientsUntouched(select, n, n');
    } else {
      assert ps[0].value.Attempt?;
      var l := ps[0].value.login;
      var uid := select(l.name, l.pass);
      assert Backed(n, l);
      DataReadItem(b, select, n, k, l, buf[|ps[0].image|..]);
      VerdictIsDelimited(b, l.id, uid);
      DataAnswers(b, select, n, n', buf[|ps[0].image|..], flight, l, uid, ps, qs);
      ps', qs' := ps[1..], qs + [VerdictPacket(b.host, l.id, uid)];
    }
  }

  lemma VerdictJustifies(select: Select, n: Net, c': Client, v: Verdict)
    requires v.Yes? && VerdictOk(select, n, v) && v.id in n.clients
    requires c' == n.clients[v.id].(authorized := true, uid := v.uid)
    ensures Justified(select, c')
  {
    var name, pass :| Backed(n, Credentials(v.id, name, pass)) && select(name, pass) == v.uid;
    CarriedGrows(n.clients[v.id], c', name, pass);
  }

  lemma ParsedVerdict(b: Build, s: bytes, v: Verdict, rest: bytes)
    requires VerdictParser(b)(s) == Item(v, rest)
    ensures VerdictStep(b, s) == if v.Yes? then Granted(v.id, v.uid, rest) else Dropped(rest)
  {
  }

  lemma GateReadItem(b: Build, n: Net, k: nat, v: Verdict, rest: bytes)
    requires Repaired(b) && k <= |n.toGate|
    requires VerdictParser(b)(n.gateBuf + n.toGate[..k]) == Item(v, rest)
    ensures GateReadStep(b, n, k)
         == n.(gateBuf := rest, toGate := n.toGate[k..],
               clients := if v.Yes? && v.id in n.clients
                          then n.clients[v.id := n.clients[v.id].(authorized := true, uid := v.uid)] else n.clients)
  {
    ParsedVerdict(b, n.gateBuf + n.toGate[..k], v, rest);
  }

  lemma GateReadMore(b: Build, n: Net, k: nat)
    requires k <= |n.toGate| && VerdictParser(b)(n.gateBuf + n.toGate[..k]) == More
    ensures GateReadStep(b, n, k) == n.(gateBuf := n.gateBuf + n.toGate[..k], toGate := n.toGate[k..])
  {
  }

  /** Gate consumes the first reply of its stream; a positive one authorizes the connection it names. */
  lemma GateObeys(b: Build, select: Select, n: Net, n': Net, rest: bytes, flight: bytes,
                  ps: seq<Packet<Request>>, qs: seq<Packet<Verdict>>)
    requires SoundWith(b, select, n, ps, qs) && qs != [] && rest + flight == Stream(qs[1..])
    requires var v := qs[0].value;
      n' == n.(gateBuf := rest, toGate := flight,
               clients := if v.Yes? && v.id in n.clients
                          then n.clients[v.id := n.clients[v.id].(authorized := true, uid := v.uid)] else n.clients)
    ensures SoundWith(b, select, n', ps, qs[1..])
  {
    var v := qs[0].value;
    LoggedGrows(b, n, n', ps);
    AnsweredTail(b, select, n, n', qs);
    assert VerdictOk(select, n, v);
    forall id | id in n'.clients ensures ClientOk(select, n', id) {
      assert ClientOk(select, n, id);
      if v.Yes? && v.id == id {
        VerdictJustifies(select, n, n'.clients[id], v);
      }
    }
  }

  lemma GateReadsSound(b: Build, select: Select, n: Net, k: nat,
                       ps: seq<Packet<Request>>, qs: seq<Packet<Verdict>>)
    returns (qs': seq<Packet<Verdict>>)
    requires Repaired(b) && SoundWith(b, select, n, ps, qs) && Enabled(n, GateReads(k))
    ensures SoundWith(b, select, GateReadStep(b, n, k), ps, qs')
  {
    var buf, flight := n.gateBuf + n.toGate[..k], n.toGate[k..];
    var n' := GateReadStep(b, n, k);
    Shifted(n.gateBuf, n.toGate, k);
    StepOnStream(VerdictParser(b), qs, buf, flight);
    if qs == [] || |buf| < |qs[0].image| {
      GateReadMore(b, n, k);
      qs' := qs;
      LoggedGrows(b, n, n', ps);
      AnsweredGrows(b, select, n, n', qs);
      ClientsUntouched(select, n, n');
    } else {
      var rest := buf[|qs[0].image|..];
      GateReadItem(b, n, k, qs[0].value, rest);
      GateObeys(b, select, n, n', rest, flight, ps, qs);
      qs' := qs[1..];
    }
  }

  // ---------------------------------------------------------------- a login that is not consistent

  /** No packet can begin like a frame with a length too small to hold the serial id and two counts: the
      callback takes it too early. */
  lemma StuntedFrame(b: Build, frame: bytes, p: Packet<Request>)
    requires Repaired(b) && |frame| >= 13 && frame[0] == LOGIN && DeclaredLen(frame) <= 12
    requires p.image <= frame
    ensures !Delimited(DataParser(b), p)
  {
    assert p.image + [] == p.image;
    if |p.image| < 13 {
      DataWaits(b, p.image + []);
    } else {
      var g := frame[..13];
      assert g[..5] == frame[..5] && g == p.image[..13];
      SameHeader(b, g, frame);
      PeekIsRight(b, g);
      DataWaits(b, g);
      assert DataStep(b, g) == Underrun;
      if |p.image| == 13 {
        assert g == p.image;
        assert DataParser(b)(p.image + []) == Bad;
      } else {
        assert g < p.image && DataParser(b)(g) != More;
      }
    }
  }

  /** Nor can a packet begin a forwarded frame with an honest length whose counts do not add up. */
  lemma InconsistentFrame(b: Build, id: int, body: bytes, p: Packet<Request>)
    requires Repaired(b) && Fits(8, id) && |body| + 12 < U32 && !Consistent(body)
    requires p.image <= ForwardFrame(b.host, id, body)
    ensures !Delimited(DataParser(b), p)
  {
    var frame := ForwardFrame(b.host, id, body);
    ForwardHeader(b.host, id, body);
    if p.image == frame {
      LoginDelimitedExactly(b, id, body);
      assert p == Packet(p.value, frame);
    } else {
      WaitsForWhole(b, 13, frame, p.image);
      assert p.image + [] == p.image;
      DataWaits(b, p.image + []);
    }
  }

  lemma ForwardedParts(b: Build, id: int, s: bytes, frame: bytes, rest: bytes)
    requires Repaired(b) && Fits(8, id) && GateStep(b, false, id, s) == Forwarded(frame, rest)
    ensures |s| >= 5 && DeclaredLen(s) <= |s| - 1
    ensures var len := DeclaredLen(s);
            frame == Framed(LOGIN, (len + 8) % U32,
                            IntWire(b.host, 8, id) + Frames.Take(BodyLen(Intended, len), s[5..]))
  {
    hide IntWire;
    PeekIsRight(b, s);
  }

  lemma FramedHeader(tag: byte, len: nat, payload: bytes)
    requires len < U32
    ensures DeclaredLen(Framed(tag, len, payload)) == len
  {
    var w := LengthField(len);
    HeaderParts(tag, w, payload);
  }

  /** A length Gate can pass on goes with exactly the client's payload ... */
  lemma HonestForward(b: Build, id: int, s: bytes, frame: bytes, rest: bytes)
    requires Repaired(b) && Fits(8, id) && GateStep(b, false, id, s) == Forwarded(frame, rest)
    requires |s| >= 5 && 4 <= DeclaredLen(s) && DeclaredLen(s) + 8 < U32
    ensures DeclaredLen(s) <= |s| - 1 && frame == ForwardFrame(b.host, id, s[5..1 + DeclaredLen(s)])
  {
    hide GateStep, IntWire;
    ForwardedParts(b, id, s, frame, rest);
    var len := DeclaredLen(s);
    assert (len - 4) % U32 == len - 4 && (len + 8) % U32 == len + 8;
    assert Frames.Take(len - 4, s[5..]) == s[5..1 + len];
  }

  /** ... and any other becomes a length of twelve at most. */
  lemma StuntedForward(b: Build, id: int, s: bytes, frame: bytes, rest: bytes)
    requires Repaired(b) && Fits(8, id) && GateStep(b, false, id, s) == Forwarded(frame, rest)
    requires |s| >= 5 && !(4 <= DeclaredLen(s) && DeclaredLen(s) + 8 < U32)
    ensures |frame| >= 13 && frame[0] == LOGIN && DeclaredLen(frame) <= 12
  {
    hide GateStep, IntWire, Frames.Take;
    ForwardedParts(b, id, s, frame, rest);
    var len := DeclaredLen(s);
    FromBytesBound(s[1..5]);
    WordSizes();
    FramedHeader(LOGIN, (len + 8) % U32, IntWire(b.host, 8, id) + Frames.Take(BodyLen(Intended, len), s[5..]));
  }

  /** So whatever Gate forwards for a buffer that does not start with a consistent login, no packet can
      begin it. */
  lemma NoPacketInFront(b: Build, id: int, s: bytes, frame: bytes, rest: bytes, p: Packet<Request>)
    requires Repaired(b) && Fits(8, id) && GateStep(b, false, id, s) == Forwarded(frame, rest) && !ConsistentLogin(s)
    requires p.image <= frame
    ensures !Delimited(DataParser(b), p)
  {
    ForwardedParts(b, id, s, frame, rest);
    hide *;
    var len := DeclaredLen(s);
    if 4 <= len && len + 8 < U32 {
      HonestForward(b, id, s, frame, rest);
      NotConsistent(s);
      InconsistentFrame(b, id, s[5..1 + len], p);
    } else {
      StuntedForward(b, id, s, frame, rest);
      StuntedFrame(b, frame, p);
    }
  }

  lemma NotConsistent(s: bytes)
    requires !ConsistentLogin(s) && |s| >= 5 && 4 <= DeclaredLen(s) <= |s| - 1 && DeclaredLen(s) + 8 < U32
    ensures !Consistent(s[5..1 + DeclaredLen(s)])
  {
  }

  /** After that the bytes on their way to Data are no stream of packets any more. */
  lemma UntamedBreaksStream(b: Build, select: Select, n: Net, id: int, chunk: bytes)
    requires Repaired(b) && SoundNet(b, select, n) && Enabled(n, Receive(id, chunk)) && !Tame(b, n, Receive(id, chunk))
    ensures !SoundNet(b, select, ReceiveStep(b, n, id, chunk))
  {
    hide GateStep, ConsistentLogin, Delimited, DataParser, Answered, ClientOk;
    var n' := ReceiveStep(b, n, id, chunk);
    var c := Received(n.clients[id], chunk);
    var o := GateStep(b, c.authorized, id, c.buf);
    GateForwardsUnauthorized(b, c.authorized, id, c.buf);
    var ps, qs :| SoundWith(b, select, n, ps, qs);
    forall ps', qs' ensures !SoundWith(b, select, n', ps', qs') {
      if Logged(b, n', ps') {
        assert n'.dataBuf + n'.toData == (n.dataBuf + n.toData) + o.frame;
        var rs := StreamSuffix(DataParser(b), ps, o.frame, ps');
        assert |o.frame| > 0 && rs != [];
        assert rs[0].image <= Stream(rs);
        NoPacketInFront(b, id, c.buf, o.frame, o.rest, rs[0]);
      }
    }
  }

  lemma GateForwardsUnauthorized(b: Build, authorized: bool, id: int, s: bytes)
    requires Repaired(b) && Fits(8, id) && GateStep(b, authorized, id, s).Forwarded?
    ensures !authorized && |GateStep(b, authorized, id, s).frame| > 0
  {
  }

  // ---------------------------------------------------------------- over whole runs

  /** One step keeps the streams made of packets backed by the connections they name exactly when it
      does not forward a login whose counts do not add up. */
  lemma StepSound(b: Build, select: Select, n: Net, step: Step)
    requires Repaired(b) && SoundNet(b, select, n) && Enabled(n, step)
    requires forall name, pass :: Fits(8, select(name, pass))
    ensures SoundNet(b, select, Next(b, select, n, step)) <==> Tame(b, n, step)
  {
    if step.Receive? && !Tame(b, n, step) {
      UntamedBreaksStream(b, select, n, step.id, step.chunk);
    } else {
      TameStepSound(b, select, n, step);
    }
  }

  lemma TameStepSound(b: Build, select: Select, n: Net, step: Step)
    requires Repaired(b) && SoundNet(b, select, n) && Enabled(n, step) && Tame(b, n, step)
    requires forall name, pass :: Fits(8, select(name, pass))
    ensures SoundNet(b, select, Next(b, select, n, step))
  {
    hide SoundWith;
    var ps, qs :| SoundWith(b, select, n, ps, qs);
    match step
    case Connect(id) => ConnectSound(b, select, n, id, ps, qs);
    case Leave(id) => LeaveSound(b, select, n, id, ps, qs);
    case Receive(id, chunk) => var ps' := ReceiveSound(b, select, n, id, chunk, ps, qs);
    case DataReads(k) => var ps', qs' := DataReadsSound(b, select, n, k, ps, qs);
    case GateReads(k) => var qs' := GateReadsSound(b, select, n, k, ps, qs);
  }

  /** The invariant holds at every point of the run. */
  ghost predicate SoundThroughout(b: Build, select: Select, n: Net, steps: seq<Step>)
    decreases |steps|
  {
    SoundNet(b, select, n)
    && (steps != [] && Enabled(n, steps[0]) ==> SoundThroughout(b, select, Next(b, select, n, steps[0]), steps[1..]))
  }

  lemma {:induction false} RunSound(b: Build, select: Select, n: Net, steps: seq<Step>)
    requires Repaired(b) && SoundNet(b, select, n)
    requires forall name, pass :: Fits(8, select(name, pass))
    ensures SoundThroughout(b, select, n, steps) <==> TameRun(b, select, n, steps)
    decreases |steps|
  {
    hide SoundNet, Next, Tame, Enabled;
    if steps != [] && Enabled(n, steps[0]) {
      StepSound(b, select, n, steps[0]);
      var n' := Next(b, select, n, steps[0]);
      if SoundNet(b, select, n') {
        RunSound(b, select, n', steps[1..]);
      }
    }
  }

  lemma {:induction false} SoundAtEnd(b: Build, select: Select, n: Net, steps: seq<Step>)
    requires SoundThroughout(b, select, n, steps) && Exec(b, select, n, steps).Some?
    ensures SoundNet(b, select, Exec(b, select, n, steps).value)
    decreases |steps|
  {
    hide SoundNet, Next;
    if steps != [] {
      SoundAtEnd(b, select, Next(b, select, n, steps[0]), steps[1..]);
    }
  }

  lemma TameRunsAreSound(b: Build, select: Select, steps: seq<Step>, n: Net)
    requires Repaired(b) && (forall name, pass :: Fits(8, select(name, pass)))
    requires TameRun(b, select, EMPTY, steps) && Exec(b, select, EMPTY, steps) == Some(n)
    ensures SoundNet(b, select, n)
  {
    assert SoundWith(b, select, EMPTY, [], []);
    hide SoundNet, Exec;
    assert SoundNet(b, select, EMPTY);
    RunSound(b, select, EMPTY, steps);
    SoundAtEnd(b, select, EMPTY, steps);
  }

  /** In every reachable state of clients, servers and streams, whatever the reads cut out of them: an
      authorized connection has itself sent a login frame, taken as such by Gate, whose name and
      password the database maps to its user id.  The runs are those in which every login Gate forwards
      has counts that add up: RunSound says that these are exactly the runs in which the streams stay
      in step, and OutOfStep.StrayLogin is one of another kind. */
  lemma AuthorizationSound(b: Build, select: Select, steps: seq<Step>, n: Net, id: int)
    requires Repaired(b) && (forall name, pass :: Fits(8, select(name, pass)))
    requires TameRun(b, select, EMPTY, steps) && Exec(b, select, EMPTY, steps) == Some(n)
    requires id in n.clients && n.clients[id].authorized
    ensures n.clients[id].uid != -1
    ensures exists name, pass :: Carried(n.clients[id], name, pass) && select(name, pass) == n.clients[id].uid
  {
    TameRunsAreSound(b, select, steps, n);
    var ps, qs :| SoundWith(b, select, n, ps, qs);
    assert ClientOk(select, n, id);
  }

  /** ... and in these runs no callback has read past its buffer, authorized connection or not. */
  lemma NobodyOverreads(b: Build, select: Select, steps: seq<Step>, n: Net)
    requires Repaired(b) && (forall name, pass :: Fits(8, select(name, pass)))
    requires TameRun(b, select, EMPTY, steps) && Exec(b, select, EMPTY, steps) == Some(n)
    ensures !n.broken
  {
    TameRunsAreSound(b, select, steps, n);
  }

  // ---------------------------------------------------------------- frames one at a time

  lemma GateForwardsFrame(b: Build, n: Net, id: int, body: bytes)
    requires Repaired(b) && id in n.clients && Fits(8, id) && |body| + 12 < U32
    requires !n.clients[id].authorized && n.clients[id].buf == []
    ensures ReceiveStep(b, n, id, Frame(LOGIN, body))
         == n.(clients := n.clients[id := Fed(n.clients[id], Frame(LOGIN, body))],
               toData := n.toData + ForwardFrame(b.host, id, body))
  {
    hide GateStep, Frame, ForwardFrame;
    var f := Frame(LOGIN, body);
    assert [] + f == f && f + [] == f;
    ForwardIsExact(b, id, body, []);
  }

  /** A client after a whole frame that Gate took at once. */
  function Fed(c: Client, f: bytes): Client {
    c.(sent := c.sent + f, taken := c.taken + {|c.sent + f| - |f|})
  }

  lemma DataAnswersWhole(b: Build, select: Select, n: Net, l: Credentials)
    requires Repaired(b) && n.dataBuf == [] && n.toGate == [] && Sendable(l)
    requires n.toData == LoginPacket(b.host, l).image && Fits(8, select(l.name, l.pass))
    ensures DataReadStep(b, select, n, |n.toData|)
         == n.(toData := [], toGate := Reply(b.host, l.id, select(l.name, l.pass)))
  {
    hide Reply, DataStep, Delimited;
    var f := n.toData;
    LoginIsDelimited(b, l);
    assert [] + f[..|f|] == f && f + [] == f && f[|f|..] == [];
    DelimitedTakes(DataParser(b), LoginPacket(b.host, l), []);
    DataReadItem(b, select, n, |f|, l, []);
    assert [] + Reply(b.host, l.id, select(l.name, l.pass)) == Reply(b.host, l.id, select(l.name, l.pass));
  }

  /** Gate reads exactly the first reply in flight. */
  lemma GateObeysFirst(b: Build, n: Net, id: int, uid: int, tail: bytes)
    requires Repaired(b) && n.gateBuf == [] && id in n.clients && Fits(8, id) && Fits(8, uid)
    requires n.toGate == Reply(b.host, id, uid) + tail
    ensures GateReadStep(b, n, |Reply(b.host, id, uid)|) == n.(toGate := tail, clients := Ruled(n.clients, id, uid))
  {
    hide Reply, VerdictStep, Delimited;
    var f := Reply(b.host, id, uid);
    VerdictIsDelimited(b, id, uid);
    assert n.toGate[..|f|] == f && n.toGate[|f|..] == tail && [] + f == f && f + [] == f && f[|f|..] == [];
    DelimitedTakes(VerdictParser(b), VerdictPacket(b.host, id, uid), []);
    GateReadItem(b, n, |f|, VerdictPacket(b.host, id, uid).value, []);
  }

  /** The clients after a reply for `id`. */
  function Ruled(clients: map<int, Client>, id: int, uid: int): map<int, Client> {
    if uid == -1 || id !in clients then clients else clients[id := clients[id].(authorized := true, uid := uid)]
  }

  lemma ExecStep(b: Build, select: Select, n: Net, step: Step, n': Net, rest: seq<Step>, end: Net)
    requires Enabled(n, step) && Next(b, select, n, step) == n' && Exec(b, select, n', rest) == Some(end)
    ensures Exec(b, select, n, [step] + rest) == Some(end)
  {
    assert ([step] + rest)[1..] == rest;
  }

  // ---------------------------------------------------------------- intended: logins do go through

  predicate Quiet(n: Net) {
    !n.broken && n.toData == [] && n.dataBuf == [] && n.toGate == [] && n.gateBuf == []
  }

  /** From any state with quiet streams, an unauthorized connection that sends one login frame ends up
      authorized under the user id of the database exactly when the database knows the pair, and the
      streams are quiet again. */
  lemma LoginSucceeds(b: Build, select: Select, n: Net, id: int, name: bytes, pass: bytes)
    returns (steps: seq<Step>, n': Net)
    requires Repaired(b) && Quiet(n) && id in n.clients && Fits(8, id) && |LoginBody(name, pass)| + 12 < U32
    requires !n.clients[id].authorized && n.clients[id].buf == []
    requires Fits(8, select(name, pass))
    ensures |steps| == 3 && steps[0] == Receive(id, ClientFrame(name, pass)) && Exec(b, select, n, steps) == Some(n')
    ensures Quiet(n') && id in n'.clients
    ensures n'.clients[id].authorized <==> select(name, pass) != -1
    ensures n'.clients[id].authorized ==> n'.clients[id].uid == select(name, pass)
  {
    var uid, c := select(name, pass), n.clients[id];
    var f, img := ClientFrame(name, pass), LoginPacket(b.host, Credentials(id, name, pass)).image;
    var n1 := n.(clients := n.clients[id := Fed(c, f)], toData := img);
    var n2 := n1.(toData := [], toGate := Reply(b.host, id, uid));
    n' := n2.(toGate := [], clients := Ruled(n2.clients, id, uid));
    GateForwardsFrame(b, n, id, LoginBody(name, pass));
    assert [] + img == img && Reply(b.host, id, uid) + [] == Reply(b.host, id, uid);
    DataAnswersWhole(b, select, n1, Credentials(id, name, pass));
    GateObeysFirst(b, n2, id, uid, []);
    hide ReceiveStep, DataReadStep, GateReadStep, Frame, LoginBody, ForwardFrame, Exec;
    ReplyHeader(b.host, id, uid);
    hide Reply;
    steps := [Receive(id, f), DataReads(|img|), GateReads(|Reply(b.host, id, uid)|)];
    ThreeSteps(b, select, n, Receive(id, f), n1, DataReads(|img|), n2, GateReads(|Reply(b.host, id, uid)|), n');
  }

  lemma ThreeSteps(b: Build, select: Select, n: Net, s1: Step, n1: Net, s2: Step, n2: Net, s3: Step, n3: Net)
    requires Enabled(n, s1) && Next(b, select, n, s1) == n1
    requires Enabled(n1, s2) && Next(b, select, n1, s2) == n2
    requires Enabled(n2, s3) && Next(b, select, n2, s3) == n3
    ensures Exec(b, select, n, [s1, s2, s3]) == Some(n3)
  {
    assert [s1, s2, s3][1..] == [s2, s3] && [s2, s3][1..] == [s3] && [s3][1..] == [];
    assert Exec(b, select, n2, [s3]) == Some(n3);
    assert Exec(b, select, n1, [s2, s3]) == Exec(b, select, n2, [s3]);
  }
}
