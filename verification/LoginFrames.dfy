/** The packets of the login exchange, and exactly when each side can pick them out of a stream. */
module LoginFrames {
  import opened Options
  import opened Bytes
  import opened Codec
  import opened Buffers
  import opened Frames
  import opened Streams

  // ---------------------------------------------------------------- the length test on a growing buffer

  /** A buffer that shares the five header bytes of a frame is peeked at like the frame. */
  lemma SameHeader(b: Build, s: bytes, f: bytes)
    requires |s| >= 5 && |f| >= 5 && s[..5] == f[..5]
    ensures Peeked(b.host, b.peek, s) == Peeked(b.host, b.peek, f) && PeekAgrees(b, s) == PeekAgrees(b, f)
    ensures s[0] == f[0] && DeclaredLen(s) == DeclaredLen(f)
  {
    assert s[1..5] == s[..5][1..5] && f[1..5] == f[..5][1..5];
    assert s[0] == s[..5][0] && f[0] == f[..5][0];
  }

  /** Before a frame with an honest, correctly peeked length is complete, the callback waits. */
  lemma WaitsForWhole(b: Build, least: nat, f: bytes, buf: bytes)
    requires least >= 5 && |f| >= 5 && DeclaredLen(f) == |f| - 1 && PeekAgrees(b, f) && buf < f
    ensures !Accepts(b, least, buf)
  {
    if |buf| >= 5 {
      assert buf[..5] == f[..5];
      SameHeader(b, buf, f);
      PeekIsRight(b, f);
    }
  }

  /** A short frame whose length is peeked wrong is not accepted. */
  lemma ShortUnread(b: Build, least: nat, f: bytes)
    requires 5 <= least == |f| <= 255 && DeclaredLen(f) == |f| - 1 && !PeekAgrees(b, f)
    ensures !Accepts(b, least, f)
  {
    FromFour(f[1..5]);
    LittleEndianAccepts(b, f, least);
  }

  /** A frame whose length is peeked wrong is missed when it is complete, or taken before it is. */
  lemma WrongPeek(b: Build, least: nat, f: bytes) returns (buf: bytes)
    requires 5 <= least <= |f| && least <= 255 && DeclaredLen(f) == |f| - 1 && !PeekAgrees(b, f)
    ensures !Accepts(b, least, f) || (buf < f && Accepts(b, least, buf))
  {
    PeekIsRight(b, f);
    var peeked := Peeked(b.host, b.peek, f).value.1;
    buf := [];
    if least == |f| {
      ShortUnread(b, least, f);
    } else if peeked <= |f| - 1 {
      buf := f[..if peeked + 1 < least then least else peeked + 1];
      assert buf[..5] == f[..5];
      SameHeader(b, buf, f);
    }
  }

  lemma PlainHeader(tag: byte, payload: bytes)
    requires |payload| + 4 < U32
    ensures DeclaredLen(Frame(tag, payload)) == |payload| + 4
  {
    FrameHeader(tag, payload, []);
    assert Frame(tag, payload) + [] == Frame(tag, payload);
  }

  // ---------------------------------------------------------------- Gate to Data

  datatype Credentials = Credentials(id: int, name: bytes, pass: bytes)

  /** What Data finds in its stream: a login attempt, or a frame with another tag, which it skips.  The
      caller, HandleRead, does not look at the status by which the callback tells them apart. */
  datatype Request = Attempt(login: Credentials) | Skipped

  predicate Sendable(l: Credentials) {
    Fits(8, l.id) && |LoginBody(l.name, l.pass)| + 12 < U32
  }

  function LoginPacket(h: Host, l: Credentials): Packet<Request>
    requires Sendable(l)
  {
    Packet(Attempt(l), ForwardFrame(h, l.id, LoginBody(l.name, l.pass)))
  }

  /** The Data callback as a consumer of a stream. */
  function DataParser(b: Build): bytes -> Parse<Request> {
    s => match DataStep(b, s)
         case Incomplete => More
         case Login(id, name, pass, rest) => Item(Attempt(Credentials(id, name, pass)), rest)
         case Unknown(rest) => Item(Skipped, rest)
         case Underrun => Bad
  }

  lemma DataWaits(b: Build, s: bytes)
    ensures DataParser(b)(s) == More <==> !Accepts(b, 13, s)
  {
  }

  lemma LoginIsDelimited(b: Build, l: Credentials)
    requires Sendable(l) && PeekAgrees(b, LoginPacket(b.host, l).image)
    ensures Delimited(DataParser(b), LoginPacket(b.host, l))
  {
    var f := LoginPacket(b.host, l).image;
    PlainHeader(LOGIN, IntWire(b.host, 8, l.id) + LoginBody(l.name, l.pass));
    forall buf | buf < f ensures DataParser(b)(buf) == More {
      WaitsForWhole(b, 13, f, buf);
    }
    forall rest ensures DataParser(b)(f + rest) == Item(Attempt(l), rest) {
      assert (f + rest)[..5] == f[..5];
      SameHeader(b, f + rest, f);
      DataReadsForwarded(b, l.id, l.name, l.pass, rest);
    }
  }

  /** A frame with an honest length that is peeked wrong is no packet of any value. */
  lemma UnreadIsNotDelimited(b: Build, p: Packet<Request>)
    requires |p.image| >= 13 && DeclaredLen(p.image) == |p.image| - 1 && !PeekAgrees(b, p.image)
    ensures !Delimited(DataParser(b), p)
  {
    var buf := WrongPeek(b, 13, p.image);
    assert p.image + [] == p.image;
    DataWaits(b, p.image + []);
    DataWaits(b, buf);
  }

  lemma ForwardParsed(b: Build, id: int, body: bytes, rest: bytes)
    requires Fits(8, id) && |body| + 12 < U32 && PeekAgrees(b, ForwardFrame(b.host, id, body))
    ensures DataStep(b, ForwardFrame(b.host, id, body) + rest)
         == ParseLogin(b.host, IntWire(b.host, 8, id) + body + rest)
  {
    hide ParseLogin, IntWire;
    var w := IntWire(b.host, 8, id);
    var f := ForwardFrame(b.host, id, body);
    assert (f + rest)[..5] == f[..5];
    SameHeader(b, f + rest, f);
    AcceptsWhole(b, 13, LOGIN, w + body, rest);
    FrameHeader(LOGIN, w + body, rest);
  }

  /** A forwarded body whose counts do not add up puts the parse out of step with what follows. */
  lemma InconsistentIsNotDelimited(b: Build, id: int, body: bytes, v: Request)
    requires Fits(8, id) && |body| + 12 < U32 && !Consistent(body)
    requires PeekAgrees(b, ForwardFrame(b.host, id, body))
    ensures !Delimited(DataParser(b), Packet(v, ForwardFrame(b.host, id, body)))
  {
    hide ParseLogin, IntWire, Consistent, ForwardFrame, Accepts, DataStep;
    var f := ForwardFrame(b.host, id, body);
    ForwardParsed(b, id, body, [0]);
    ParseStaysInStep(b.host, IntWire(b.host, 8, id), body, [0]);
    ParseOutcomes(b.host, IntWire(b.host, 8, id) + body + [0]);
    assert DataParser(b)(f + [0]) != Item(v, [0]);
  }

  lemma ParseOutcomes(h: Host, t: bytes)
    ensures ParseLogin(h, t).Login? || ParseLogin(h, t).Underrun?
  {
  }

  lemma ForwardHeader(h: Host, id: int, body: bytes)
    requires Fits(8, id) && |body| + 12 < U32
    ensures |ForwardFrame(h, id, body)| == |body| + 13 && DeclaredLen(ForwardFrame(h, id, body)) == |body| + 12
    ensures ForwardFrame(h, id, body)[0] == LOGIN
  {
    PlainHeader(LOGIN, IntWire(h, 8, id) + body);
  }

  /** Data can pick a forwarded body out of a stream, however it is cut, exactly when PeekTagLen reads
      its length right and the two counts in it add up, that is, when it encodes a name and a password;
      what it then finds is that name and password under the serial id. */
  lemma LoginDelimitedExactly(b: Build, id: int, body: bytes)
    requires Fits(8, id) && |body| + 12 < U32
    ensures (exists v :: Delimited(DataParser(b), Packet(v, ForwardFrame(b.host, id, body)))) <==>
            (PeekAgrees(b, ForwardFrame(b.host, id, body)) && Consistent(body))
    ensures forall name, pass :: body == LoginBody(name, pass) && PeekAgrees(b, ForwardFrame(b.host, id, body)) ==>
              Delimited(DataParser(b), LoginPacket(b.host, Credentials(id, name, pass)))
  {
    hide Consistent, Delimited, DataParser;
    forall name, pass | body == LoginBody(name, pass) && PeekAgrees(b, ForwardFrame(b.host, id, body))
      ensures Delimited(DataParser(b), LoginPacket(b.host, Credentials(id, name, pass)))
    {
      LoginIsDelimited(b, Credentials(id, name, pass));
    }
    ConsistentExactly(body);
    ForwardHeader(b.host, id, body);
    forall v | !PeekAgrees(b, ForwardFrame(b.host, id, body)) || !Consistent(body)
      ensures !Delimited(DataParser(b), Packet(v, ForwardFrame(b.host, id, body)))
    {
      if !PeekAgrees(b, ForwardFrame(b.host, id, body)) {
        UnreadIsNotDelimited(b, Packet(v, ForwardFrame(b.host, id, body)));
      } else {
        InconsistentIsNotDelimited(b, id, body, v);
      }
    }
  }

  lemma UnknownIsDelimited(b: Build, tag: byte, payload: bytes)
    requires tag != LOGIN && 8 <= |payload| && |payload| + 4 < U32
    requires b.skip == Intended && PeekAgrees(b, Frame(tag, payload))
    ensures Delimited(DataParser(b), Packet(Skipped, Frame(tag, payload)))
  {
    var f := Frame(tag, payload);
    PlainHeader(tag, payload);
    forall buf | buf < f ensures DataParser(b)(buf) == More {
      WaitsForWhole(b, 13, f, buf);
    }
    forall rest ensures DataParser(b)(f + rest) == Item(Skipped, rest) {
      assert (f + rest)[..5] == f[..5];
      SameHeader(b, f + rest, f);
      UnknownFrameResync(b, tag, payload, rest);
    }
  }

  lemma UnskippedIsNotDelimited(b: Build, tag: byte, payload: bytes)
    requires tag != LOGIN && 8 <= |payload| && |payload| + 4 < U32
    requires b.skip == AsWritten && PeekAgrees(b, Frame(tag, payload))
    ensures !Delimited(DataParser(b), Packet(Skipped, Frame(tag, payload)))
  {
    var f := Frame(tag, payload);
    assert (f + [0])[..5] == f[..5];
    SameHeader(b, f + [0], f);
    UnknownFrameResync(b, tag, payload, [0]);
    assert DataParser(b)(f + [0]) != Item(Skipped, [0]);
  }

  /** Data gets past a frame with another tag, however the stream is cut, exactly when PeekTagLen reads
      its length right, its default branch is put right, and the frame is long enough to be noticed
      before the next one comes. */
  lemma UnknownDelimitedExactly(b: Build, tag: byte, payload: bytes)
    requires tag != LOGIN && |payload| + 4 < U32
    ensures Delimited(DataParser(b), Packet(Skipped, Frame(tag, payload))) <==>
            (PeekAgrees(b, Frame(tag, payload)) && b.skip == Intended && |payload| >= 8)
  {
    var f := Frame(tag, payload);
    PlainHeader(tag, payload);
    if |payload| < 8 {
      assert f + [] == f;
      assert DataParser(b)(f + []) == More;
    } else if !PeekAgrees(b, f) {
      UnreadIsNotDelimited(b, Packet(Skipped, f));
    } else if b.skip == AsWritten {
      UnskippedIsNotDelimited(b, tag, payload);
    } else {
      UnknownIsDelimited(b, tag, payload);
    }
  }

  /** What may travel to Data: a login, or a frame with another tag. */
  datatype Message = LoginMessage(login: Credentials) | OtherMessage(tag: byte, payload: bytes)

  /** Data can tell where the message ends. */
  predicate Legible(b: Build, m: Message) {
    match m
    case LoginMessage(l) => Sendable(l) && PeekAgrees(b, LoginPacket(b.host, l).image)
    case OtherMessage(tag, payload) =>
      tag != LOGIN && |payload| + 4 < U32 && b.skip == Intended && PeekAgrees(b, Frame(tag, payload))
  }

  /** How much must follow before Data notices the message: thirteen bytes in all. */
  function Wait(m: Message): nat {
    if m.OtherMessage? && |m.payload| < 8 then 8 - |m.payload| else 0
  }

  predicate AllLegible(b: Build, ms: seq<Message>) {
    forall i :: 0 <= i < |ms| ==> Legible(b, ms[i])
  }

  function RequestOf(m: Message): Request {
    match m
    case LoginMessage(l) => Attempt(l)
    case OtherMessage(_, _) => Skipped
  }

  function MessagePacket(b: Build, m: Message): (p: Packet<Request>)
    requires Legible(b, m)
    ensures p.value == RequestOf(m)
  {
    match m
    case LoginMessage(l) => LoginPacket(b.host, l)
    case OtherMessage(tag, payload) => Packet(Skipped, Frame(tag, payload))
  }

  function Requests(ms: seq<Message>): (rs: seq<Request>)
    ensures |rs| == |ms| && forall i :: 0 <= i < |ms| ==> rs[i] == RequestOf(ms[i])
  {
    seq(|ms|, i requires 0 <= i < |ms| => RequestOf(ms[i]))
  }

  function MessagePackets(b: Build, ms: seq<Message>): (ps: seq<Packet<Request>>)
    requires AllLegible(b, ms)
    ensures |ps| == |ms| && forall i :: 0 <= i < |ms| ==> ps[i] == MessagePacket(b, ms[i])
  {
    seq(|ms|, i requires 0 <= i < |ms| => MessagePacket(b, ms[i]))
  }

  function Waits(ms: seq<Message>): (ws: seq<nat>)
    ensures |ws| == |ms| && forall i :: 0 <= i < |ms| ==> ws[i] == Wait(ms[i])
  {
    seq(|ms|, i requires 0 <= i < |ms| => Wait(ms[i]))
  }

  /** A short unknown frame is noticed with the bytes that follow it, and skipped exactly. */
  lemma ShortUnknownIsPatient(b: Build, tag: byte, payload: bytes)
    requires Legible(b, OtherMessage(tag, payload)) && |payload| < 8
    ensures Patient(DataParser(b), Packet(Skipped, Frame(tag, payload)), 8 - |payload|)
  {
    var f := Frame(tag, payload);
    PlainHeader(tag, payload);
    forall buf | buf < f ensures DataParser(b)(buf) == More {
      DataWaits(b, buf);
    }
    forall rest
      ensures DataParser(b)(f + rest) == if |rest| >= 8 - |payload| then Item(Skipped, rest) else More
    {
      assert (f + rest)[..5] == f[..5];
      SameHeader(b, f + rest, f);
      if |rest| >= 8 - |payload| {
        UnknownFrameResync(b, tag, payload, rest);
      } else {
        DataWaits(b, f + rest);
      }
    }
  }

  lemma MessageIsPatient(b: Build, m: Message)
    requires Legible(b, m)
    ensures Patient(DataParser(b), MessagePacket(b, m), Wait(m))
  {
    match m
    case LoginMessage(l) => LoginIsDelimited(b, l);
    case OtherMessage(tag, payload) =>
      if |payload| < 8 {
        ShortUnknownIsPatient(b, tag, payload);
      } else {
        UnknownIsDelimited(b, tag, payload);
      }
  }

  /** The messages handled once all bytes are there: until fewer than thirteen are left. */
  function Noticed(b: Build, ms: seq<Message>): seq<Message>
    requires AllLegible(b, ms)
  {
    if ms == [] || |Stream(MessagePackets(b, ms))| < 13 then [] else [ms[0]] + Noticed(b, ms[1..])
  }

  lemma MessageSize(b: Build, m: Message)
    requires Legible(b, m)
    ensures 5 <= |MessagePacket(b, m).image|
    ensures var n := |MessagePacket(b, m).image|; Wait(m) == if n < 13 then 13 - n else 0
  {
  }

  lemma MessageTail(b: Build, ms: seq<Message>)
    requires AllLegible(b, ms) && ms != []
    ensures AllLegible(b, ms[1..]) && MessagePackets(b, ms)[1..] == MessagePackets(b, ms[1..])
    ensures Waits(ms)[1..] == Waits(ms[1..])
  {
  }

  lemma RequestsCons(m: Message, ms: seq<Message>)
    ensures Requests([m] + ms) == [RequestOf(m)] + Requests(ms)
  {
  }

  /** The first message is handled exactly when thirteen bytes are there. */
  lemma FirstRipe(b: Build, ms: seq<Message>)
    requires AllLegible(b, ms) && ms != []
    ensures var ps, ws := MessagePackets(b, ms), Waits(ms);
            Ripe(ps, ws) == if |Stream(ps)| < 13 then [] else [RequestOf(ms[0])] + Ripe(ps[1..], ws[1..])
  {
    MessageSize(b, ms[0]);
    hide Legible, MessagePacket, Wait;
  }

  lemma {:induction false} RipeIsNoticed(b: Build, ms: seq<Message>)
    requires AllLegible(b, ms)
    ensures Ripe(MessagePackets(b, ms), Waits(ms)) == Requests(Noticed(b, ms))
  {
    if ms != [] {
      MessageTail(b, ms);
      FirstRipe(b, ms);
      hide Legible, MessagePacket, Wait, Ripe, Stream, AllLegible, Waits, MessagePackets, Requests;
      RipeIsNoticed(b, ms[1..]);
      RequestsCons(ms[0], Noticed(b, ms[1..]));
      NoRequests();
    }
  }

  lemma NoRequests()
    ensures Requests([]) == []
  {
  }

  /** All of them are, exactly when the last one is long enough to be noticed by itself. */
  lemma {:induction false} AllNoticed(b: Build, ms: seq<Message>)
    requires AllLegible(b, ms)
    ensures Noticed(b, ms) == ms <==> ms == [] || Wait(ms[|ms| - 1]) == 0
    decreases |ms|
  {
    if ms != [] {
      MessageTail(b, ms);
      MessageSize(b, ms[0]);
      AllNoticed(b, ms[1..]);
      hide Legible, MessagePacket, Wait;
      if |ms| > 1 {
        LastCounts(b, ms[1..]);
      }
      assert ms == [ms[0]] + ms[1..];
    }
  }

  /** A last message long enough makes the stream long enough. */
  lemma {:induction false} LastCounts(b: Build, ms: seq<Message>)
    requires AllLegible(b, ms) && ms != []
    ensures Wait(ms[|ms| - 1]) == 0 ==> |Stream(MessagePackets(b, ms))| >= 13
    decreases |ms|
  {
    MessageTail(b, ms);
    MessageSize(b, ms[0]);
    if |ms| > 1 {
      LastCounts(b, ms[1..]);
    }
  }

  lemma MessagesArePatient(b: Build, ms: seq<Message>)
    requires AllLegible(b, ms)
    ensures AllPatient(DataParser(b), MessagePackets(b, ms), Waits(ms))
  {
    var ps := MessagePackets(b, ms);
    hide Legible, Patient, MessagePacket, Wait;
    forall i | 0 <= i < |ps| ensures Patient(DataParser(b), ps[i], Waits(ms)[i]) {
      MessageIsPatient(b, ms[i]);
    }
    DataWaits(b, []);
  }

  /** For every mixed stream of logins and other frames, short ones among them, and every way of cutting it
      into reads, with one frame at most consumed per read: what Data has handled, then what it would still
      handle, is what was sent, up to a last frame too short to be noticed. */
  lemma DataChunkingIndependence(b: Build, ms: seq<Message>, chunks: seq<bytes>, unread: bytes)
    requires AllLegible(b, ms) && Joined(chunks) + unread == Stream(MessagePackets(b, ms))
    ensures Deliver(DataParser(b), [], chunks).Some?
    ensures var (got, left) := Deliver(DataParser(b), [], chunks).value;
            got + Decode(DataParser(b), left + unread) == Requests(Noticed(b, ms))
    ensures Noticed(b, ms) == ms <==> ms == [] || Wait(ms[|ms| - 1]) == 0
  {
    MessagesArePatient(b, ms);
    hide Legible, MessagePacket, Stream, Decode, Deliver, Joined, Wait, Noticed;
    PatientIsStable(DataParser(b), MessagePackets(b, ms), Waits(ms));
    RipeIsNoticed(b, ms);
    AllNoticed(b, ms);
    ChunkingIndependence(DataParser(b), chunks, unread);
  }

  // ---------------------------------------------------------------- Data to Gate

  datatype Verdict = Yes(id: int, uid: int) | No

  function VerdictParser(b: Build): bytes -> Parse<Verdict> {
    s => match VerdictStep(b, s)
         case Partial => More
         case Overread => Bad
         case Granted(id, uid, rest) => Item(Yes(id, uid), rest)
         case Dropped(rest) => Item(No, rest)
  }

  function VerdictOf(id: int, uid: int): Verdict {
    if uid == -1 then No else Yes(id, uid)
  }

  function VerdictPacket(h: Host, id: int, uid: int): Packet<Verdict>
    requires Fits(8, id) && Fits(8, uid)
  {
    Packet(VerdictOf(id, uid), Reply(h, id, uid))
  }

  lemma ShortHeader(f: bytes)
    requires |f| >= 5 && DeclaredLen(f) < 256
    ensures f[1] == f[2] == f[3] == 0
  {
    FromFour(f[1..5]);
  }

  lemma ReplyHeader(h: Host, id: int, uid: int)
    requires Fits(8, id) && Fits(8, uid)
    ensures var f := Reply(h, id, uid);
            DeclaredLen(f) == |f| - 1 && |f| == (if uid == -1 then 13 else 21) && f[1] == f[2] == f[3] == 0
  {
    hide IntWire, DeclaredLen;
    var payload := if uid == -1 then IntWire(h, 8, id) else IntWire(h, 8, id) + IntWire(h, 8, uid);
    var tag := if uid == -1 then FAILURE else SUCCESS;
    PlainHeader(tag, payload);
    ShortHeader(Frame(tag, payload));
  }

  lemma VerdictIsDelimited(b: Build, id: int, uid: int)
    requires Fits(8, id) && Fits(8, uid) && PeekAgrees(b, Reply(b.host, id, uid))
    requires uid != -1 || b.failure == Intended
    ensures Delimited(VerdictParser(b), VerdictPacket(b.host, id, uid))
  {
    var p := VerdictPacket(b.host, id, uid);
    var f := p.image;
    ReplyHeader(b.host, id, uid);
    forall buf | buf < f ensures VerdictParser(b)(buf) == More {
      WaitsForWhole(b, 13, f, buf);
    }
    forall rest ensures VerdictParser(b)(f + rest) == Item(p.value, rest) {
      assert (f + rest)[..5] == f[..5];
      SameHeader(b, f + rest, f);
      VerdictReadsReply(b, id, uid, rest);
    }
  }

  lemma UnreadReplyIsNotDelimited(b: Build, id: int, uid: int)
    requires Fits(8, id) && Fits(8, uid) && !PeekAgrees(b, Reply(b.host, id, uid))
    ensures !Delimited(VerdictParser(b), VerdictPacket(b.host, id, uid))
  {
    hide Reply;
    var f := Reply(b.host, id, uid);
    assert f + [] == f;
    ReplyHeader(b.host, id, uid);
    LittleEndianAccepts(b, f, 13);
    assert VerdictParser(b)(f + []) == More;
  }

  lemma FailureIsNotDelimited(b: Build, id: int)
    requires Fits(8, id) && b.failure == AsWritten && PeekAgrees(b, Reply(b.host, id, -1))
    ensures !Delimited(VerdictParser(b), VerdictPacket(b.host, id, -1))
  {
    hide Reply, VerdictStep;
    var f := Reply(b.host, id, -1);
    assert f + [] == f;
    FailureReply(b, id, []);
    assert VerdictParser(b)(f + []) != Item(No, []);
  }

  /** Gate can pick a reply out of the stream exactly when PeekTagLen reads its length right and it is
      not a failure met by the callback as written. */
  lemma VerdictDelimitedExactly(b: Build, id: int, uid: int)
    requires Fits(8, id) && Fits(8, uid)
    ensures Delimited(VerdictParser(b), VerdictPacket(b.host, id, uid)) <==>
            (PeekAgrees(b, Reply(b.host, id, uid)) && (uid != -1 || b.failure == Intended))
  {
    if PeekAgrees(b, Reply(b.host, id, uid)) && (uid != -1 || b.failure == Intended) {
      VerdictIsDelimited(b, id, uid);
    } else if PeekAgrees(b, Reply(b.host, id, uid)) {
      FailureIsNotDelimited(b, id);
    } else {
      UnreadReplyIsNotDelimited(b, id, uid);
    }
  }

  /** The outcome of one login: the request and the user id or -1. */
  datatype Answer = Answer(id: int, uid: int)

  predicate Readable(b: Build, a: Answer) {
    && Fits(8, a.id) && Fits(8, a.uid) && PeekAgrees(b, Reply(b.host, a.id, a.uid))
    && (a.uid != -1 || b.failure == Intended)
  }

  predicate AllReadable(b: Build, xs: seq<Answer>) {
    forall i :: 0 <= i < |xs| ==> Readable(b, xs[i])
  }

  function VerdictPackets(b: Build, xs: seq<Answer>): (ps: seq<Packet<Verdict>>)
    requires AllReadable(b, xs)
    ensures |ps| == |xs| && forall i :: 0 <= i < |xs| ==> ps[i] == VerdictPacket(b.host, xs[i].id, xs[i].uid)
  {
    seq(|xs|, i requires 0 <= i < |xs| => VerdictPacket(b.host, xs[i].id, xs[i].uid))
  }

  function Verdicts(xs: seq<Answer>): (vs: seq<Verdict>)
    ensures |vs| == |xs| && forall i :: 0 <= i < |xs| ==> vs[i] == VerdictOf(xs[i].id, xs[i].uid)
  {
    seq(|xs|, i requires 0 <= i < |xs| => VerdictOf(xs[i].id, xs[i].uid))
  }

  /** The same for the replies on their way back to Gate, failures among them. */
  lemma GateChunkingIndependence(b: Build, xs: seq<Answer>, chunks: seq<bytes>, unread: bytes)
    requires AllReadable(b, xs) && Joined(chunks) + unread == Stream(VerdictPackets(b, xs))
    ensures Deliver(VerdictParser(b), [], chunks).Some?
    ensures var (got, left) := Deliver(VerdictParser(b), [], chunks).value;
            got + Decode(VerdictParser(b), left + unread) == Verdicts(xs)
  {
    hide Delimited, Reply, Stream, Decode, Deliver, Joined, VerdictOf;
    var ps := VerdictPackets(b, xs);
    forall i | 0 <= i < |ps| ensures Delimited(VerdictParser(b), ps[i]) {
      VerdictIsDelimited(b, xs[i].id, xs[i].uid);
    }
    assert VerdictParser(b)([]) == More;
    PacketsArrive(VerdictParser(b), ps, chunks, unread);
    ValuesAt(ps);
    assert Values(ps) == Verdicts(xs);
  }

  // ---------------------------------------------------------------- client to Gate

  /** The client callback as a consumer of a stream, for a connection whose logins it forwards.  A frame
      with another tag makes it throw its whole buffer away. */
  function ClientParser(b: Build, id: int): bytes -> Parse<bytes>
    requires Fits(8, id)
  {
    s => match GateStep(b, b.polarity == AsWritten, id, s)
         case Forwarded(frame, rest) => Item(frame, rest)
         case Refused => Bad
         case _ => More
  }

  lemma ClientWaits(b: Build, id: int, s: bytes)
    requires Fits(8, id)
    ensures ClientParser(b, id)(s) == More <==> !Accepts(b, 5, s)
  {
  }

  lemma ClientIsDelimited(b: Build, id: int, body: bytes)
    requires Fits(8, id) && |body| + 12 < U32 && PeekAgrees(b, Frame(LOGIN, body)) && b.cut == Intended
    ensures Delimited(ClientParser(b, id), Packet(ForwardFrame(b.host, id, body), Frame(LOGIN, body)))
  {
    hide ForwardFrame, Forward;
    var f := Frame(LOGIN, body);
    PlainHeader(LOGIN, body);
    forall buf | buf < f ensures ClientParser(b, id)(buf) == More {
      WaitsForWhole(b, 5, f, buf);
    }
    forall rest ensures ClientParser(b, id)(f + rest) == Item(ForwardFrame(b.host, id, body), rest) {
      assert (f + rest)[..5] == f[..5];
      SameHeader(b, f + rest, f);
      ForwardIsExact(b, id, body, rest);
    }
  }

  lemma UnreadClientIsNotDelimited(b: Build, id: int, p: Packet<bytes>)
    requires Fits(8, id) && |p.image| >= 5 && DeclaredLen(p.image) == |p.image| - 1 && !PeekAgrees(b, p.image)
    ensures !Delimited(ClientParser(b, id), p)
  {
    var buf := WrongPeek(b, 5, p.image);
    assert p.image + [] == p.image;
    ClientWaits(b, id, p.image + []);
    ClientWaits(b, id, buf);
  }

  /** Gate can pick a client's login out of what the client sends, and forward exactly that, however it
      is cut into reads, exactly when PeekTagLen reads its length right and ReadString is given the
      corrected length. */
  lemma ClientDelimitedExactly(b: Build, id: int, body: bytes)
    requires Fits(8, id) && |body| + 12 < U32
    ensures Delimited(ClientParser(b, id), Packet(ForwardFrame(b.host, id, body), Frame(LOGIN, body))) <==>
            (PeekAgrees(b, Frame(LOGIN, body)) && b.cut == Intended)
  {
    hide ForwardFrame, Forward;
    var f := Frame(LOGIN, body);
    PlainHeader(LOGIN, body);
    if !PeekAgrees(b, f) {
      UnreadClientIsNotDelimited(b, id, Packet(ForwardFrame(b.host, id, body), f));
    } else if b.cut == Intended {
      ClientIsDelimited(b, id, body);
    } else {
      assert (f + [0])[..5] == f[..5];
      SameHeader(b, f + [0], f);
      ForwardIsExact(b, id, body, [0]);
      assert ClientParser(b, id)(f + [0]) != Item(ForwardFrame(b.host, id, body), [0]);
    }
  }

  predicate Forwardable(b: Build, body: bytes) {
    |body| + 12 < U32 && b.cut == Intended && PeekAgrees(b, Frame(LOGIN, body))
  }

  predicate AllForwardable(b: Build, bodies: seq<bytes>) {
    forall i :: 0 <= i < |bodies| ==> Forwardable(b, bodies[i])
  }

  /** What Gate forwards for a client's logins. */
  function Forwards(b: Build, id: int, bodies: seq<bytes>): (fs: seq<bytes>)
    requires Fits(8, id)
    ensures |fs| == |bodies| && forall i :: 0 <= i < |bodies| ==> fs[i] == ForwardFrame(b.host, id, bodies[i])
  {
    seq(|bodies|, i requires 0 <= i < |bodies| => ForwardFrame(b.host, id, bodies[i]))
  }

  function ClientPackets(b: Build, id: int, bodies: seq<bytes>): (ps: seq<Packet<bytes>>)
    requires Fits(8, id)
    ensures |ps| == |bodies|
    ensures forall i :: 0 <= i < |bodies| ==>
      ps[i] == Packet(ForwardFrame(b.host, id, bodies[i]), Frame(LOGIN, bodies[i]))
  {
    seq(|bodies|, i requires 0 <= i < |bodies| =>
      Packet(ForwardFrame(b.host, id, bodies[i]), Frame(LOGIN, bodies[i])))
  }

  /** And the same for what a client sends to Gate: the frames forwarded are its logins behind its serial
      id, whether their counts add up or not. */
  lemma ClientChunkingIndependence(b: Build, id: int, bodies: seq<bytes>, chunks: seq<bytes>, unread: bytes)
    requires Fits(8, id) && AllForwardable(b, bodies)
    requires Joined(chunks) + unread == Stream(ClientPackets(b, id, bodies))
    ensures Deliver(ClientParser(b, id), [], chunks).Some?
    ensures var (got, left) := Deliver(ClientParser(b, id), [], chunks).value;
            got + Decode(ClientParser(b, id), left + unread) == Forwards(b, id, bodies)
  {
    hide Delimited, Stream, Decode, Deliver, Joined, Frame, ForwardFrame;
    var ps := ClientPackets(b, id, bodies);
    forall i | 0 <= i < |ps| ensures Delimited(ClientParser(b, id), ps[i]) {
      ClientIsDelimited(b, id, bodies[i]);
    }
    ClientWaits(b, id, []);
    PacketsArrive(ClientParser(b, id), ps, chunks, unread);
    ValuesAt(ps);
    assert Values(ps) == Forwards(b, id, bodies);
  }
}
