/** The frames of the login exchange, and what each server callback makes of its receive buffer. */
module Frames {
  import opened Options
  import opened Bytes
  import opened Codec
  import opened Buffers

  const LOGIN: byte := 108      // 'l'
  const SUCCESS: byte := 115    // 's'
  const FAILURE: byte := 120    // 'x'

  /** What varies: the host, and each place at which the code departs from its intent, on its own.
      `peek` is PeekTagLen; `skip` Data's skipping of an unknown frame; `cut` Gate's reading of a client's
      body; `polarity` Gate's test whom to forward for; `failure` its treatment of a negative reply; and
      `lookup` the search for the connection a reply names. */
  datatype Build = Build(host: Host, peek: Form, skip: Form, cut: Form, polarity: Form, failure: Form, lookup: Form)

  function Framed(tag: byte, len: nat, payload: bytes): (s: bytes)
    ensures |s| == 5 + |payload| && s[0] == tag
  {
    [tag] + ToBytes(4, len) + payload
  }

  /** | tag | len | payload |, where len counts its own four bytes. */
  function Frame(tag: byte, payload: bytes): (s: bytes)
    ensures |s| == 5 + |payload| && s[0] == tag
  {
    Framed(tag, |payload| + 4, payload)
  }

  function DeclaredLen(s: bytes): nat
    requires |s| >= 5
  {
    FromBytes(s[1..5])
  }

  function Take(n: nat, s: bytes): (r: bytes)
    ensures |r| == if n < |s| then n else |s|
  {
    if n < |s| then s[..n] else s
  }

  function Drop(n: nat, s: bytes): (r: bytes)
    ensures |r| == if n < |s| then |s| - n else 0
  {
    if n < |s| then s[n..] else []
  }

  // ---------------------------------------------------------------- the length test

  /** The callbacks' test that a whole frame has arrived; `least` is 13 or 5. */
  predicate Accepts(b: Build, least: nat, s: bytes)
    requires least >= 5
  {
    |s| >= least && Peeked(b.host, b.peek, s).value.1 <= |s| - 1
  }

  /** PeekTagLen tells the declared length. */
  predicate PeekAgrees(b: Build, s: bytes)
    requires |s| >= 5
  {
    b.peek == Intended || b.host == BigEndian || s[1..5] == Reversed(s[1..5])
  }

  lemma FromBytesInjective(s: bytes, t: bytes)
    requires |s| == |t| && FromBytes(s) == FromBytes(t)
    ensures s == t
  {
    ToFrom(s);
    ToFrom(t);
  }

  /** PeekTagLen as written yields the length in the frame exactly on a big-endian host or for a
      length whose four bytes read the same backwards; the intended conversion always does. */
  lemma PeekIsRight(b: Build, s: bytes)
    requires |s| >= 5
    ensures Peeked(b.host, b.peek, s).Some?
    ensures Peeked(b.host, b.peek, s).value.1 == DeclaredLen(s) <==> PeekAgrees(b, s)
  {
    var w := s[1..5];
    ImageLoad(b.host, w);
    if FromBytes(w) == FromBytes(Reversed(w)) {
      FromBytesInjective(w, Reversed(w));
    }
  }

  lemma {:induction false} FromBytesOne(x: byte)
    ensures FromBytes([x]) == x
  {
    assert [x][..0] == [];
  }

  lemma FromFour(s: bytes)
    requires |s| == 4
    ensures var a: int, b: int, c: int := s[0], s[1], s[2];
            FromBytes(s) == 0x100_0000 * a + 0x1_0000 * b + 0x100 * c + s[3]
  {
    var a: int := s[0];
    FromBytesOne(s[0]);
    assert s[..3][..2] == s[..2] && s[..2][..1] == [s[0]];
    assert FromBytes(s[..2]) == 256 * a + s[1];
    assert FromBytes(s[..3]) == 256 * FromBytes(s[..2]) + s[2];
  }

  /** On a little-endian host, as written, a frame shorter than 256 bytes passes the length test only
      once 16 MiB have been buffered for each unit of its length: in effect, never. */
  lemma LittleEndianAccepts(b: Build, s: bytes, least: nat)
    requires b.host == LittleEndian && b.peek == AsWritten
    requires |s| >= least >= 5 && s[1] == 0 && s[2] == 0 && s[3] == 0
    ensures DeclaredLen(s) == s[4]
    ensures var len: int := s[4];
            Accepts(b, least, s) <==> 0x100_0000 * len <= |s| - 1
  {
    FromFour(s[1..5]);
    FromFour(Reversed(s[1..5]));
  }

  lemma HeaderParts(tag: byte, w: bytes, tail: bytes)
    requires |w| == 4
    ensures var s := [tag] + w + tail; s[0] == tag && s[1..5] == w && s[5..] == tail
  {
  }

  lemma FrameHeader(tag: byte, payload: bytes, rest: bytes)
    requires |payload| + 4 < U32
    ensures var s := Frame(tag, payload) + rest;
            && s[0] == tag && s[5..] == payload + rest && DeclaredLen(s) == |payload| + 4
  {
    var w := LengthField(|payload| + 4);
    var s := Frame(tag, payload) + rest;
    assert s == [tag] + w + (payload + rest);
    HeaderParts(tag, w, payload + rest);
  }

  lemma LengthField(n: nat) returns (w: bytes)
    requires n < U32
    ensures w == ToBytes(4, n) && FromBytes(w) == n
  {
    WordSizes();
    FromTo(4, n);
    w := ToBytes(4, n);
  }

  /** A whole frame with an honest length passes the test, once enough is buffered. */
  lemma AcceptsWhole(b: Build, least: nat, tag: byte, payload: bytes, rest: bytes)
    requires least >= 5 && |payload| + 4 < U32 && 5 + |payload| + |rest| >= least
    requires PeekAgrees(b, Frame(tag, payload) + rest)
    ensures Accepts(b, least, Frame(tag, payload) + rest)
  {
    FrameHeader(tag, payload, rest);
    PeekIsRight(b, Frame(tag, payload) + rest);
  }

  // ---------------------------------------------------------------- Data server

  /** Underrun: the source reads an integer past the bytes it has buffered. */
  datatype DataOutcome =
    | Incomplete
    | Underrun
    | Unknown(rest: bytes)
    | Login(id: int, name: bytes, pass: bytes, rest: bytes)

  /** A counted string: the count, then as much of it as is buffered. */
  function Counted(s: bytes): Option<(bytes, bytes)> {
    if |s| < 4 then None
    else Some((Take(FromBytes(s[..4]), s[4..]), Drop(FromBytes(s[..4]), s[4..])))
  }

  /** The body of a login frame, from the id on; it is not bounded by the frame's own length. */
  function ParseLogin(h: Host, t: bytes): DataOutcome {
    if |t| < 8 then Underrun else
    match Counted(t[8..])
    case None => Underrun
    case Some((name, u)) =>
      match Counted(u)
      case None => Underrun
      case Some((pass, rest)) => Login(IntRead(h, t[..8]), name, pass, rest)
  }

  /** How many bytes a callback skips or reads after the length field: as written, `len` itself. */
  function BodyLen(form: Form, len: nat): (n: nat)
    ensures len < U32 ==> n < U32
  {
    if form == AsWritten then len else (len - 4) % U32
  }

  function DataStep(b: Build, s: bytes): DataOutcome {
    if !Accepts(b, 13, s) then Incomplete
    else if s[0] == LOGIN then ParseLogin(b.host, s[5..])
    else Unknown(Drop(BodyLen(b.skip, DeclaredLen(s)), s[5..]))
  }

  /** The length test compares the peeked length with everything buffered behind the tag. */
  lemma AcceptsExactly(b: Build, least: nat, s: bytes)
    requires least >= 5
    ensures Accepts(b, least, s) <==>
      |s| >= least
      && FromBytes(if b.peek == Intended || b.host == BigEndian then s[1..5] else Reversed(s[1..5])) <= |s| - 1
  {
    if |s| >= 5 {
      PeekedLength(b.host, s[1..5]);
    }
  }

  /** What Data makes of its buffer, by length test and tag; the skip is that of Buffer::Forward. */
  lemma DataExactly(b: Build, s: bytes)
    ensures !Accepts(b, 13, s) ==> DataStep(b, s) == Incomplete
    ensures Accepts(b, 13, s) && s[0] == 108 ==> DataStep(b, s) == ParseLogin(b.host, s[5..])
    ensures Accepts(b, 13, s) && s[0] != 108 && b.skip == AsWritten ==>
      DataStep(b, s) == Unknown(if FromBytes(s[1..5]) < |s| - 5 then s[5 + FromBytes(s[1..5])..] else [])
  {
  }

  /** The reply to a login: failure names the request, success adds the user id. */
  function Reply(h: Host, id: int, uid: int): bytes
    requires Fits(8, id) && Fits(8, uid)
  {
    if uid == -1 then Frame(FAILURE, IntWire(h, 8, id))
    else Frame(SUCCESS, IntWire(h, 8, id) + IntWire(h, 8, uid))
  }

  function Text(s: bytes): bytes {
    ToBytes(4, |s|) + s
  }

  /** What a client sends after the header of a login frame. */
  function LoginBody(name: bytes, pass: bytes): bytes {
    Text(name) + Text(pass)
  }

  lemma CountedParts(w: bytes, s: bytes, rest: bytes)
    requires |w| == 4 && FromBytes(w) == |s|
    ensures Counted(w + s + rest) == Some((s, rest))
  {
    var t := w + s + rest;
    assert t[..4] == w && t[4..] == s + rest;
    assert Take(|s|, s + rest) == s && Drop(|s|, s + rest) == rest;
  }

  lemma CountedText(s: bytes, rest: bytes)
    requires |s| < U32
    ensures Counted(Text(s) + rest) == Some((s, rest))
  {
    var w := LengthField(|s|);
    CountedParts(w, s, rest);
  }

  lemma ParseLoginParts(h: Host, w: bytes, u: bytes, name: bytes, v: bytes, pass: bytes, rest: bytes)
    requires |w| == 8 && Counted(u) == Some((name, v)) && Counted(v) == Some((pass, rest))
    ensures ParseLogin(h, w + u) == Login(IntRead(h, w), name, pass, rest)
  {
    assert (w + u)[..8] == w && (w + u)[8..] == u;
  }

  lemma Regroup(w: bytes, x: bytes, y: bytes, z: bytes)
    ensures w + (x + y) + z == w + (x + (y + z))
  {
  }

  lemma ParseLoginText(h: Host, w: bytes, name: bytes, pass: bytes, rest: bytes)
    requires |w| == 8 && |name| < U32 && |pass| < U32
    ensures ParseLogin(h, w + LoginBody(name, pass) + rest) == Login(IntRead(h, w), name, pass, rest)
  {
    var v := Text(pass) + rest;
    CountedText(name, v);
    CountedText(pass, rest);
    ParseLoginParts(h, w, Text(name) + v, name, v, pass, rest);
    Regroup(w, Text(name), Text(pass), rest);
  }

  lemma ParseLoginRoundTrip(h: Host, id: int, name: bytes, pass: bytes, rest: bytes)
    requires Fits(8, id) && |name| < U32 && |pass| < U32
    ensures ParseLogin(h, IntWire(h, 8, id) + LoginBody(name, pass) + rest) == Login(id, name, pass, rest)
  {
    IntRoundTrip(h, 8, id);
    ParseLoginText(h, IntWire(h, 8, id), name, pass, rest);
  }

  /** What the parser makes of any bytes behind the length: it over-reads exactly when they end before the
      second count does, and otherwise takes the id, a name and a password as long as counted or as what is
      there, and leaves the rest. */
  lemma ParseLoginExactly(h: Host, t: bytes)
    ensures var o := ParseLogin(h, t);
      if |t| < 12 || |t| < 16 + FromBytes(t[8..12]) then o == Underrun else
      var n := FromBytes(t[8..12]);
      var m, u := FromBytes(t[12 + n..16 + n]), t[16 + n..];
      o == Login(IntRead(h, t[..8]), t[12..12 + n], if m < |u| then u[..m] else u, if m < |u| then u[m..] else [])
  {
    if |t| >= 12 {
      var s := t[8..];
      assert s[..4] == t[8..12] && s[4..] == t[12..];
      var n := FromBytes(t[8..12]);
      if |t| >= 16 + n {
        var v := Drop(n, s[4..]);
        NameAndRest(t, n);
        assert Take(n, t[12..]) == t[12..12 + n] && v == t[12 + n..];
        assert v[..4] == t[12 + n..16 + n] && v[4..] == t[16 + n..];
      }
    }
  }

  lemma NameAndRest(t: bytes, n: nat)
    requires |t| >= 12 + n
    ensures Take(n, t[12..]) == t[12..12 + n] && Drop(n, t[12..]) == t[12 + n..]
  {
    if n == |t| - 12 {
      assert t[12..12 + n] == t[12..] && t[12 + n..] == [];
    }
  }

  /** The two counts of a login body add up to the body. */
  predicate Consistent(body: bytes) {
    |body| >= 8 && var n := FromBytes(body[..4]); n + 8 <= |body| && n + 8 + FromBytes(body[4 + n..8 + n]) == |body|
  }

  lemma CountBytes(w: bytes)
    requires |w| == 4
    ensures ToBytes(4, FromBytes(w)) == w && FromBytes(w) < U32
  {
    ToFrom(w);
    FromBytesBound(w);
    WordSizes();
  }

  /** A consistent body is the encoding of exactly one name and password. */
  lemma ConsistentIsEncoded(body: bytes) returns (name: bytes, pass: bytes)
    requires Consistent(body)
    ensures body == LoginBody(name, pass) && |name| < U32 && |pass| < U32
  {
    var n := FromBytes(body[..4]);
    name, pass := body[4..4 + n], body[8 + n..];
    CountBytes(body[..4]);
    CountBytes(body[4 + n..8 + n]);
    hide ToBytes, FromBytes;
    assert body == body[..4] + name + (body[4 + n..8 + n] + pass);
  }

  lemma EncodedIsConsistent(name: bytes, pass: bytes)
    requires |name| < U32 && |pass| < U32
    ensures Consistent(LoginBody(name, pass))
  {
    WordSizes();
    FromTo(4, |name|);
    FromTo(4, |pass|);
    var body := LoginBody(name, pass);
    assert body[..4] == ToBytes(4, |name|);
    assert body[4 + |name|..8 + |name|] == ToBytes(4, |pass|);
  }

  /** The counts of a body add up exactly when it is the encoding of a name and a password. */
  lemma ConsistentExactly(body: bytes)
    ensures Consistent(body) <==> exists name, pass :: |name| < U32 && |pass| < U32 && body == LoginBody(name, pass)
  {
    hide Consistent, LoginBody;
    if Consistent(body) {
      var name, pass := ConsistentIsEncoded(body);
    }
    if name, pass :| |name| < U32 && |pass| < U32 && body == LoginBody(name, pass) {
      EncodedIsConsistent(name, pass);
    }
  }

  /** The password count runs past the end of everything buffered, so the password is cut there. */
  predicate CutShort(body: bytes) {
    |body| >= 8 && var n := FromBytes(body[..4]); n + 8 <= |body| && n + 8 + FromBytes(body[4 + n..8 + n]) > |body|
  }

  /** What the parser leaves is a suffix of what it was given. */
  lemma LeftAtEnd(h: Host, t: bytes)
    requires |t| >= 12 && |t| >= 16 + FromBytes(t[8..12])
    ensures var n := FromBytes(t[8..12]);
            var m, o := FromBytes(t[12 + n..16 + n]), ParseLogin(h, t);
            o.Login? && o.rest == if 16 + n + m < |t| then t[16 + n + m..] else []
  {
    ParseLoginExactly(h, t);
    hide ParseLogin, FromBytes, IntRead;
    var n := FromBytes(t[8..12]);
    var m := FromBytes(t[12 + n..16 + n]);
    if 16 + n + m < |t| {
      assert t[16 + n..][m..] == t[16 + n + m..];
    }
  }

  /** `k` bytes at the end that the counts do not reach are more than is left. */
  lemma LeftShort(h: Host, t: bytes, k: nat)
    requires |t| < 12 + k || |t| < 16 + FromBytes(t[8..12]) + k
    ensures var o := ParseLogin(h, t); o.Login? ==> |o.rest| < k
  {
    if |t| < 12 || |t| < 16 + FromBytes(t[8..12]) {
      ParseLoginExactly(h, t);
    } else {
      LeftAtEnd(h, t);
    }
  }

  /** The last `k` bytes are left exactly when the counts end before them, or run over and there are none. */
  lemma LeftExactly(h: Host, t: bytes, k: nat)
    requires |t| >= 12 && |t| >= 16 + FromBytes(t[8..12]) + k
    ensures var n := FromBytes(t[8..12]);
            var m, o := FromBytes(t[12 + n..16 + n]), ParseLogin(h, t);
            o.Login? && (o.rest == t[|t| - k..] <==> 16 + n + m == |t| - k || (16 + n + m > |t| - k && k == 0))
  {
    hide *;
    LeftAtEnd(h, t);
    var n := FromBytes(t[8..12]);
    SuffixBySize(t, 16 + n + FromBytes(t[12 + n..16 + n]), k);
  }

  lemma SuffixBySize(t: bytes, j: nat, k: nat)
    requires k <= |t|
    ensures (if j < |t| then t[j..] else []) == t[|t| - k..] <==> (j == |t| - k || (j > |t| - k && k == 0))
  {
    if k == 0 {
      assert t[|t|..] == [];
    } else if j < |t| {
      assert |t[j..]| == |t| - j && |t[|t| - k..]| == k;
    }
  }

  lemma FirstCount(id: bytes, body: bytes, rest: bytes)
    requires |id| == 8 && |body| >= 4
    ensures (id + body + rest)[8..12] == body[..4]
  {
  }

  lemma SecondCount(id: bytes, body: bytes, rest: bytes, n: nat)
    requires |id| == 8 && n + 8 <= |body|
    ensures (id + body + rest)[12 + n..16 + n] == body[4 + n..8 + n]
  {
  }

  lemma BehindBody(id: bytes, body: bytes, rest: bytes)
    ensures (id + body + rest)[|id| + |body|..] == rest
  {
  }

  /** Without room for both counts in the body the parse cannot end at its end. */
  lemma TooShort(h: Host, id: bytes, body: bytes, rest: bytes)
    requires |id| == 8 && (|body| < 4 || FromBytes(body[..4]) + 8 > |body|)
    ensures var o := ParseLogin(h, id + body + rest); !(o.Login? && o.rest == rest)
  {
    hide *;
    if |body| >= 4 {
      FirstCount(id, body, rest);
    }
    LeftShort(h, id + body + rest, |rest|);
  }

  /** With room for both, it ends behind the body or short of it, as the counts say. */
  lemma RoomForCounts(h: Host, id: bytes, body: bytes, rest: bytes)
    requires |id| == 8 && |body| >= 8 && FromBytes(body[..4]) + 8 <= |body|
    ensures var n := FromBytes(body[..4]);
            var m, o := FromBytes(body[4 + n..8 + n]), ParseLogin(h, id + body + rest);
            (o.Login? && o.rest == rest) <==> (n + 8 + m == |body| || (n + 8 + m > |body| && rest == []))
  {
    hide *;
    FirstCount(id, body, rest);
    SecondCount(id, body, rest, FromBytes(body[..4]));
    BehindBody(id, body, rest);
    LeftExactly(h, id + body + rest, |rest|);
  }

  /** Because the parse ignores the frame length, it ends at the end of the frame exactly when the
      counts inside add up, or when they run over with nothing buffered behind to run into. */
  lemma ParseStaysInStep(h: Host, id: bytes, body: bytes, rest: bytes)
    requires |id| == 8
    ensures var o := ParseLogin(h, id + body + rest);
            (o.Login? && o.rest == rest) <==> (Consistent(body) || (CutShort(body) && rest == []))
  {
    hide ParseLogin, FromBytes;
    if |body| >= 8 && FromBytes(body[..4]) + 8 <= |body| {
      RoomForCounts(h, id, body, rest);
    } else {
      TooShort(h, id, body, rest);
    }
  }

  /** A login frame with one byte too many inside leaves that byte in front of the next frame. */
  lemma StrayByte(h: Host, id: bytes, x: byte)
    requires |id| == 8
    ensures ParseLogin(h, id + (LoginBody([], []) + [x])) == Login(IntRead(h, id), [], [], [x])
  {
    ParseLoginText(h, id, [], [], [x]);
    hide ParseLogin, LoginBody, IntRead;
    assert id + LoginBody([], []) + [x] == id + (LoginBody([], []) + [x]);
  }

  /** The default branch leaves the buffer at the next frame exactly when nothing has arrived behind
      the unknown frame, unless the length is corrected: as written it drops the first four bytes of what
      follows, or all of it if there are fewer. */
  lemma UnknownFrameResync(b: Build, tag: byte, payload: bytes, rest: bytes)
    requires tag != LOGIN && |payload| + |rest| >= 8 && |payload| + 4 < U32
    requires PeekAgrees(b, Frame(tag, payload) + rest)
    ensures DataStep(b, Frame(tag, payload) + rest) == Unknown(rest) <==> (b.skip == Intended || rest == [])
    ensures DataStep(b, Frame(tag, payload) + rest)
         == Unknown(if b.skip == Intended then rest else if |rest| >= 4 then rest[4..] else [])
  {
    AcceptsWhole(b, 13, tag, payload, rest);
    FrameHeader(tag, payload, rest);
    assert (payload + rest)[|payload|..] == rest;
    if |rest| >= 4 {
      assert (payload + rest)[|payload| + 4..] == rest[4..];
    }
  }

  // ---------------------------------------------------------------- Gate server

  /** Held: the branch in which the callback leaves the buffer alone. */
  datatype GateOutcome = Waiting | Held | Refused | Forwarded(frame: bytes, rest: bytes)

  /** Forwarding `n` bytes of `t` behind the serial id `w`, under a length of `len + 8`. */
  function Forward(w: bytes, len: nat, n: nat, t: bytes): GateOutcome {
    Forwarded(Framed(LOGIN, (len + 8) % U32, w + Take(n, t)), Drop(n, t))
  }

  /** The client message callback.  As written it forwards logins of authorized connections only;
      intended, of unauthorized ones. */
  function GateStep(b: Build, authorized: bool, id: int, s: bytes): GateOutcome
    requires Fits(8, id)
  {
    if authorized != (b.polarity == AsWritten) then
      if |s| >= 5 then Held else Waiting
    else if !Accepts(b, 5, s) then Waiting
    else if s[0] == LOGIN then
      Forward(IntWire(b.host, 8, id), DeclaredLen(s), BodyLen(b.cut, DeclaredLen(s)), s[5..])
    else Refused
  }

  datatype VerdictOutcome = Partial | Overread | Granted(id: int, uid: int, rest: bytes) | Dropped(rest: bytes)

  /** The database reply callback.  As written any reply but a success loses only its tag. */
  function VerdictStep(b: Build, s: bytes): VerdictOutcome {
    if !Accepts(b, 13, s) then Partial
    else if s[0] == SUCCESS then
      if |s| < 21 then Overread else Granted(IntRead(b.host, s[5..13]), IntRead(b.host, s[13..21]), s[21..])
    else Dropped(if b.failure == AsWritten then s[1..] else Drop(BodyLen(Intended, DeclaredLen(s)), s[5..]))
  }

  /** The frame Gate forwards for a client's login: the client's payload behind the serial id. */
  function ForwardFrame(h: Host, id: int, body: bytes): bytes
    requires Fits(8, id)
  {
    Frame(LOGIN, IntWire(h, 8, id) + body)
  }

  lemma TakeDrop(a: bytes, b: bytes)
    ensures Take(|a|, a + b) == a && Drop(|a|, a + b) == b
  {
    if b == [] {
      assert a + b == a;
    }
  }

  lemma ForwardPayload(w: bytes, body: bytes, rest: bytes)
    requires |w| == 8 && |body| + 12 < U32
    ensures Forward(w, |body| + 4, |body|, body + rest) == Forwarded(Frame(LOGIN, w + body), rest)
  {
    TakeDrop(body, rest);
    assert (|body| + 4 + 8) % U32 == |w + body| + 4;
  }

  /** How much of what follows goes along when four bytes too many are taken. */
  function Along(rest: bytes): (n: nat)
    ensures n == if |rest| < 4 then |rest| else 4
  {
    if |rest| < 4 then |rest| else 4
  }

  /** Taking four bytes more than the payload forwards it as one frame only if there are none. */
  lemma ForwardParts(w: bytes, body: bytes, rest: bytes)
    requires |w| == 8 && |body| + 12 < U32
    ensures Forward(w, |body| + 4, |body| + 4, body + rest)
         == Forwarded(Framed(LOGIN, |body| + 12, w + (body + rest[..Along(rest)])), rest[Along(rest)..])
    ensures Forward(w, |body| + 4, |body| + 4, body + rest) == Forwarded(Frame(LOGIN, w + body), rest) <==> rest == []
  {
    var k := Along(rest);
    assert body + rest == (body + rest[..k]) + rest[k..];
    if |rest| >= 4 {
      assert (body + rest)[..|body| + 4] == body + rest[..4] && (body + rest)[|body| + 4..] == rest[4..];
    } else {
      assert rest[..k] == rest && rest[k..] == [];
    }
    assert (|body| + 4 + 8) % U32 == |body| + 12;
    if rest == [] {
      assert body + rest[..0] == body;
    }
  }

  lemma GateTakes(b: Build, id: int, s: bytes, len: nat, t: bytes)
    requires Fits(8, id) && Accepts(b, 5, s) && s[0] == LOGIN && DeclaredLen(s) == len && s[5..] == t
    ensures GateStep(b, b.polarity == AsWritten, id, s)
            == Forward(IntWire(b.host, 8, id), len, BodyLen(b.cut, len), t)
  {
  }

  /** What Gate makes of a client's login with `rest` behind it: as written up to four bytes of the rest go
      along, beyond the length the frame declares. */
  function ForwardOutcome(form: Form, w: bytes, body: bytes, rest: bytes): GateOutcome {
    if form == Intended then Forwarded(Frame(LOGIN, w + body), rest)
    else Forwarded(Framed(LOGIN, |body| + 12, w + (body + rest[..Along(rest)])), rest[Along(rest)..])
  }

  lemma ForwardBody(form: Form, w: bytes, body: bytes, rest: bytes)
    requires |w| == 8 && |body| + 12 < U32
    ensures var o := Forward(w, |body| + 4, BodyLen(form, |body| + 4), body + rest);
            o == ForwardOutcome(form, w, body, rest)
            && (o == Forwarded(Frame(LOGIN, w + body), rest) <==> (form == Intended || rest == []))
  {
    ForwardPayload(w, body, rest);
    ForwardParts(w, body, rest);
  }

  lemma ForwardWhole(b: Build, id: int, s: bytes, w: bytes, body: bytes, rest: bytes)
    requires Fits(8, id) && w == IntWire(b.host, 8, id) && |body| + 12 < U32
    requires Accepts(b, 5, s) && s[0] == LOGIN && DeclaredLen(s) == |body| + 4 && s[5..] == body + rest
    ensures GateStep(b, b.polarity == AsWritten, id, s) == ForwardOutcome(b.cut, w, body, rest)
    ensures ForwardOutcome(b.cut, w, body, rest) == Forwarded(Frame(LOGIN, w + body), rest)
            <==> (b.cut == Intended || rest == [])
  {
    GateTakes(b, id, s, |body| + 4, body + rest);
    ForwardBody(b.cut, w, body, rest);
  }

  /** Gate forwards a client frame faithfully, and leaves the following bytes untouched, exactly when
      nothing is buffered behind it or the length is corrected: as written it takes up to four bytes
      of the next frame along. */
  lemma ForwardIsExact(b: Build, id: int, body: bytes, rest: bytes)
    requires Fits(8, id) && |body| + 12 < U32
    requires PeekAgrees(b, Frame(LOGIN, body) + rest)
    ensures GateStep(b, b.polarity == AsWritten, id, Frame(LOGIN, body) + rest)
            == Forwarded(ForwardFrame(b.host, id, body), rest)
            <==> (b.cut == Intended || rest == [])
    ensures GateStep(b, b.polarity == AsWritten, id, Frame(LOGIN, body) + rest)
         == if b.cut == Intended then Forwarded(ForwardFrame(b.host, id, body), rest)
            else Forwarded(Framed(LOGIN, |body| + 12, IntWire(b.host, 8, id) + (body + rest[..Along(rest)])),
                           rest[Along(rest)..])
  {
    AcceptsWhole(b, 5, LOGIN, body, rest);
    FrameHeader(LOGIN, body, rest);
    ForwardWhole(b, id, Frame(LOGIN, body) + rest, IntWire(b.host, 8, id), body, rest);
  }

  /** When Gate does anything with what a client sent, and what: a whole frame from a connection it forwards
      for.  A login is forwarded, and for any other tag the whole buffer is thrown away. */
  lemma GateActsExactly(b: Build, authorized: bool, id: int, s: bytes)
    requires Fits(8, id)
    ensures var acts := authorized == (b.polarity == AsWritten) && Accepts(b, 5, s);
            var o := GateStep(b, authorized, id, s);
            && (o.Forwarded? <==> acts && s[0] == 108) && (o.Refused? <==> acts && s[0] != 108)
  {
  }

  lemma FourBytes(n: nat)
    requires n < 256
    ensures ToBytes(4, n) == [0, 0, 0, n]
  {
    assert ToBytes(1, 0) == [0] && ToBytes(2, 0) == [0, 0] && ToBytes(3, 0) == [0, 0, 0];
  }

  lemma ShortFrame(tag: byte, payload: bytes)
    requires |payload| + 4 < 256
    ensures Frame(tag, payload) == [tag, 0, 0, 0, |payload| + 4] + payload
  {
    hide ToBytes;
    FourBytes(|payload| + 4);
    assert [tag] + [0, 0, 0, |payload| + 4] == [tag, 0, 0, 0, |payload| + 4];
  }

  /** The frames between the servers, byte for byte: tag, length in network order, serial id, and then the
      client's body on the way to Data, the user id on the way back from a success. */
  lemma WireLayout(h: Host, id: int, uid: int, body: bytes)
    requires Fits(8, id) && Fits(8, uid) && |body| + 12 < U32
    ensures ForwardFrame(h, id, body) == [108] + ToBytes(4, |body| + 12) + (IntWire(h, 8, id) + body)
    ensures Reply(h, id, uid) == if uid == -1 then [120, 0, 0, 0, 12] + IntWire(h, 8, id)
                                 else [115, 0, 0, 0, 20] + (IntWire(h, 8, id) + IntWire(h, 8, uid))
  {
    hide IntWire, ToBytes;
    ShortFrame(FAILURE, IntWire(h, 8, id));
    ShortFrame(SUCCESS, IntWire(h, 8, id) + IntWire(h, 8, uid));
  }

  /** Data reads back from a forwarded login the serial id, the name and the password, consumes the
      frame exactly, and leaves what follows. */
  lemma DataReadsForwarded(b: Build, id: int, name: bytes, pass: bytes, rest: bytes)
    requires Fits(8, id) && |LoginBody(name, pass)| + 12 < U32
    requires PeekAgrees(b, ForwardFrame(b.host, id, LoginBody(name, pass)) + rest)
    ensures DataStep(b, ForwardFrame(b.host, id, LoginBody(name, pass)) + rest) == Login(id, name, pass, rest)
  {
    var payload := IntWire(b.host, 8, id) + LoginBody(name, pass);
    AcceptsWhole(b, 13, LOGIN, payload, rest);
    FrameHeader(LOGIN, payload, rest);
    ParseLoginRoundTrip(b.host, id, name, pass, rest);
  }

  lemma SuccessReply(b: Build, id: int, uid: int, rest: bytes)
    requires Fits(8, id) && Fits(8, uid) && uid != -1 && PeekAgrees(b, Reply(b.host, id, uid) + rest)
    ensures VerdictStep(b, Reply(b.host, id, uid) + rest) == Granted(id, uid, rest)
  {
    var w, v := IntWire(b.host, 8, id), IntWire(b.host, 8, uid);
    var s := Reply(b.host, id, uid) + rest;
    AcceptsWhole(b, 13, SUCCESS, w + v, rest);
    FrameHeader(SUCCESS, w + v, rest);
    SixteenBytes(s, w, v, rest);
    IntRoundTrip(b.host, 8, id);
    IntRoundTrip(b.host, 8, uid);
  }

  lemma SixteenBytes(s: bytes, w: bytes, v: bytes, rest: bytes)
    requires |s| >= 21 && s[5..] == w + v + rest && |w| == |v| == 8
    ensures s[5..13] == w && s[13..21] == v && s[21..] == rest
  {
    assert s[5..13] == s[5..][..8] && s[13..21] == s[5..][8..16] && s[21..] == s[5..][16..];
  }

  lemma FailureReply(b: Build, id: int, rest: bytes)
    requires Fits(8, id) && PeekAgrees(b, Reply(b.host, id, -1) + rest)
    ensures VerdictStep(b, Reply(b.host, id, -1) + rest) == Dropped(rest) <==> b.failure == Intended
    ensures VerdictStep(b, Reply(b.host, id, -1) + rest)
         == Dropped(if b.failure == Intended then rest else (Reply(b.host, id, -1) + rest)[1..])
  {
    var w := IntWire(b.host, 8, id);
    AcceptsWhole(b, 13, FAILURE, w, rest);
    FrameHeader(FAILURE, w, rest);
    TakeDrop(w, rest);
  }

  /** What Gate makes of any whole frame: behind the tag of a success it reads two integers, over-reading
      exactly when sixteen bytes are not there, and whatever length the frame declares; of any other it drops
      the tag alone as written. */
  lemma VerdictExactly(b: Build, s: bytes)
    ensures !Accepts(b, 13, s) <==> VerdictStep(b, s) == Partial
    ensures Accepts(b, 13, s) && s[0] == 115 ==>
      VerdictStep(b, s) == if |s| < 21 then Overread
                           else Granted(IntRead(b.host, s[5..13]), IntRead(b.host, s[13..21]), s[21..])
    ensures Accepts(b, 13, s) && s[0] != 115 && b.failure == AsWritten ==> VerdictStep(b, s) == Dropped(s[1..])
  {
  }

  /** Gate reads a success reply back exactly.  It gets past a failure reply only in the intended form:
      as written the length, id and everything behind stay in the buffer as if they were new frames. */
  lemma VerdictReadsReply(b: Build, id: int, uid: int, rest: bytes)
    requires Fits(8, id) && Fits(8, uid) && PeekAgrees(b, Reply(b.host, id, uid) + rest)
    ensures uid != -1 ==> VerdictStep(b, Reply(b.host, id, uid) + rest) == Granted(id, uid, rest)
    ensures uid == -1 ==>
      (VerdictStep(b, Reply(b.host, id, uid) + rest) == Dropped(rest) <==> b.failure == Intended)
  {
    if uid == -1 {
      FailureReply(b, id, rest);
    } else {
      SuccessReply(b, id, uid, rest);
    }
  }
}
