/** The message callbacks of the two servers, working on real buffers. */
module Callbacks {
  import opened Options
  import opened Bytes
  import opened Codec
  import opened Layouts
  import opened Buffers
  import opened Frames

  datatype BufferStatus = ReadSuccess | ReadIncomplete | ReadTypeError

  lemma SignedMod(w: nat)
    requires w < U32
    ensures Signed(4, w) % U32 == w
  {
    WordSizes();
  }

  /** ReadInt32 assigned to an unsigned variable. */
  lemma UnsignedRead(h: Host, s: bytes)
    requires |s| == 4
    ensures FromBytes(s) < U32 && IntRead(h, s) % U32 == FromBytes(s)
  {
    ShortRead(h, s);
    FromBytesBound(s);
    WordSizes();
    SignedMod(FromBytes(s));
  }

  /** The tag, compared as a char. */
  method ReadTag(buf: Buffer, h: Host) returns (tag: int)
    requires buf.Valid() && |buf.Contents()| >= 1
    modifies buf
    ensures buf.Valid() && buf.data == old(buf.data) && buf.Contents() == old(buf.Contents())[1..]
    ensures tag == LOGIN <==> old(buf.Contents())[0] == LOGIN
    ensures tag == SUCCESS <==> old(buf.Contents())[0] == SUCCESS
  {
    TagRead(h, buf.Contents());
    var r := buf.ReadInt(h, 1);
    tag := r.value;
  }

  /** A length, kept in an unsigned variable. */
  method ReadLen(buf: Buffer, h: Host) returns (n: nat)
    requires buf.Valid() && |buf.Contents()| >= 4
    modifies buf
    ensures buf.Valid() && buf.data == old(buf.data) && buf.Contents() == old(buf.Contents())[4..]
    ensures n == FromBytes(old(buf.Contents())[..4]) && n < U32
  {
    UnsignedRead(h, buf.Contents()[..4]);
    var r := buf.ReadInt(h, 4);
    n := r.value % U32;
  }

  lemma HeaderSlices(s: bytes)
    requires |s| >= 5
    ensures s[1..][..4] == s[1..5] && s[1..][4..] == s[5..]
  {
  }

  /** Length behind a tag that has been read; `s` is the buffer with the tag still in front. */
  method ReadLenAfterTag(buf: Buffer, h: Host, ghost s: bytes) returns (n: nat)
    requires buf.Valid() && |s| >= 5 && buf.Contents() == s[1..]
    modifies buf
    ensures buf.Valid() && buf.data == old(buf.data) && buf.Contents() == s[5..]
    ensures n == FromBytes(s[1..5]) && n < U32
  {
    HeaderSlices(s);
    n := ReadLen(buf, h);
  }

  lemma ReadFits(h: Host, s: bytes)
    requires IsWidth(|s|)
    ensures Fits(|s|, IntRead(h, s))
  {
    WordSizes();
    LoadBound(h, s);
    if |s| == 8 {
      HtonllInvolution(h, Load(h, s));
    } else {
      FromBytesBound(Image(h, |s|, Load(h, s)));
    }
  }

  /** The length test of every callback. */
  method WholeFrame(buf: Buffer, b: Build, least: nat) returns (whole: bool)
    requires buf.Valid() && least >= 5
    ensures whole == Accepts(b, least, buf.Contents())
    ensures whole ==> |buf.Contents()| >= least
  {
    var n := buf.GetLength();
    if n < least {
      return false;
    }
    var r := buf.PeekTagLen(b.host, b.peek);
    whole := r.Some? && r.value.1 <= n - 1;
  }

  /** A length followed by as much of a string as is buffered; None where the source over-reads. */
  method ReadCounted(buf: Buffer, h: Host) returns (r: Option<bytes>)
    requires buf.Valid()
    modifies buf
    ensures buf.Valid() && buf.data == old(buf.data)
    ensures var c := Counted(old(buf.Contents()));
            (c.None? <==> r.None?) && (c.Some? ==> c.value == (r.value, buf.Contents()))
  {
    ghost var s := buf.Contents();
    var room := buf.GetLength();
    if room < 4 {
      return None;
    }
    var n := ReadLen(buf, h);
    var text := buf.ReadString(n);
    assert text == Frames.Take(n, s[4..]) && buf.Contents() == Drop(n, s[4..]);
    r := Some(text);
  }

  /** A short message always fits a new buffer. */
  method AppendSmall(buf: Buffer, h: Host, width: nat, x: int)
    requires buf.Valid() && IsWidth(width) && Fits(width, x)
    requires buf.data.Length == INITIAL_SIZE && buf.writeIndex <= 1000
    modifies buf, buf.data
    ensures buf.Valid() && (buf.data == old(buf.data) || fresh(buf.data))
    ensures buf.Contents() == old(buf.Contents()) + IntWire(h, width, x)
    ensures buf.data.Length == INITIAL_SIZE && buf.writeIndex == old(buf.writeIndex) + width
  {
    var ok := buf.AppendInt(h, width, x);
  }

  lemma HeaderWire(h: Host, tag: byte, len: nat)
    requires tag < 128
    ensures Fits(1, tag) && IntWire(h, 1, tag) == [tag]
    ensures Fits(4, Signed(4, len % U32)) && IntWire(h, 4, Signed(4, len % U32)) == ToBytes(4, len % U32)
  {
    hide IntWire;
    WordSizes();
    ShortWire(h, 1, tag);
    ShortWire(h, 4, Signed(4, len % U32));
    assert ToBytes(1, tag) == [tag];
  }

  /** Tag and length of a new message. */
  method NewMessage(h: Host, form: Form, tag: byte, len: nat) returns (buf: Buffer)
    requires tag < 128
    ensures fresh(buf) && fresh(buf.data) && buf.Valid() && buf.form == form
    ensures buf.Contents() == [tag] + ToBytes(4, len % U32)
    ensures buf.data.Length == INITIAL_SIZE && buf.writeIndex == 5 && buf.readIndex == 0
  {
    HeaderWire(h, tag, len);
    buf := new Buffer(form);
    AppendSmall(buf, h, 1, tag);
    AppendSmall(buf, h, 4, Signed(4, len % U32));
  }

  method BuildReply(h: Host, form: Form, id: int, uid: int) returns (reply: Buffer)
    requires Fits(8, id) && Fits(8, uid)
    ensures fresh(reply) && fresh(reply.data) && reply.Valid() && reply.Contents() == Reply(h, id, uid)
    ensures reply.Contents() == if uid == -1 then [120, 0, 0, 0, 12] + IntWire(h, 8, id)
                                else [115, 0, 0, 0, 20] + (IntWire(h, 8, id) + IntWire(h, 8, uid))
  {
    WireLayout(h, id, uid, []);
    hide IntWire, ToBytes;
    if uid == -1 {
      reply := NewMessage(h, form, FAILURE, 12);
      AppendSmall(reply, h, 8, id);
    } else {
      reply := NewMessage(h, form, SUCCESS, 20);
      AppendSmall(reply, h, 8, id);
      AppendSmall(reply, h, 8, uid);
      Assemble([SUCCESS], ToBytes(4, 20), IntWire(h, 8, id), IntWire(h, 8, uid));
    }
  }

  lemma Assemble(a: bytes, b: bytes, c: bytes, d: bytes)
    ensures a + b + c + d == a + b + (c + d)
  {
  }

  /** The login branch of the Data callback, after the tag and the length. */
  method ReadLogin(buf: Buffer, h: Host) returns (r: Option<(int, bytes, bytes)>)
    requires buf.Valid()
    modifies buf
    ensures buf.Valid() && buf.data == old(buf.data)
    ensures var o := ParseLogin(h, old(buf.Contents()));
            && (o.Login? <==> r.Some?) && (o.Underrun? <==> r.None?)
            && (r.Some? ==> o == Login(r.value.0, r.value.1, r.value.2, buf.Contents()) && Fits(8, r.value.0))
  {
    ghost var s := buf.Contents();
    var id := buf.ReadInt(h, 8);
    if id.None? {
      return None;
    }
    ReadFits(h, s[..8]);
    var name := ReadCounted(buf, h);
    if name.None? {
      return None;
    }
    var pass := ReadCounted(buf, h);
    if pass.None? {
      return None;
    }
    r := Some((id.value, name.value, pass.value));
  }

  /** Its reply. */
  method AnswerLogin(buf: Buffer, h: Host, form: Form, select: (bytes, bytes) -> int)
    returns (reply: Option<Buffer>)
    requires buf.Valid() && forall name, pass :: Fits(8, select(name, pass))
    modifies buf
    ensures buf.Valid()
    ensures var o := ParseLogin(h, old(buf.Contents()));
            && (o.Underrun? || o.Login?) && (o.Underrun? <==> reply.None?)
            && (o.Login? ==>
                && reply.Some? && fresh(reply.value) && reply.value.Valid() && buf.Contents() == o.rest
                && Fits(8, o.id) && reply.value.Contents() == Reply(h, o.id, select(o.name, o.pass)))
  {
    var login := ReadLogin(buf, h);
    if login.None? {
      return None;
    }
    ghost var rest := buf.Contents();
    var r := BuildReply(h, form, login.value.0, select(login.value.1, login.value.2));
    assert buf.Contents() == rest;
    reply := Some(r);
  }

  /** What Buffer.Forward leaves for an argument that needs no conversion. */
  lemma SkipIsDrop(n: nat, t: bytes)
    ensures Drop(n, t) == if n < |t| then t[n..] else []
  {
  }

  lemma DataStepShort(b: Build, s: bytes)
    requires !Accepts(b, 13, s)
    ensures DataStep(b, s) == Incomplete
  {
  }

  lemma DataStepLogin(b: Build, s: bytes)
    requires Accepts(b, 13, s) && s[0] == LOGIN
    ensures DataStep(b, s) == ParseLogin(b.host, s[5..])
  {
  }

  lemma DataStepOther(b: Build, s: bytes)
    requires Accepts(b, 13, s) && s[0] != LOGIN
    ensures DataStep(b, s) == Unknown(Drop(BodyLen(b.skip, FromBytes(s[1..5])), s[5..]))
  {
  }

  /** The Data server's message callback.  `inBounds` is false where it reads past its buffer. */
  method DataMessage(buf: Buffer, b: Build, form: Form, select: (bytes, bytes) -> int)
    returns (status: BufferStatus, reply: Option<Buffer>, inBounds: bool)
    requires buf.Valid() && forall name, pass :: Fits(8, select(name, pass))
    modifies buf
    ensures buf.Valid()
    ensures var o := DataStep(b, old(buf.Contents()));
            && inBounds == !o.Underrun?
            && (o.Incomplete? ==> status == ReadIncomplete && reply == None && buf.Contents() == old(buf.Contents()))
            && (o.Unknown? ==> status == ReadTypeError && reply == None && buf.Contents() == o.rest)
            && (o.Login? ==>
                && status == ReadSuccess && reply.Some? && fresh(reply.value) && reply.value.Valid()
                && buf.Contents() == o.rest
                && Fits(8, o.id) && reply.value.Contents() == Reply(b.host, o.id, select(o.name, o.pass)))
  {
    hide *;
    ghost var s := buf.Contents();
    var whole := WholeFrame(buf, b, 13);
    if !whole {
      DataStepShort(b, s);
      return ReadIncomplete, None, true;
    }
    var tag := ReadTag(buf, b.host);
    var len := ReadLenAfterTag(buf, b.host, s);
    if tag == LOGIN {
      DataStepLogin(b, s);
      reply := AnswerLogin(buf, b.host, form, select);
      status, inBounds := ReadSuccess, reply.Some?;
    } else {
      DataStepOther(b, s);
      SkipIsDrop(BodyLen(b.skip, len), s[5..]);
      buf.Forward(BodyLen(b.skip, len));
      status, reply, inBounds := ReadTypeError, None, true;
    }
  }

  /** The tag is read as a signed byte; for the tags in use that makes no difference. */
  lemma TagRead(h: Host, s: bytes)
    requires |s| >= 1
    ensures IntRead(h, s[..1]) == LOGIN <==> s[0] == LOGIN
    ensures IntRead(h, s[..1]) == SUCCESS <==> s[0] == SUCCESS
  {
    ShortRead(h, s[..1]);
    assert s[..1] == [s[0]];
    FromBytesOne(s[0]);
    WordSizes();
  }

  /** A connection of Gate, as the callbacks see it. */
  class Session {
    const serialId: int
    const buffer: Buffer
    var authorized: bool
    var userId: int

    constructor (serialId: int, form: Form)
      ensures this.serialId == serialId && !authorized && userId == -1
      ensures fresh(buffer) && buffer.Valid() && buffer.Contents() == []
    {
      this.serialId := serialId;
      buffer := new Buffer(form);
      authorized, userId := false, -1;
    }
  }

  /** A message that starts with a serial id and goes on with `value`. */
  method BuildForward(h: Host, form: Form, id: int, len: nat, value: bytes) returns (out: Buffer, inBounds: bool)
    requires Fits(8, id) && |value| < U32
    ensures fresh(out) && out.Valid()
    ensures inBounds ==> out.Contents() == Framed(LOGIN, len % U32, IntWire(h, 8, id) + value)
    ensures inBounds <==> RoomFor(form, Layout(INITIAL_SIZE, 0, 13), |value|)
  {
    hide IntWire, ToBytes;
    out := NewMessage(h, form, LOGIN, len);
    AppendSmall(out, h, 8, id);
    inBounds := out.Append(value);
    Assemble([LOGIN], ToBytes(4, len % U32), IntWire(h, 8, id), value);
  }

  lemma TakeDropSlices(front: bytes, back: bytes, n: nat, t: bytes)
    requires var k := if n < |t| then n else |t|; front == t[..k] && back == t[k..]
    ensures front == Frames.Take(n, t) && back == Drop(n, t)
  {
  }

  lemma ForwardFields(w: bytes, len: nat, n: nat, t: bytes)
    ensures var o := Forward(w, len, n, t);
            && o.Forwarded? && o.frame == Framed(LOGIN, (len + 8) % U32, w + Frames.Take(n, t))
            && o.rest == Drop(n, t) && |o.frame| == 5 + |w| + |Frames.Take(n, t)|
  {
  }

  /** The forwarding branch of the client callback, after the tag. */
  method ForwardLogin(buf: Buffer, b: Build, form: Form, id: int, ghost s: bytes) returns (out: Buffer, inBounds: bool)
    requires buf.Valid() && |s| >= 5 && buf.Contents() == s[1..] && Fits(8, id)
    modifies buf
    ensures buf.Valid() && fresh(out) && out.Valid()
    ensures var len := FromBytes(s[1..5]);
            var o := Forward(IntWire(b.host, 8, id), len, BodyLen(b.cut, len), s[5..]);
            && buf.Contents() == o.rest
            && (inBounds ==> out.Contents() == o.frame)
            && (inBounds <==> RoomFor(form, Layout(INITIAL_SIZE, 0, 13), |o.frame| - 13))
  {
    hide *;
    var len := ReadLenAfterTag(buf, b.host, s);
    var n := BodyLen(b.cut, len);
    var value := buf.ReadString(n);
    TakeDropSlices(value, buf.Contents(), n, s[5..]);
    ForwardFields(IntWire(b.host, 8, id), len, n, s[5..]);
    out, inBounds := BuildForward(b.host, form, id, len + 8, value);
  }

  lemma GateStepForward(b: Build, id: int, s: bytes)
    requires Fits(8, id) && Accepts(b, 5, s) && s[0] == LOGIN
    ensures GateStep(b, b.polarity == AsWritten, id, s)
         == Forward(IntWire(b.host, 8, id), FromBytes(s[1..5]), BodyLen(b.cut, FromBytes(s[1..5])), s[5..])
    ensures GateStep(b, b.polarity == AsWritten, id, s).Forwarded?
  {
  }

  lemma GateStepOther(b: Build, authorized: bool, id: int, s: bytes)
    requires Fits(8, id)
    requires authorized != (b.polarity == AsWritten) || !Accepts(b, 5, s) || s[0] != LOGIN
    ensures var o := GateStep(b, authorized, id, s);
            if authorized == (b.polarity == AsWritten) && Accepts(b, 5, s) then o == Refused
            else o == GateOutcome.Waiting || o == Held
  {
  }

  /** The Gate server's client callback.  The message it hands to the database connection is returned;
      `inBounds` is false when building that message overran its buffer under the guard `form`. */
  method GateMessage(conn: Session, b: Build, form: Form) returns (out: Option<Buffer>, inBounds: bool)
    requires conn.buffer.Valid() && Fits(8, conn.serialId)
    modifies conn.buffer
    ensures conn.buffer.Valid()
    ensures var o := GateStep(b, conn.authorized, conn.serialId, old(conn.buffer.Contents()));
            && (o.Forwarded? ==>
                && out.Some? && fresh(out.value) && out.value.Valid() && conn.buffer.Contents() == o.rest
                && (inBounds ==> out.value.Contents() == o.frame)
                && (inBounds <==> RoomFor(form, Layout(INITIAL_SIZE, 0, 13), |o.frame| - 13)))
            && (!o.Forwarded? ==>
                && out == None && inBounds
                && conn.buffer.Contents() == if o.Refused? then [] else old(conn.buffer.Contents()))
  {
    hide *;
    var buf := conn.buffer;
    ghost var s := buf.Contents();
    out, inBounds := None, true;
    var whole := WholeFrame(buf, b, 5);
    if conn.authorized == (b.polarity == AsWritten) && whole {
      var tag := ReadTag(buf, b.host);
      if tag == LOGIN {
        GateStepForward(b, conn.serialId, s);
        var r;
        r, inBounds := ForwardLogin(buf, b, form, conn.serialId, s);
        out := Some(r);
      } else {
        GateStepOther(b, conn.authorized, conn.serialId, s);
        buf.Clear();
      }
    } else {
      GateStepOther(b, conn.authorized, conn.serialId, s);
    }
  }

  /** The success branch of the database callback, after the tag. */
  method ReadGrant(buf: Buffer, h: Host, ghost s: bytes) returns (r: Option<(int, int)>)
    requires buf.Valid() && |s| >= 13 && buf.Contents() == s[1..]
    modifies buf
    ensures buf.Valid()
    ensures var t := s[5..];
            && (r.None? <==> |t| < 16)
            && (r.Some? ==> r.value == (IntRead(h, t[..8]), IntRead(h, t[8..16])) && buf.Contents() == t[16..])
  {
    hide IntRead;
    var len := ReadLenAfterTag(buf, h, s);
    ghost var t := s[5..];
    var id := buf.ReadInt(h, 8);
    var uid := buf.ReadInt(h, 8);
    if uid.None? {
      return None;
    }
    assert t[8..][..8] == t[8..16] && t[8..][8..] == t[16..];
    r := Some((id.value, uid.value));
  }

  lemma VerdictStepShort(b: Build, s: bytes)
    requires !Accepts(b, 13, s)
    ensures VerdictStep(b, s) == Partial
  {
  }

  lemma VerdictStepGrant(b: Build, s: bytes)
    requires Accepts(b, 13, s) && s[0] == SUCCESS
    ensures var t := s[5..];
            VerdictStep(b, s) == if |t| < 16 then Overread
                                 else Granted(IntRead(b.host, t[..8]), IntRead(b.host, t[8..16]), t[16..])
  {
    var t := s[5..];
    assert t[..8] == s[5..13];
    if |t| >= 16 {
      assert t[8..16] == s[13..21] && t[16..] == s[21..];
    }
  }

  lemma VerdictStepOther(b: Build, s: bytes)
    requires Accepts(b, 13, s) && s[0] != SUCCESS
    ensures VerdictStep(b, s)
         == Dropped(if b.failure == AsWritten then s[1..] else Drop(BodyLen(Intended, FromBytes(s[1..5])), s[5..]))
  {
  }

  /** The Gate server's database callback: the serial id and user id to authorize, if any. */
  method GateVerdict(buf: Buffer, b: Build) returns (grant: Option<(int, int)>, inBounds: bool)
    requires buf.Valid()
    modifies buf
    ensures buf.Valid()
    ensures var o := VerdictStep(b, old(buf.Contents()));
            && inBounds == !o.Overread?
            && (o.Partial? ==> grant == None && buf.Contents() == old(buf.Contents()))
            && (o.Granted? ==> grant == Some((o.id, o.uid)) && buf.Contents() == o.rest)
            && (o.Dropped? ==> grant == None && buf.Contents() == o.rest)
  {
    hide *;
    ghost var s := buf.Contents();
    grant, inBounds := None, true;
    var whole := WholeFrame(buf, b, 13);
    if !whole {
      VerdictStepShort(b, s);
    } else {
      var tag := ReadTag(buf, b.host);
      if tag == SUCCESS {
        VerdictStepGrant(b, s);
        grant := ReadGrant(buf, b.host, s);
        inBounds := grant.Some?;
      } else {
        VerdictStepOther(b, s);
        if b.failure == Intended {
          var len := ReadLenAfterTag(buf, b.host, s);
          SkipIsDrop(BodyLen(Intended, len), s[5..]);
          buf.Forward(BodyLen(Intended, len));
        }
      }
    }
  }
}
