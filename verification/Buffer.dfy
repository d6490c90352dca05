/** The growable byte buffer. */
module Buffers {
  import opened Options
  import opened Bytes
  import opened Codec
  import opened Layouts

  const INITIAL_SIZE: nat := 8192
  const EXTRA_SIZE: nat := 65536

  /** What `readv` reports: an error, or the bytes it stored. */
  datatype Received = Failed | Got(data: bytes)

  class Buffer {
    const form: Form
    var data: array<byte>
    var readIndex: nat
    var writeIndex: nat

    ghost predicate Valid()
      reads this
    {
      WellFormed(State())
    }

    ghost function State(): Layout
      reads this
    {
      Layout(data.Length, readIndex, writeIndex)
    }

    /** The readable bytes, oldest first. */
    ghost function Contents(): bytes
      requires Valid()
      reads this, data
    {
      data[readIndex..writeIndex]
    }

    constructor (form: Form, capacity: nat := INITIAL_SIZE)
      requires capacity < U32
      ensures this.form == form && fresh(data)
      ensures Valid() && State() == Layout(capacity, 0, 0) && Contents() == []
    {
      this.form := form;
      data := new byte[capacity](_ => 0);
      readIndex, writeIndex := 0, 0;
    }

    method GetLength() returns (n: nat)
      requires Valid()
      ensures n == |Contents()|
    {
      n := writeIndex - readIndex;
    }

    /** Compaction: the readable bytes move to the front. */
    method Adjust()
      requires Valid()
      modifies this, data
      ensures Valid() && data == old(data) && Contents() == old(Contents())
      ensures State() == Layout(data.Length, 0, Readable(old(State())))
    {
      var n := writeIndex - readIndex;
      forall i | 0 <= i < n {
        data[i] := data[readIndex + i];
      }
      writeIndex, readIndex := n, 0;
    }

    /** A new block of `cap` bytes, the readable ones at its front. */
    method Reallocate(cap: nat)
      requires Valid() && writeIndex - readIndex <= cap < U32
      modifies this
      ensures Valid() && fresh(data) && Contents() == old(Contents())
      ensures State() == Layout(cap, 0, Readable(old(State())))
    {
      var kept := writeIndex - readIndex;
      var buf := new byte[cap](_ => 0);
      forall i | 0 <= i < kept {
        buf[i] := data[readIndex + i];
      }
      assert buf[..kept] == data[readIndex..writeIndex];
      writeIndex, readIndex := kept, 0;
      data := buf;
    }

    /** False when the copy into the new block would overrun it, which only 32-bit wrap can cause. */
    method Grow(length: nat) returns (inBounds: bool)
      requires Valid() && data.Length - writeIndex < length < U32
      modifies this, data
      ensures Valid() && (data == old(data) || fresh(data)) && Contents() == old(Contents())
      ensures inBounds <==> Readable(old(State())) <= MakeRoom(form, old(State()), length).capacity
      ensures inBounds ==> State() == MakeRoom(form, old(State()), length)
    {
      var l := Layout(data.Length, readIndex, writeIndex);
      assert l == State();
      GrowsTo(form, l, length);
      hide *;
      if Guard(form, l) < length {
        var cap := NewCapacity(l, length);
        if cap < writeIndex - readIndex {
          return false;
        }
        Reallocate(cap);
      } else {
        Adjust();
      }
      inBounds := true;
    }

    method EnsureCapacity(length: nat) returns (inBounds: bool)
      requires Valid() && length < U32
      modifies this, data
      ensures Valid() && (data == old(data) || fresh(data)) && Contents() == old(Contents())
      ensures inBounds <==> Readable(old(State())) <= MakeRoom(form, old(State()), length).capacity
      ensures inBounds ==> State() == MakeRoom(form, old(State()), length)
      ensures length <= old(data.Length - writeIndex) ==> inBounds && data == old(data) && State() == old(State())
      ensures length > old(data.Length - writeIndex) && inBounds ==> readIndex == 0
    {
      inBounds := true;
      if data.Length - writeIndex < length {
        inBounds := Grow(length);
      }
    }

    /** Copies `src` into the free tail of the block. */
    method CopyIn(src: bytes)
      requires Valid() && |src| <= data.Length - writeIndex
      modifies this`writeIndex, data
      ensures Valid() && Contents() == old(Contents()) + src && writeIndex == old(writeIndex) + |src|
    {
      ghost var before := Contents();
      forall i | 0 <= i < |src| {
        data[writeIndex + i] := src[i];
      }
      writeIndex := writeIndex + |src|;
      assert Contents() == before + src;
    }

    /** Append: the contents grow by `src` at the end, whatever compaction or reallocation that takes.
        `inBounds` is false exactly when the source would write past its block; the model then stops
        before the write and leaves the contents alone. */
    method Append(src: bytes) returns (inBounds: bool)
      requires Valid() && |src| < U32
      modifies this, data
      ensures Valid() && (data == old(data) || fresh(data))
      ensures inBounds <==> RoomFor(form, old(State()), |src|)
      ensures Contents() == old(Contents()) + (if inBounds then src else [])
      ensures inBounds ==> State() == AfterAppend(form, old(State()), |src|)
    {
      inBounds := EnsureCapacity(|src|);
      if inBounds && |src| <= data.Length - writeIndex {
        CopyIn(src);
      } else {
        inBounds := false;
      }
    }

    method AppendBuffer(other: Buffer) returns (inBounds: bool)
      requires Valid() && other.Valid() && other != this && other.data != data
      modifies this, data
      ensures Valid() && (data == old(data) || fresh(data))
      ensures inBounds <==> RoomFor(form, old(State()), |other.Contents()|)
      ensures Contents() == old(Contents()) + (if inBounds then other.Contents() else [])
    {
      inBounds := Append(other.data[other.readIndex..other.writeIndex]);
    }

    /** AppendInt8, AppendInt16, AppendInt32 and AppendInt64, by width. */
    method AppendInt(h: Host, width: nat, x: int) returns (inBounds: bool)
      requires Valid() && IsWidth(width) && Fits(width, x)
      modifies this, data
      ensures Valid() && (data == old(data) || fresh(data))
      ensures inBounds <==> RoomFor(form, old(State()), width)
      ensures Contents() == old(Contents()) + (if inBounds then IntWire(h, width, x) else [])
      ensures inBounds ==> State() == AfterAppend(form, old(State()), width)
    {
      SignedUnsigned(width, x);
      inBounds := Append(Image(h, width, Convert(h, width, Unsigned(width, x))));
    }

    /** ReadFd: the first segment fills the free tail of the block, the second a stack buffer that is
        appended afterwards.  Returns the result of readv. */
    method ReadFd(incoming: Received) returns (n: int, inBounds: bool)
      requires Valid()
      requires incoming.Got? ==> |incoming.data| < 0x8000_0000
      requires incoming.Got? ==>
        |incoming.data| <= data.Length - writeIndex
                           + if data.Length - writeIndex < EXTRA_SIZE then EXTRA_SIZE else 0
      modifies this, data
      ensures Valid() && (data == old(data) || fresh(data))
      ensures incoming.Failed? ==> n < 0 && inBounds && State() == old(State()) && Contents() == old(Contents())
      ensures incoming.Got? ==>
        var l := old(State());
        && n == |incoming.data|
        && (inBounds <==> n <= l.capacity - l.write
                          || RoomFor(form, l.(write := l.capacity), n - (l.capacity - l.write)))
        && Contents() == old(Contents())
                         + (if inBounds then incoming.data else incoming.data[..l.capacity - l.write])
        && (n <= l.capacity - l.write ==> State() == l.(write := l.write + n))
    {
      if incoming.Failed? {
        return -1, true;
      }
      hide RoomFor, Wrap, AfterAppend;
      var src := incoming.data;
      n := |src|;
      var writable := data.Length - writeIndex;
      if n <= writable {
        CopyIn(src);
        inBounds := true;
      } else {
        ghost var before := Contents();
        CopyIn(src[..writable]);
        inBounds := Append(src[writable..]);
        TwoSegments(before, src, writable);
      }
    }

    /** ReadInt8, ReadInt16, ReadInt32 and ReadInt64, by width.  None where the source would read past
        the bytes it has buffered. */
    method ReadInt(h: Host, width: nat) returns (r: Option<int>)
      requires Valid() && IsWidth(width)
      modifies this`readIndex
      ensures Valid()
      ensures width <= |old(Contents())| ==>
        r == Some(IntRead(h, old(Contents())[..width])) && Contents() == old(Contents())[width..]
      ensures width > |old(Contents())| ==> r == None && Contents() == old(Contents())
    {
      if writeIndex - readIndex < width {
        return None;
      }
      ghost var before := Contents();
      var s := data[readIndex..readIndex + width];
      assert s == before[..width];
      readIndex := readIndex + width;
      var raw := Load(h, s);
      r := Some(Signed(width, if width == 1 then raw else if width == 8 then Htonll(h, raw) else Ntoh(h, width, raw)));
      assert Contents() == before[width..];
    }

    /** ReadString(length): an overlong length is cut to what is buffered. */
    method ReadString(length: nat) returns (s: bytes)
      requires Valid()
      modifies this`readIndex
      ensures Valid()
      ensures var n := if length < |old(Contents())| then length else |old(Contents())|;
              s == old(Contents())[..n] && Contents() == old(Contents())[n..]
    {
      ghost var before := Contents();
      var n := if length > writeIndex - readIndex then writeIndex - readIndex else length;
      s := data[readIndex..readIndex + n];
      assert s == before[..n];
      readIndex := readIndex + n;
      assert Contents() == before[n..];
    }

    /** PeekTagLen: the length is the raw memory image, converted only in the intended form. */
    method PeekTagLen(h: Host, peek: Form) returns (r: Option<(byte, nat)>)
      requires Valid()
      ensures r == Peeked(h, peek, Contents()) && (r.None? <==> |Contents()| < 5)
      ensures r.Some? ==>
        var w := Contents()[1..5];
        r.value == (Contents()[0], FromBytes(if peek == Intended || h == BigEndian then w else Reversed(w)))
    {
      if writeIndex - readIndex < 5 {
        return None;
      }
      var s := data[readIndex..writeIndex];
      PeekedLength(h, s[1..5]);
      var raw := Load(h, s[1..5]);
      r := Some((s[0], if peek == Intended then Ntoh(h, 4, raw) else raw));
    }

    /** Forward: the int argument is compared as an unsigned number with the length; anything not
        smaller empties the buffer. */
    method Forward(num: int)
      requires Valid() && -0x8000_0000 <= num < U32
      modifies this`readIndex, this`writeIndex
      ensures Valid()
      ensures var n := if num < 0 then num + U32 else num;
              Contents() == if n < |old(Contents())| then old(Contents())[n..] else []
      ensures Contents() == [] ==> readIndex == writeIndex == 0
    {
      var n := if num < 0 then num + U32 else num;
      ghost var before := Contents();
      if n < writeIndex - readIndex {
        readIndex := readIndex + n;
        assert Contents() == before[n..];
      } else {
        readIndex, writeIndex := 0, 0;
      }
    }

    method Clear()
      requires Valid()
      modifies this`readIndex, this`writeIndex
      ensures Valid() && Contents() == [] && readIndex == writeIndex == 0
    {
      readIndex, writeIndex := 0, 0;
    }
  }

  /** The layout that Grow is to reach, in the terms in which it computes. */
  lemma GrowsTo(form: Form, l: Layout, length: nat)
    requires WellFormed(l) && l.capacity - l.write < length
    ensures MakeRoom(form, l, length)
         == Layout(if Guard(form, l) < length then NewCapacity(l, length) else l.capacity, 0, Readable(l))
    ensures NewCapacity(l, length) < U32 && Readable(l) == l.write - l.read <= l.capacity
  {
  }

  lemma TwoSegments(s: bytes, src: bytes, n: nat)
    requires n <= |src|
    ensures s + src[..n] + src[n..] == s + src && s + src[..n] + [] == s + src[..n]
  {
    assert src == src[..n] + src[n..];
  }

  /** What the conversion of PeekTagLen makes of the four bytes. */
  lemma PeekedLength(h: Host, w: bytes)
    requires |w| == 4
    ensures Ntoh(h, 4, Load(h, w)) == FromBytes(w)
    ensures Load(h, w) == FromBytes(if h == BigEndian then w else Reversed(w))
  {
    ImageLoad(h, w);
  }

  /** Tag and length of the frame at the front of `s`, the length as an unsigned number. */
  function Peeked(h: Host, peek: Form, s: bytes): Option<(byte, nat)> {
    if |s| < 5 then None
    else Some((s[0], if peek == Intended then Ntoh(h, 4, Load(h, s[1..5])) else Load(h, s[1..5])))
  }

  /** Where the receive path goes wrong: a block of `capacity` bytes with nothing consumed yet takes
      `n` more bytes than it holds safely exactly when they exceed three times its capacity; the
      intended guard always copes. */
  lemma FreshBufferReceive(capacity: nat, n: nat)
    requires capacity < n <= capacity + EXTRA_SIZE && 2 * capacity + EXTRA_SIZE < U32
    ensures RoomFor(AsWritten, Layout(capacity, 0, capacity), n - capacity) <==> n > 3 * capacity
    ensures RoomFor(Intended, Layout(capacity, 0, capacity), n - capacity)
  {
    GuardAsWritten(Layout(capacity, 0, capacity), n - capacity);
    GuardIntended(Layout(capacity, 0, capacity), n - capacity);
  }

  /** A default buffer that receives one byte more than it holds. */
  lemma DefaultBufferOverrun()
    ensures !RoomFor(AsWritten, Layout(INITIAL_SIZE, 0, INITIAL_SIZE), 1)
  {
    FreshBufferReceive(INITIAL_SIZE, INITIAL_SIZE + 1);
  }
}
