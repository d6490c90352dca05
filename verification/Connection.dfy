/** The connection object: its watcher, its two buffers, and its callbacks. */
module Connections {
  import opened Bytes
  import opened Layouts
  import opened Buffers
  import opened SendPath

  class FdWatcher {
    var interest: Interest
    var added: bool
    var registered: Interest

    constructor (interest: Interest)
      ensures this.interest == interest && !added && registered == NOTHING
    {
      this.interest, added, registered := interest, false, NOTHING;
    }

    /** Registers the current interest, dropping an earlier registration first. */
    method Start()
      modifies this
      ensures interest == old(interest) && added && registered == interest
    {
      if added {
        registered := NOTHING;
      }
      registered := interest;
      added := true;
    }

    method EnableReadEvent()
      modifies this
      ensures interest == old(interest).(read := true)
      ensures registered == if old(interest).read then old(registered) else interest
    {
      if !interest.read {
        interest := interest.(read := true);
        Start();
      }
    }

    method EnableWriteEvent()
      modifies this
      ensures interest == old(interest).(write := true)
      ensures registered == if old(interest).write then old(registered) else interest
    {
      if !interest.write {
        interest := interest.(write := true);
        Start();
      }
    }

    method DisableWriteEvent()
      modifies this
      ensures interest == old(interest).(write := false)
      ensures registered == if old(interest).write then interest else old(registered)
    {
      if interest.write {
        interest := interest.(write := false);
        Start();
      }
    }

    method DisableAllEvent()
      modifies this
      ensures !interest.read && !interest.write && !registered.read && !registered.write && added == old(added)
    {
      interest := NOTHING;
      registered := NOTHING;
    }
  }

  /** Which user callback a read event leads to. */
  datatype ReadOutcome = Message | Closed | Nothing

  class TCPConnection {
    const watcher: FdWatcher
    const sendBuffer: Buffer
    const recvBuffer: Buffer
    var status: ConnStatus
    ghost var wire: bytes
    ghost var handed: bytes

    /** The two buffers share no storage. */
    ghost predicate Valid()
      reads this, sendBuffer, recvBuffer
    {
      && sendBuffer != recvBuffer && sendBuffer.data != recvBuffer.data
      && sendBuffer.Valid() && recvBuffer.Valid()
    }

    ghost function View(): Conn
      requires Valid()
      reads this, watcher, sendBuffer, recvBuffer, sendBuffer.data
    {
      Conn(status, watcher.interest, watcher.registered, sendBuffer.Contents(), wire, handed)
    }

    constructor (form: Form)
      ensures Valid() && View() == FRESH && recvBuffer.Contents() == []
      ensures status == Connected && watcher.interest == watcher.registered == Interest(false, false)
      ensures sendBuffer.form == form && recvBuffer.form == form
    {
      watcher := new FdWatcher(NOTHING);
      recvBuffer := new Buffer(form);
      sendBuffer := new Buffer(form);
      status, wire, handed := Connected, [], [];
    }

    method Start()
      requires Valid()
      modifies this, watcher
      ensures Valid() && View() == SetRead(old(View()), true)
    {
      watcher.EnableReadEvent();
    }

    /** HandleRead: whatever arrives is appended to the receive buffer before any callback; end of
        stream closes.  `inBounds` is that of ReadFd. */
    method HandleRead(incoming: Received) returns (outcome: ReadOutcome, inBounds: bool)
      requires Valid()
      requires incoming.Got? ==> |incoming.data| < 0x8000_0000
      requires incoming.Got? ==>
        var room := recvBuffer.data.Length - recvBuffer.writeIndex;
        |incoming.data| <= room + if room < EXTRA_SIZE then EXTRA_SIZE else 0
      modifies this, watcher, recvBuffer, recvBuffer.data
      ensures Valid()
      ensures outcome == if incoming.Failed? then Nothing else if incoming.data == [] then Closed else Message
      ensures View() == if outcome == Closed then HandleClose(old(View())) else old(View())
      ensures var data := if incoming.Got? then incoming.data else [];
              inBounds ==> recvBuffer.Contents() == old(recvBuffer.Contents()) + data
      ensures incoming.Failed? ==> inBounds
      ensures incoming.Got? ==>
        var l := old(recvBuffer.State());
        inBounds <==> |incoming.data| <= l.capacity - l.write
                      || RoomFor(recvBuffer.form, l.(write := l.capacity), |incoming.data| - (l.capacity - l.write))
    {
      var n;
      n, inBounds := recvBuffer.ReadFd(incoming);
      if n > 0 {
        outcome := Message;
      } else if n == 0 {
        CloseNow();
        outcome := Closed;
      } else {
        outcome := Nothing;
      }
    }

    /** HandleWrite; `k` is the result of write. */
    method HandleWrite(k: int)
      requires Valid() && -1 <= k <= |sendBuffer.Contents()| < 0x8000_0000
      modifies this, watcher, sendBuffer
      ensures Valid() && View() == SendPath.HandleWrite(old(View()), k)
      ensures sendBuffer.Contents() == if k > 0 then old(sendBuffer.Contents())[k..] else old(sendBuffer.Contents())
      ensures wire == old(wire) + if k > 0 then old(sendBuffer.Contents())[..k] else []
      ensures watcher.interest.write == (old(watcher.interest.write) && (k <= 0 || sendBuffer.Contents() != []))
    {
      ghost var pending := sendBuffer.Contents();
      if k > 0 {
        wire := wire + pending[..k];
        sendBuffer.Forward(k);
        assert sendBuffer.Contents() == pending[k..];
        var left := sendBuffer.GetLength();
        if left == 0 {
          watcher.DisableWriteEvent();
        }
      }
    }

    /** FdWatcher::Handle: the read callback first, and then the write callback, even if the first has closed
        the connection. */
    method Dispatch(readable: bool, incoming: Received, writable: bool, k: int)
      returns (outcome: ReadOutcome, inBounds: bool)
      requires Valid() && -1 <= k <= |sendBuffer.Contents()| < 0x8000_0000
      requires incoming.Got? ==> |incoming.data| < 0x8000_0000
      requires incoming.Got? ==>
        var room := recvBuffer.data.Length - recvBuffer.writeIndex;
        |incoming.data| <= room + if room < EXTRA_SIZE then EXTRA_SIZE else 0
      modifies this, watcher, sendBuffer, recvBuffer, recvBuffer.data
      ensures Valid()
      ensures outcome == if !readable || incoming.Failed? then Nothing
                         else if incoming.data == [] then Closed else Message
      ensures var read := if outcome == Closed then HandleClose(old(View())) else old(View());
              View() == if writable then SendPath.HandleWrite(read, k) else read
    {
      outcome, inBounds := Nothing, true;
      if readable {
        outcome, inBounds := HandleRead(incoming);
      }
      if writable {
        HandleWrite(k);
      }
    }

    /** HandleClose, without the close callback. */
    method CloseNow()
      requires Valid()
      modifies this, watcher
      ensures !watcher.interest.read && !watcher.interest.write
      ensures !watcher.registered.read && !watcher.registered.write && status == Disconnected
      ensures Valid() && View() == HandleClose(old(View())) && recvBuffer.Contents() == old(recvBuffer.Contents())
    {
      watcher.DisableAllEvent();
      status := Disconnected;
    }

    /** The direct write of SendInLoop, made only when nothing is queued ahead of `buf`. */
    method DirectWrite(buf: Buffer, k: int) returns (remaining: nat)
      requires Valid() && buf.Valid() && buf != sendBuffer && buf != recvBuffer
      requires -1 <= k <= |buf.Contents()| < 0x8000_0000
      modifies buf
      ensures buf.Valid() && buf.data == old(buf.data)
      ensures remaining == |Leftover(old(View()), old(buf.Contents()), k)|
      ensures remaining > 0 ==> buf.Contents() == Leftover(old(View()), old(buf.Contents()), k)
    {
      hide WellFormed;
      remaining := buf.GetLength();
      var queued := sendBuffer.GetLength();
      if !watcher.interest.write && queued == 0 && k >= 0 {
        remaining := remaining - k;
        buf.Forward(k);
      }
    }

    /** SendInLoop; `k` is the result of the direct write, used only when one is made.  `inBounds` is
        false when the bytes left over do not fit the send buffer under its guard. */
    method SendInLoop(buf: Buffer, k: int) returns (inBounds: bool)
      requires Valid() && buf.Valid() && |buf.Contents()| < 0x8000_0000
      requires buf != sendBuffer && buf.data != sendBuffer.data && buf != recvBuffer && buf.data != recvBuffer.data
      requires -1 <= k <= |buf.Contents()|
      modifies this, watcher, sendBuffer, sendBuffer.data, buf
      ensures Valid()
      ensures var direct := !old(watcher.interest.write) && old(sendBuffer.Contents()) == [] && k > 0;
              var took, all := if direct then k else 0, old(buf.Contents());
              && (inBounds <==> took == |all| || RoomFor(sendBuffer.form, old(sendBuffer.State()), |all| - took))
              && wire == old(wire) + all[..took]
              && sendBuffer.Contents() == old(sendBuffer.Contents()) + (if inBounds then all[took..] else [])
              && watcher.interest.write
      ensures inBounds ==> View() == SendPath.SendInLoop(old(View()), old(buf.Contents()), k)
    {
      ghost var before, all := View(), buf.Contents();
      ghost var rest := Leftover(before, all, k);
      var remaining := DirectWrite(buf, k);
      wire := wire + all[..|all| - |rest|];
      handed := handed + all;
      inBounds := true;
      if remaining > 0 {
        inBounds := sendBuffer.AppendBuffer(buf);
      }
      assert inBounds ==> sendBuffer.Contents() == before.pending + rest;
      if !watcher.interest.write {
        watcher.EnableWriteEvent();
      }
    }
  }
}
