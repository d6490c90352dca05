/** What the send path and the lifecycle of one connection do, as steps on values. */
module SendPath {
  import opened Bytes

  datatype ConnStatus = Disconnected | Connecting | Connected

  /** A set of event kinds: EV_READ, EV_WRITE. */
  datatype Interest = Interest(read: bool, write: bool)

  const NOTHING := Interest(false, false)

  /** `interest` is ev_type_, `registered` what libevent watches; `wire` is everything written to the
      socket so far and `handed` everything given to SendInLoop. */
  datatype Conn = Conn(
    status: ConnStatus, interest: Interest, registered: Interest,
    pending: bytes, wire: bytes, handed: bytes)

  const FRESH := Conn(Connected, NOTHING, NOTHING, [], [], [])

  /** Changing one kind of interest registers the whole set anew, unless it is already as asked. */
  function SetWrite(c: Conn, on: bool): Conn {
    if c.interest.write == on then c
    else c.(interest := c.interest.(write := on), registered := c.interest.(write := on))
  }

  function SetRead(c: Conn, on: bool): Conn {
    if c.interest.read == on then c
    else c.(interest := c.interest.(read := on), registered := c.interest.(read := on))
  }

  /** The bytes of `buf` left after the direct write of SendInLoop, `k` being its result. */
  function Leftover(c: Conn, buf: bytes, k: int): bytes
    requires k <= |buf|
  {
    if !c.interest.write && c.pending == [] && k >= 0 then buf[k..] else buf
  }

  function SendInLoop(c: Conn, buf: bytes, k: int): Conn
    requires -1 <= k <= |buf|
  {
    var rest := Leftover(c, buf, k);
    SetWrite(c.(wire := c.wire + buf[..|buf| - |rest|], pending := c.pending + rest, handed := c.handed + buf), true)
  }

  /** `k` is the result of writing the pending bytes. */
  function HandleWrite(c: Conn, k: int): Conn
    requires -1 <= k <= |c.pending|
  {
    if k > 0 then
      var c' := c.(wire := c.wire + c.pending[..k], pending := c.pending[k..]);
      if c'.pending == [] then SetWrite(c', false) else c'
    else c
  }

  function HandleClose(c: Conn): Conn {
    c.(interest := NOTHING, registered := NOTHING, status := Disconnected)
  }

  datatype Event = Start | Sending(buf: bytes, k: int) | Writable(w: int) | Closing

  /** The kernel's choice of results is free.  A write callback may even follow a close, when one
      dispatch carries both a read and a write event. */
  predicate Possible(c: Conn, e: Event) {
    match e
    case Start => true
    case Sending(buf, k) => -1 <= k <= |buf|
    case Writable(w) => -1 <= w <= |c.pending|
    case Closing => true
  }

  function After(c: Conn, e: Event): Conn
    requires Possible(c, e)
  {
    match e
    case Start => SetRead(c, true)
    case Sending(buf, k) => SendInLoop(c, buf, k)
    case Writable(w) => HandleWrite(c, w)
    case Closing => HandleClose(c)
  }

  // ---------------------------------------------------------------- each event in full

  /** A direct write is made only with no write interest and nothing pending; of `buf` the socket then has
      what it took, and the send buffer the rest.  Write interest is on afterwards, whatever was written. */
  lemma SendExactly(c: Conn, buf: bytes, k: int)
    requires -1 <= k <= |buf|
    ensures var took := if !c.interest.write && c.pending == [] && k > 0 then k else 0;
            var c' := SendInLoop(c, buf, k);
            && c'.wire == c.wire + buf[..took] && c'.pending == c.pending + buf[took..] && c'.handed == c.handed + buf
            && c'.interest == Interest(c.interest.read, true) && c'.status == c.status
            && c'.registered == if c.interest.write then c.registered else Interest(c.interest.read, true)
  {
  }

  /** A write event moves what the socket took, no more and no less; write interest goes with the last byte. */
  lemma WriteExactly(c: Conn, k: int)
    requires -1 <= k <= |c.pending|
    ensures var took := if k > 0 then k else 0;
            var c' := HandleWrite(c, k);
            && c'.wire == c.wire + c.pending[..took] && c'.pending == c.pending[took..] && c'.handed == c.handed
            && c'.interest == Interest(c.interest.read, c.interest.write && !(k > 0 && k == |c.pending|))
            && c'.registered == (if c'.interest == c.interest then c.registered else c'.interest)
            && c'.status == c.status
  {
    assert c.pending[..0] == [] && c.pending[0..] == c.pending;
  }

  /** A close leaves no interest and nothing registered, and touches no byte. */
  lemma CloseExactly(c: Conn)
    ensures var c' := HandleClose(c);
            && !c'.interest.read && !c'.interest.write && !c'.registered.read && !c'.registered.write
            && c'.status == Disconnected && c'.pending == c.pending && c'.wire == c.wire && c'.handed == c.handed
  {
  }

  /** A start turns read interest on, and does no more. */
  lemma StartExactly(c: Conn)
    ensures var c' := After(c, Start);
            && c'.interest == Interest(true, c.interest.write)
            && c'.registered == (if c.interest.read then c.registered else c'.interest)
            && c'.status == c.status && c'.pending == c.pending && c'.wire == c.wire && c'.handed == c.handed
  {
  }

  predicate PossibleRun(c: Conn, es: seq<Event>)
    decreases |es|
  {
    es == [] || (Possible(c, es[0]) && PossibleRun(After(c, es[0]), es[1..]))
  }

  function AfterAll(c: Conn, es: seq<Event>): Conn
    requires PossibleRun(c, es)
    decreases |es|
  {
    if es == [] then c else AfterAll(After(c, es[0]), es[1..])
  }

  /** Conservation and order on the wire; registration in step with ev_type_; pending output watched. */
  predicate Sound(c: Conn) {
    && c.wire + c.pending == c.handed
    && c.registered == c.interest
    && (c.status == Connected && c.pending != [] ==> c.interest.write)
  }

  lemma SendSound(c: Conn, buf: bytes, k: int)
    requires Sound(c) && -1 <= k <= |buf|
    ensures Sound(SendInLoop(c, buf, k))
  {
    var rest := Leftover(c, buf, k);
    var sent := buf[..|buf| - |rest|];
    assert sent + rest == buf;
    if c.pending == [] {
      assert c.handed == c.wire;
      assert (c.wire + sent) + ([] + rest) == c.wire + (sent + rest);
    } else {
      assert (c.wire + []) + (c.pending + rest) == (c.wire + c.pending) + rest;
    }
  }

  lemma WriteSound(c: Conn, k: int)
    requires Sound(c) && -1 <= k <= |c.pending|
    ensures Sound(HandleWrite(c, k))
  {
    if k > 0 {
      assert (c.wire + c.pending[..k]) + c.pending[k..] == c.wire + (c.pending[..k] + c.pending[k..]);
      assert c.pending == c.pending[..k] + c.pending[k..];
    }
  }

  lemma StepSound(c: Conn, e: Event)
    requires Sound(c) && Possible(c, e)
    ensures Sound(After(c, e))
  {
    match e
    case Sending(buf, k) => SendSound(c, buf, k);
    case Writable(w) => WriteSound(c, w);
    case _ =>
  }

  lemma {:induction false} RunSound(c: Conn, es: seq<Event>)
    requires Sound(c) && PossibleRun(c, es)
    ensures Sound(AfterAll(c, es))
    decreases |es|
  {
    if es != [] {
      StepSound(c, es[0]);
      RunSound(After(c, es[0]), es[1..]);
    }
  }

  /** What SendInLoop was handed, in order. */
  function Handed(es: seq<Event>): bytes {
    if es == [] then []
    else (if es[0].Sending? then es[0].buf else []) + Handed(es[1..])
  }

  lemma {:induction false} HandedAlongRun(c: Conn, es: seq<Event>)
    requires PossibleRun(c, es)
    ensures AfterAll(c, es).handed == c.handed + Handed(es)
    decreases |es|
  {
    if es != [] {
      HandedAlongRun(After(c, es[0]), es[1..]);
    }
  }

  /** Over every run of starts, sends, write events of any result and closes, in any order: what has
      reached the wire followed by what is pending is the concatenation of all buffers handed over.
      Nothing is lost, duplicated or overtaken by the direct write. */
  lemma SendConservation(es: seq<Event>)
    requires PossibleRun(FRESH, es)
    ensures var c := AfterAll(FRESH, es);
            c.wire + c.pending == Handed(es) && c.wire <= Handed(es)
  {
    RunSound(FRESH, es);
    HandedAlongRun(FRESH, es);
    var c := AfterAll(FRESH, es);
    assert FRESH.handed + Handed(es) == Handed(es);
  }

  /** How many bytes the socket took in one event: the positive result of the write made, if one was. */
  function Accepted(c: Conn, e: Event): nat {
    match e
    case Sending(buf, k) => if !c.interest.write && c.pending == [] && k > 0 then k else 0
    case Writable(w) => if w > 0 then w else 0
    case _ => 0
  }

  function AcceptedAll(c: Conn, es: seq<Event>): nat
    requires PossibleRun(c, es)
    decreases |es|
  {
    if es == [] then 0 else Accepted(c, es[0]) + AcceptedAll(After(c, es[0]), es[1..])
  }

  lemma AcceptedOnce(c: Conn, e: Event)
    requires Possible(c, e)
    ensures |After(c, e).wire| == |c.wire| + Accepted(c, e)
  {
    match e
    case Sending(buf, k) => SendExactly(c, buf, k);
    case Writable(w) => WriteExactly(c, w);
    case _ =>
  }

  lemma {:induction false} AcceptedAlongRun(c: Conn, es: seq<Event>)
    requires PossibleRun(c, es)
    ensures |AfterAll(c, es).wire| == |c.wire| + AcceptedAll(c, es)
    decreases |es|
  {
    if es != [] {
      AcceptedOnce(c, es[0]);
      hide After, Accepted;
      AcceptedAlongRun(After(c, es[0]), es[1..]);
    }
  }

  /** Over every run the wire holds exactly as many bytes of what was handed over as the socket reported
      taken: a partial write is never counted short or sent again. */
  lemma WireIsWhatWasTaken(es: seq<Event>)
    requires PossibleRun(FRESH, es)
    ensures AcceptedAll(FRESH, es) <= |Handed(es)| && AfterAll(FRESH, es).wire == Handed(es)[..AcceptedAll(FRESH, es)]
    ensures AfterAll(FRESH, es).pending == Handed(es)[AcceptedAll(FRESH, es)..]
  {
    AcceptedAlongRun(FRESH, es);
    SendConservation(es);
    var c := AfterAll(FRESH, es);
    assert c.wire + c.pending == Handed(es);
  }

  /** While the connection is up, pending output always has write interest, both in ev_type_ and in
      the set registered with libevent. */
  lemma PendingIsWatched(es: seq<Event>)
    requires PossibleRun(FRESH, es)
    ensures var c := AfterAll(FRESH, es);
            c.status == Connected && c.pending != [] ==> c.interest.write && c.registered.write
  {
    RunSound(FRESH, es);
  }

  /** Read interest comes from Start alone: no later send, write or close brings it back. */
  lemma {:induction false} ReadInterestOnlyFromStart(c: Conn, es: seq<Event>)
    requires PossibleRun(c, es) && !c.interest.read && forall i :: 0 <= i < |es| ==> es[i] != Start
    ensures !AfterAll(c, es).interest.read
    decreases |es|
  {
    if es != [] {
      ReadInterestOnlyFromStart(After(c, es[0]), es[1..]);
    }
  }

  /** Write interest is given up by the write event that empties the send buffer, and by no other. */
  lemma WriteInterestAfterEvent(c: Conn, k: int)
    requires Sound(c) && c.interest.write && -1 <= k <= |c.pending|
    ensures !HandleWrite(c, k).registered.write <==> c.pending != [] && k == |c.pending|
  {
  }

  /** Nothing is registered at any point of the run. */
  predicate QuietThroughout(c: Conn, es: seq<Event>)
    requires PossibleRun(c, es)
    decreases |es|
  {
    !c.registered.read && !c.registered.write && (es == [] || QuietThroughout(After(c, es[0]), es[1..]))
  }

  lemma {:induction false} QuietFrom(c: Conn, es: seq<Event>)
    requires PossibleRun(c, es) && c.registered == c.interest == NOTHING
    ensures QuietThroughout(c, es) <==> (forall i :: 0 <= i < |es| ==> !es[i].Start? && !es[i].Sending?)
    decreases |es|
  {
    if es != [] {
      var c' := After(c, es[0]);
      if es[0].Start? || es[0].Sending? {
        assert c'.registered != NOTHING;
      } else {
        QuietFrom(c', es[1..]);
        assert forall i :: 0 < i < |es| ==> es[i] == es[1..][i - 1];
        assert forall i :: 0 <= i < |es[1..]| ==> es[1..][i] == es[i + 1];
      }
    }
  }

  /** After a close, whatever came before it, the connection stays unregistered throughout a run exactly
      when neither a start nor a send that was still queued comes in it: each of those registers the closed
      connection again. */
  lemma ClosedStaysQuiet(c: Conn, es: seq<Event>)
    requires PossibleRun(After(c, Closing), es)
    ensures QuietThroughout(After(c, Closing), es) <==>
            (forall i :: 0 <= i < |es| ==> !es[i].Start? && !es[i].Sending?)
  {
    QuietFrom(After(c, Closing), es);
  }

  /** Such a send, for one: the direct write may even take place. */
  lemma SendAfterCloseRegisters(c: Conn, buf: bytes, k: int)
    requires -1 <= k <= |buf|
    ensures var c' := SendInLoop(HandleClose(c), buf, k);
            c'.status == Disconnected && c'.registered == Interest(false, true)
  {
  }

  /** When write interest outlives its use: after a send, interest is on with nothing pending exactly
      when the direct write took everything, or there was nothing to send and nothing pending. */
  lemma IdleWriteInterest(c: Conn, buf: bytes, k: int)
    requires Sound(c) && -1 <= k <= |buf|
    ensures var c' := SendInLoop(c, buf, k);
            c'.interest.write
            && (c'.pending == [] <==> c.pending == [] && (buf == [] || (!c.interest.write && k == |buf|)))
  {
  }

  /** ... and a write event then changes nothing, so the interest stays on until the next real send. */
  lemma IdleWriteEventIsStuck(c: Conn, w: int)
    requires c.pending == [] && Possible(c, Writable(w))
    ensures After(c, Writable(w)) == c
  {
  }
}
