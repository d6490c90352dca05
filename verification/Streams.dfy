/** Streams of self-delimiting packets, cut into arbitrary pieces. */
module Streams {
  import opened Options
  import opened Bytes

  /** What one callback makes of its receive buffer: it waits, it consumes a packet, or it goes wrong. */
  datatype Parse<+T> = More | Item(value: T, rest: bytes) | Bad

  datatype Packet<+T> = Packet(value: T, image: bytes)

  /** No proper prefix of the packet is taken for a packet, and whatever follows it is left untouched. */
  ghost predicate Delimited<T>(step: bytes -> Parse<T>, p: Packet<T>) {
    && p.image != []
    && (forall buf {:trigger step(buf)} :: buf < p.image ==> step(buf) == More)
    && (forall rest {:trigger step(p.image + rest)} :: step(p.image + rest) == Item(p.value, rest))
  }

  ghost predicate AllDelimited<T>(step: bytes -> Parse<T>, ps: seq<Packet<T>>) {
    step([]) == More && forall i :: 0 <= i < |ps| ==> Delimited(step, ps[i])
  }

  lemma DelimitedTakes<T>(step: bytes -> Parse<T>, p: Packet<T>, rest: bytes)
    requires Delimited(step, p)
    ensures step(p.image + rest) == Item(p.value, rest)
  {
  }

  lemma DelimitedSnoc<T>(step: bytes -> Parse<T>, ps: seq<Packet<T>>, p: Packet<T>)
    requires AllDelimited(step, ps) && Delimited(step, p)
    ensures AllDelimited(step, ps + [p])
  {
    forall i | 0 <= i < |ps + [p]| ensures Delimited(step, (ps + [p])[i]) {
      assert (ps + [p])[i] == if i < |ps| then ps[i] else p;
    }
  }

  lemma DelimitedTail<T>(step: bytes -> Parse<T>, ps: seq<Packet<T>>)
    requires AllDelimited(step, ps) && ps != []
    ensures AllDelimited(step, ps[1..])
  {
    forall i | 0 <= i < |ps[1..]| ensures Delimited(step, ps[1..][i]) {
      assert ps[1..][i] == ps[i + 1];
    }
  }

  function Stream<T>(ps: seq<Packet<T>>): bytes {
    if ps == [] then [] else ps[0].image + Stream(ps[1..])
  }

  function Values<T>(ps: seq<Packet<T>>): (vs: seq<T>)
    ensures |vs| == |ps|
  {
    if ps == [] then [] else [ps[0].value] + Values(ps[1..])
  }

  lemma {:induction false} ValuesAt<T>(ps: seq<Packet<T>>)
    ensures forall i :: 0 <= i < |ps| ==> Values(ps)[i] == ps[i].value
  {
    if ps != [] {
      ValuesAt(ps[1..]);
    }
  }

  lemma {:induction false} StreamSnoc<T>(ps: seq<Packet<T>>, p: Packet<T>)
    ensures Stream(ps + [p]) == Stream(ps) + p.image
  {
    if ps == [] {
      assert ps + [p] == [p] && [p][1..] == [];
    } else {
      assert (ps + [p])[1..] == ps[1..] + [p];
      StreamSnoc(ps[1..], p);
    }
  }

  /** A buffer that starts a stream stops inside the first packet, or contains all of it. */
  lemma FrontPacket(buf: bytes, unread: bytes, f: bytes, tail: bytes)
    requires buf + unread == f + tail
    ensures |buf| < |f| ==> buf < f
    ensures |buf| >= |f| ==> buf == f + buf[|f|..] && buf[|f|..] + unread == tail
  {
    var s := buf + unread;
    assert s[..|buf|] == buf;
    if |buf| < |f| {
      assert s[..|buf|] == f[..|buf|];
    } else {
      assert s[..|f|] == f && s[..|f|] == buf[..|f|];
      assert s[|f|..] == buf[|f|..] + unread && s[|f|..] == tail;
    }
  }

  /** A callback on any prefix of a stream waits until the first packet is complete, and then consumes
      exactly that packet. */
  lemma StepOnStream<T>(step: bytes -> Parse<T>, ps: seq<Packet<T>>, buf: bytes, unread: bytes)
    requires AllDelimited(step, ps) && buf + unread == Stream(ps)
    ensures ps == [] || |buf| < |ps[0].image| ==> step(buf) == More
    ensures ps != [] && |buf| >= |ps[0].image| ==>
      step(buf) == Item(ps[0].value, buf[|ps[0].image|..]) && buf[|ps[0].image|..] + unread == Stream(ps[1..])
  {
    if ps == [] {
      assert buf == [];
    } else {
      FrontPacket(buf, unread, ps[0].image, Stream(ps[1..]));
    }
  }

  /** Of two self-delimiting packets neither begins the other, so their streams split in one way. */
  lemma SameFront<T>(step: bytes -> Parse<T>, p: Packet<T>, q: Packet<T>, s: bytes, t: bytes)
    requires Delimited(step, p) && Delimited(step, q) && p.image + s == q.image + t
    ensures p.image == q.image && s == t
  {
    assert p.image + [] == p.image && q.image + [] == q.image;
    DelimitedTakes(step, p, []);
    DelimitedTakes(step, q, []);
    FrontPacket(p.image, s, q.image, t);
    FrontPacket(q.image, t, p.image, s);
  }

  /** What follows a stream of packets in a longer one is itself such a stream. */
  lemma {:induction false} StreamSuffix<T>(step: bytes -> Parse<T>, ps: seq<Packet<T>>, f: bytes, ps': seq<Packet<T>>)
    returns (qs: seq<Packet<T>>)
    requires AllDelimited(step, ps) && AllDelimited(step, ps') && Stream(ps) + f == Stream(ps')
    ensures AllDelimited(step, qs) && Stream(qs) == f
    decreases |ps|
  {
    if ps == [] {
      qs := ps';
      assert Stream(ps) + f == f;
    } else {
      assert Delimited(step, ps[0]) && ps'!= [];
      assert Stream(ps) + f == ps[0].image + (Stream(ps[1..]) + f);
      SameFront(step, ps[0], ps'[0], Stream(ps[1..]) + f, Stream(ps'[1..]));
      DelimitedTail(step, ps);
      DelimitedTail(step, ps');
      qs := StreamSuffix(step, ps[1..], f, ps'[1..]);
    }
  }

  /** Every value that repeated callbacks find in `s`, with no more input. */
  function Decode<T>(step: bytes -> Parse<T>, s: bytes): seq<T>
    decreases |s|
  {
    match step(s)
    case Item(v, rest) => [v] + if |rest| < |s| then Decode(step, rest) else []
    case _ => []
  }

  /** One callback per chunk: the values delivered and the bytes still buffered; None if a callback
      goes wrong. */
  function Deliver<T>(step: bytes -> Parse<T>, buf: bytes, chunks: seq<bytes>): Option<(seq<T>, bytes)>
    decreases |chunks|
  {
    if chunks == [] then Some(([], buf)) else
    match step(buf + chunks[0])
    case More => Deliver(step, buf + chunks[0], chunks[1..])
    case Bad => None
    case Item(v, rest) =>
      match Deliver(step, rest, chunks[1..])
      case None => None
      case Some((got, left)) => Some(([v] + got, left))
  }

  function Joined(chunks: seq<bytes>): bytes {
    if chunks == [] then [] else chunks[0] + Joined(chunks[1..])
  }

  // ---------------------------------------------------------------- independence of the chunks

  /** What the callback makes of a buffer with `b` still to come behind it, it makes of all of it. */
  predicate Survives<T(==)>(step: bytes -> Parse<T>, a: bytes, b: bytes) {
    match step(a)
    case More => true
    case Bad => false
    case Item(v, rest) => step(a + b) == Item(v, rest + b) && |rest| < |a|
  }

  /** Along the whole stream, what is found in a part of it is found in all of it. */
  ghost predicate Stable<T>(step: bytes -> Parse<T>, w: bytes)
    decreases |w|
  {
    && (forall k :: 0 <= k <= |w| ==> Survives(step, w[..k], w[k..]))
    && (step(w).Item? && |step(w).rest| < |w| ==> Stable(step, step(w).rest))
  }

  lemma Cut<T>(step: bytes -> Parse<T>, a: bytes, b: bytes)
    requires Stable(step, a + b)
    ensures Survives(step, a, b)
  {
    var k := |a|;
    assert (a + b)[..k] == a && (a + b)[k..] == b;
  }

  lemma {:induction false} DeliverStable<T>(step: bytes -> Parse<T>, buf: bytes, chunks: seq<bytes>, unread: bytes)
    requires Stable(step, buf + (Joined(chunks) + unread))
    ensures Deliver(step, buf, chunks).Some?
    ensures var (got, left) := Deliver(step, buf, chunks).value;
            got + Decode(step, left + unread) == Decode(step, buf + (Joined(chunks) + unread))
    decreases |chunks|
  {
    if chunks == [] {
      assert Joined(chunks) + unread == unread;
    } else {
      var s, more := buf + chunks[0], Joined(chunks[1..]) + unread;
      assert buf + (Joined(chunks) + unread) == s + more;
      Cut(step, s, more);
      match step(s)
      case More => DeliverStable(step, s, chunks[1..], unread);
      case Item(v, rest) =>
        DeliverStable(step, rest, chunks[1..], unread);
        var (got, left) := Deliver(step, rest, chunks[1..]).value;
        Front(v, got, Decode(step, left + unread));
      case Bad =>
    }
  }

  lemma Front<T>(v: T, a: seq<T>, b: seq<T>)
    ensures [v] + a + b == [v] + (a + b)
  {
  }

  /** However a stream is cut into reads, and wherever it stops: the values delivered followed by those
      still in the buffered and unread bytes are the values of the whole stream, for every callback that
      finds in a part of the stream what it finds in all of it. */
  lemma ChunkingIndependence<T>(step: bytes -> Parse<T>, chunks: seq<bytes>, unread: bytes)
    requires Stable(step, Joined(chunks) + unread)
    ensures Deliver(step, [], chunks).Some?
    ensures var (got, left) := Deliver(step, [], chunks).value;
            got + Decode(step, left + unread) == Decode(step, Joined(chunks) + unread)
  {
    assert [] + (Joined(chunks) + unread) == Joined(chunks) + unread;
    DeliverStable(step, [], chunks, unread);
  }

  // ---------------------------------------------------------------- packets that may have to wait

  /** The packet is taken once it is complete and `wait` more bytes have come, and whatever follows it is
      left untouched. */
  ghost predicate Patient<T>(step: bytes -> Parse<T>, p: Packet<T>, wait: nat) {
    && p.image != []
    && (forall buf {:trigger step(buf)} :: buf < p.image ==> step(buf) == More)
    && (forall rest {:trigger step(p.image + rest)} ::
          step(p.image + rest) == if |rest| >= wait then Item(p.value, rest) else More)
  }

  ghost predicate AllPatient<T>(step: bytes -> Parse<T>, ps: seq<Packet<T>>, waits: seq<nat>) {
    && |waits| == |ps| && step([]) == More
    && forall i :: 0 <= i < |ps| ==> Patient(step, ps[i], waits[i])
  }

  /** The values of the packets that enough follows. */
  function Ripe<T>(ps: seq<Packet<T>>, waits: seq<nat>): seq<T>
    requires |waits| == |ps|
  {
    if ps == [] || |Stream(ps[1..])| < waits[0] then [] else [ps[0].value] + Ripe(ps[1..], waits[1..])
  }

  lemma PatientTail<T>(step: bytes -> Parse<T>, ps: seq<Packet<T>>, waits: seq<nat>)
    requires AllPatient(step, ps, waits) && ps != []
    ensures AllPatient(step, ps[1..], waits[1..])
  {
    forall i | 0 <= i < |ps[1..]| ensures Patient(step, ps[1..][i], waits[1..][i]) {
      assert ps[1..][i] == ps[i + 1] && waits[1..][i] == waits[i + 1];
    }
  }

  /** A part of a packet and what follows it: nothing is found before the end of the packet, and then
      what is found in all. */
  lemma PatientSurvives<T>(step: bytes -> Parse<T>, p: Packet<T>, wait: nat, tail: bytes, k: nat)
    requires Patient(step, p, wait) && k <= |p.image + tail|
    ensures Survives(step, (p.image + tail)[..k], (p.image + tail)[k..])
  {
    var w, n := p.image + tail, |p.image|;
    var a, b := w[..k], w[k..];
    if k < n {
      assert a == p.image[..k] && a < p.image;
    } else {
      var r := tail[..k - n];
      assert a == p.image + r && r + b == tail && a + b == w;
    }
  }

  lemma {:induction false} PatientIsStable<T>(step: bytes -> Parse<T>, ps: seq<Packet<T>>, waits: seq<nat>)
    requires AllPatient(step, ps, waits)
    ensures Stable(step, Stream(ps)) && Decode(step, Stream(ps)) == Ripe(ps, waits)
    decreases |ps|
  {
    var w := Stream(ps);
    if ps == [] {
      assert w[..0] == w;
    } else {
      var tail := Stream(ps[1..]);
      forall k | 0 <= k <= |w| ensures Survives(step, w[..k], w[k..]) {
        PatientSurvives(step, ps[0], waits[0], tail, k);
      }
      assert Patient(step, ps[0], waits[0]);
      PatientTail(step, ps, waits);
      PatientIsStable(step, ps[1..], waits[1..]);
    }
  }

  lemma {:induction false} RipeAll<T>(ps: seq<Packet<T>>, waits: seq<nat>)
    requires |waits| == |ps| && forall i :: 0 <= i < |waits| ==> waits[i] == 0
    ensures Ripe(ps, waits) == Values(ps)
  {
    if ps != [] {
      RipeAll(ps[1..], waits[1..]);
    }
  }

  /** A self-delimiting packet need not wait. */
  lemma DelimitedIsPatient<T>(step: bytes -> Parse<T>, ps: seq<Packet<T>>) returns (waits: seq<nat>)
    requires AllDelimited(step, ps)
    ensures AllPatient(step, ps, waits) && forall i :: 0 <= i < |waits| ==> waits[i] == 0
  {
    waits := seq(|ps|, i => 0);
    forall i | 0 <= i < |ps| ensures Patient(step, ps[i], waits[i]) {
      assert Delimited(step, ps[i]);
    }
  }

  /** For self-delimiting packets the values of the whole stream are those of the packets. */
  lemma PacketsArrive<T>(step: bytes -> Parse<T>, ps: seq<Packet<T>>, chunks: seq<bytes>, unread: bytes)
    requires AllDelimited(step, ps) && Joined(chunks) + unread == Stream(ps)
    ensures Deliver(step, [], chunks).Some?
    ensures var (got, left) := Deliver(step, [], chunks).value;
            got + Decode(step, left + unread) == Values(ps)
  {
    var waits := DelimitedIsPatient(step, ps);
    PatientIsStable(step, ps, waits);
    RipeAll(ps, waits);
    ChunkingIndependence(step, chunks, unread);
  }

  // ---------------------------------------------------------------- how many have been delivered

  /** How many packets end within the first `n` bytes of the stream. */
  function Complete<T>(ps: seq<Packet<T>>, n: nat): (k: nat)
    ensures k <= |ps|
  {
    if ps == [] || n < |ps[0].image| then 0 else 1 + Complete(ps[1..], n - |ps[0].image|)
  }

  lemma {:induction false} CompleteExactly<T>(ps: seq<Packet<T>>, n: nat, k: nat)
    requires k <= |ps|
    ensures k <= Complete(ps, n) <==> |Stream(ps[..k])| <= n
    decreases |ps|
  {
    if ps != [] && k > 0 {
      assert ps[..k][1..] == ps[1..][..k - 1] && ps[..k][0] == ps[0];
      if n >= |ps[0].image| {
        CompleteExactly(ps[1..], n - |ps[0].image|, k - 1);
      }
    }
  }

  lemma {:induction false} CompleteGrows<T>(ps: seq<Packet<T>>, m: nat, n: nat)
    requires m <= n
    ensures Complete(ps, m) <= Complete(ps, n)
  {
    if ps != [] && m >= |ps[0].image| {
      CompleteGrows(ps[1..], m - |ps[0].image|, n - |ps[0].image|);
    }
  }

  /** One packet per read at most, and none before it is complete. */
  function Delivered<T>(ps: seq<Packet<T>>, chunks: seq<bytes>): nat
    decreases |chunks|
  {
    if chunks == [] then 0 else
    var before, now := Delivered(ps, chunks[..|chunks| - 1]), Complete(ps, |Joined(chunks)|);
    if before < now then before + 1 else now
  }

  lemma {:induction false} JoinedSnoc(chunks: seq<bytes>, c: bytes)
    ensures Joined(chunks + [c]) == Joined(chunks) + c
  {
    if chunks == [] {
      assert chunks + [c] == [c] && [c][1..] == [];
    } else {
      assert (chunks + [c])[1..] == chunks[1..] + [c];
      JoinedSnoc(chunks[1..], c);
    }
  }

  lemma {:induction false} DeliveredBound<T>(ps: seq<Packet<T>>, chunks: seq<bytes>)
    ensures Delivered(ps, chunks) <= Complete(ps, |Joined(chunks)|) <= |ps|
    ensures Delivered(ps, chunks) <= |chunks|
    decreases |chunks|
  {
    if chunks != [] {
      DeliveredBound(ps, chunks[..|chunks| - 1]);
    }
  }

  /** What one more read delivers. */
  function AfterRead<T>(step: bytes -> Parse<T>, got: seq<T>, s: bytes): Option<(seq<T>, bytes)> {
    match step(s)
    case More => Some((got, s))
    case Bad => None
    case Item(v, rest) => Some((got + [v], rest))
  }

  lemma {:induction false} DeliverSnoc<T>(step: bytes -> Parse<T>, buf: bytes, chunks: seq<bytes>, c: bytes)
    ensures Deliver(step, buf, chunks + [c])
         == match Deliver(step, buf, chunks)
            case None => None
            case Some((got, left)) => AfterRead(step, got, left + c)
    decreases |chunks|
  {
    if chunks == [] {
      assert chunks + [c] == [c] && [c][1..] == [];
      if step(buf + c).Item? {
        assert [] + [step(buf + c).value] == [step(buf + c).value] + [];
      }
    } else {
      assert (chunks + [c])[1..] == chunks[1..] + [c] && (chunks + [c])[0] == chunks[0];
      var o := step(buf + chunks[0]);
      if o == More {
        DeliverSnoc(step, buf + chunks[0], chunks[1..], c);
      } else if o.Item? {
        DeliverSnoc(step, o.rest, chunks[1..], c);
        var d := Deliver(step, o.rest, chunks[1..]);
        if d.Some? && step(d.value.1 + c).Item? {
          Front(o.value, d.value.0, [step(d.value.1 + c).value]);
        }
      }
    }
  }

  lemma {:induction false} StreamConcat<T>(ps: seq<Packet<T>>, qs: seq<Packet<T>>)
    ensures Stream(ps + qs) == Stream(ps) + Stream(qs)
  {
    if ps == [] {
      assert ps + qs == qs;
    } else {
      assert (ps + qs)[1..] == ps[1..] + qs;
      StreamConcat(ps[1..], qs);
    }
  }

  /** With `d` packets delivered of what has been read, the next is complete exactly when it is buffered. */
  lemma NextComplete<T>(ps: seq<Packet<T>>, d: nat, buf: bytes, n: nat, unread: bytes)
    requires d <= |ps| && buf + unread == Stream(ps[d..]) && n + |unread| == |Stream(ps)|
    ensures d < Complete(ps, n) <==> d < |ps| && |buf| >= |ps[d].image|
  {
    assert ps[..d] + ps[d..] == ps;
    StreamConcat(ps[..d], ps[d..]);
    if d < |ps| {
      CompleteExactly(ps, n, d + 1);
      assert ps[..d + 1] == ps[..d] + [ps[d]];
      StreamSnoc(ps[..d], ps[d]);
    }
  }

  lemma DelimitedFrom<T>(step: bytes -> Parse<T>, ps: seq<Packet<T>>, d: nat)
    requires AllDelimited(step, ps) && d <= |ps|
    ensures AllDelimited(step, ps[d..])
  {
    forall i | 0 <= i < |ps[d..]| ensures Delimited(step, ps[d..][i]) {
      assert ps[d..][i] == ps[d + i];
    }
  }

  /** The callback waits exactly when no further packet is complete. */
  lemma WaitsExactly<T>(step: bytes -> Parse<T>, ps: seq<Packet<T>>, d: nat, buf: bytes, n: nat, unread: bytes)
    requires AllDelimited(step, ps) && d <= |ps| && buf + unread == Stream(ps[d..]) && n + |unread| == |Stream(ps)|
    ensures d < Complete(ps, n) ==>
      d < |ps| && step(buf).Item? && step(buf).value == ps[d].value && step(buf).rest + unread == Stream(ps[d + 1..])
    ensures d >= Complete(ps, n) ==> step(buf) == More
  {
    NextComplete(ps, d, buf, n, unread);
    DelimitedFrom(step, ps, d);
    StepOnStream(step, ps[d..], buf, unread);
    if d < |ps| {
      assert ps[d..][0] == ps[d] && ps[d..][1..] == ps[d + 1..];
    }
  }

  /** The read that makes `d` packets `d + 1`, or leaves it at that. */
  lemma OneMoreRead<T>(step: bytes -> Parse<T>, ps: seq<Packet<T>>, d: nat, buf: bytes, n: nat, unread: bytes)
    requires AllDelimited(step, ps) && d <= |ps|
    requires buf + unread == Stream(ps[d..]) && n + |unread| == |Stream(ps)|
    ensures AfterRead(step, Values(ps)[..d], buf).Some?
    ensures var e := if d < Complete(ps, n) then d + 1 else d;
            var (got, left) := AfterRead(step, Values(ps)[..d], buf).value;
            e <= |ps| && got == Values(ps)[..e] && left + unread == Stream(ps[e..])
  {
    WaitsExactly(step, ps, d, buf, n, unread);
    ValuesAt(ps);
    hide Stream, Complete, AllDelimited, Values;
    if d < Complete(ps, n) {
      assert Values(ps)[..d] + [ps[d].value] == Values(ps)[..d + 1];
    }
  }

  lemma NothingComplete<T>(step: bytes -> Parse<T>, ps: seq<Packet<T>>)
    requires AllDelimited(step, ps)
    ensures Complete(ps, 0) == 0
  {
    if ps != [] {
      assert Delimited(step, ps[0]);
    }
  }

  lemma DeliveredSnoc<T>(ps: seq<Packet<T>>, chunks: seq<bytes>, c: bytes)
    ensures var d, now := Delivered(ps, chunks), Complete(ps, |Joined(chunks) + c|);
            Delivered(ps, chunks + [c]) == if d < now then d + 1 else d
  {
    assert (chunks + [c])[..|chunks|] == chunks;
    JoinedSnoc(chunks, c);
    DeliveredBound(ps, chunks);
    CompleteGrows(ps, |Joined(chunks)|, |Joined(chunks) + c|);
  }

  /** The first `d` values have been delivered, and the rest of the stream is still to come. */
  predicate DeliveredIs<T(==)>(step: bytes -> Parse<T>, ps: seq<Packet<T>>, chunks: seq<bytes>, unread: bytes, d: nat) {
    && d <= |ps| && Deliver(step, [], chunks).Some?
    && var (got, left) := Deliver(step, [], chunks).value;
       got == Values(ps)[..d] && left + unread == Stream(ps[d..])
  }

  lemma ReadOneMore<T>(step: bytes -> Parse<T>, ps: seq<Packet<T>>, chunks: seq<bytes>, c: bytes, unread: bytes, d: nat)
    requires AllDelimited(step, ps) && DeliveredIs(step, ps, chunks, c + unread, d)
    requires |Joined(chunks) + c| + |unread| == |Stream(ps)|
    ensures DeliveredIs(step, ps, chunks + [c], unread, if d < Complete(ps, |Joined(chunks) + c|) then d + 1 else d)
  {
    DeliverSnoc(step, [], chunks, c);
    hide Deliver, Stream, AllDelimited, Complete, Joined, Values, AfterRead;
    var (got, left) := Deliver(step, [], chunks).value;
    assert (left + c) + unread == left + (c + unread);
    OneMoreRead(step, ps, d, left + c, |Joined(chunks) + c|, unread);
  }

  lemma NothingRead<T>(step: bytes -> Parse<T>, ps: seq<Packet<T>>, unread: bytes)
    requires Joined([]) + unread == Stream(ps)
    ensures DeliveredIs(step, ps, [], unread, Delivered(ps, []))
  {
    assert ps[0..] == ps && [] + unread == Joined([]) + unread;
  }

  /** The stream, seen before the last read. */
  lemma BeforeLast<T>(ps: seq<Packet<T>>, chunks: seq<bytes>, c: bytes, unread: bytes)
    requires Joined(chunks + [c]) + unread == Stream(ps)
    ensures Joined(chunks) + (c + unread) == Stream(ps) && |Joined(chunks) + c| + |unread| == |Stream(ps)|
  {
    JoinedSnoc(chunks, c);
    assert Joined(chunks) + (c + unread) == (Joined(chunks) + c) + unread;
  }

  /** Exactly which packets have been delivered: the first `Delivered`, a count the chunk boundaries
      determine alone. */
  lemma {:induction false} DeliveredExactly<T>(step: bytes -> Parse<T>, ps: seq<Packet<T>>, chunks: seq<bytes>,
                                               unread: bytes)
    requires AllDelimited(step, ps) && Joined(chunks) + unread == Stream(ps)
    ensures DeliveredIs(step, ps, chunks, unread, Delivered(ps, chunks))
    decreases |chunks|
  {
    hide *;
    if chunks == [] {
      NothingRead(step, ps, unread);
    } else {
      var before, c := chunks[..|chunks| - 1], chunks[|chunks| - 1];
      assert chunks == before + [c];
      BeforeLast(ps, before, c, unread);
      DeliveredExactly(step, ps, before, c + unread);
      DeliveredSnoc(ps, before, c);
      ReadOneMore(step, ps, before, c, unread, Delivered(ps, before));
    }
  }

  // ---------------------------------------------------------------- when the reads keep up

  /** In no final stretch of the reads were more packets completed than reads made. */
  predicate KeepsUp<T>(ps: seq<Packet<T>>, chunks: seq<bytes>) {
    forall j :: 0 <= j <= |chunks| ==>
      Complete(ps, |Joined(chunks)|) - Complete(ps, |Joined(chunks[..j])|) <= |chunks| - j
  }

  /** Each read delivers one packet at most. */
  lemma {:induction false} DeliveredSlowly<T>(ps: seq<Packet<T>>, chunks: seq<bytes>, j: nat)
    requires j <= |chunks|
    ensures Delivered(ps, chunks) <= Complete(ps, |Joined(chunks[..j])|) + (|chunks| - j)
    decreases |chunks|
  {
    DeliveredBound(ps, chunks);
    if j == |chunks| {
      assert chunks[..j] == chunks;
    } else {
      var before := chunks[..|chunks| - 1];
      assert before[..j] == chunks[..j];
      DeliveredSlowly(ps, before, j);
    }
  }

  /** If packets are behind, then since the last moment when none was every read has delivered one. */
  lemma {:induction false} BehindSince<T>(ps: seq<Packet<T>>, chunks: seq<bytes>) returns (j: nat)
    requires Complete(ps, 0) == 0 && Delivered(ps, chunks) < Complete(ps, |Joined(chunks)|)
    ensures j <= |chunks| && Delivered(ps, chunks) == Complete(ps, |Joined(chunks[..j])|) + (|chunks| - j)
    decreases |chunks|
  {
    var before := chunks[..|chunks| - 1];
    DeliveredBound(ps, before);
    if Delivered(ps, before) == Complete(ps, |Joined(before)|) {
      j := |chunks| - 1;
    } else {
      j := BehindSince(ps, before);
      assert before[..j] == chunks[..j];
    }
  }

  /** Nothing complete is left in the buffer, waiting for a later read, exactly when the reads have kept up
      with the packets. */
  lemma NothingLeftExactly<T>(step: bytes -> Parse<T>, ps: seq<Packet<T>>, chunks: seq<bytes>, unread: bytes)
    requires AllDelimited(step, ps) && Joined(chunks) + unread == Stream(ps)
    ensures Deliver(step, [], chunks).Some?
    ensures step(Deliver(step, [], chunks).value.1) == More <==> KeepsUp(ps, chunks)
  {
    DeliveredExactly(step, ps, chunks, unread);
    DeliveredBound(ps, chunks);
    NothingComplete(step, ps);
    WaitsExactly(step, ps, Delivered(ps, chunks), Deliver(step, [], chunks).value.1, |Joined(chunks)|, unread);
    hide Deliver, Stream, AllDelimited, Complete;
    if Delivered(ps, chunks) == Complete(ps, |Joined(chunks)|) {
      forall j | 0 <= j <= |chunks|
        ensures Complete(ps, |Joined(chunks)|) - Complete(ps, |Joined(chunks[..j])|) <= |chunks| - j
      {
        DeliveredSlowly(ps, chunks, j);
      }
    } else {
      var j := BehindSince(ps, chunks);
    }
  }
}
