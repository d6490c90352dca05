/** Mixed lists of values, through a buffer that compacts and reallocates as it must. */
module BufferLists {
  import opened Options
  import opened Bytes
  import opened Codec
  import opened Layouts
  import opened Buffers

  /** Values that one append each can take. */
  predicate Appendable(xs: seq<Value>) {
    forall i :: 0 <= i < |xs| ==> Storable(xs[i]) && (xs[i].Text? ==> |xs[i].s| < U32)
  }

  function Sizes(h: Host, xs: seq<Value>): (ns: seq<nat>)
    requires forall i :: 0 <= i < |xs| ==> Storable(xs[i])
    ensures |ns| == |xs|
  {
    if xs == [] then [] else [|Wire(h, xs[0])|] + Sizes(h, xs[1..])
  }

  predicate Readable(shape: Shape) {
    shape.IntShape? ==> IsWidth(shape.width)
  }

  method AppendOne(buf: Buffer, h: Host, x: Value) returns (inBounds: bool)
    requires buf.Valid() && Storable(x) && (x.Text? ==> |x.s| < U32)
    modifies buf, buf.data
    ensures buf.Valid() && (buf.data == old(buf.data) || fresh(buf.data))
    ensures inBounds <==> RoomFor(buf.form, old(buf.State()), |Wire(h, x)|)
    ensures inBounds ==> buf.State() == AfterAppend(buf.form, old(buf.State()), |Wire(h, x)|)
    ensures inBounds ==> buf.Contents() == old(buf.Contents()) + Wire(h, x)
  {
    hide RoomFor, AfterAppend;
    match x
    case Int(n, v) => inBounds := buf.AppendInt(h, n, v);
    case Text(s) => inBounds := buf.Append(s);
  }

  lemma Rebracketed(a: bytes, b: bytes, c: bytes)
    ensures (a + b) + c == a + (b + c)
  {
  }

  /** The first value, and then the rest. */
  lemma FirstFits(form: Form, l: Layout, h: Host, xs: seq<Value>)
    requires WellFormed(l) && xs != [] && Appendable(xs)
    ensures Appendable(xs[1..]) && WireAll(h, xs) == Wire(h, xs[0]) + WireAll(h, xs[1..])
    ensures RoomForAll(form, l, Sizes(h, xs)) <==>
      RoomFor(form, l, |Wire(h, xs[0])|) && RoomForAll(form, AfterAppend(form, l, |Wire(h, xs[0])|), Sizes(h, xs[1..]))
  {
    assert Sizes(h, xs)[1..] == Sizes(h, xs[1..]);
  }

  /** The whole list goes in exactly when each append in turn stays inside the block it finds or makes. */
  method AppendAll(buf: Buffer, h: Host, xs: seq<Value>) returns (inBounds: bool)
    requires buf.Valid() && Appendable(xs)
    modifies buf, buf.data
    ensures buf.Valid() && (buf.data == old(buf.data) || fresh(buf.data))
    ensures inBounds <==> RoomForAll(buf.form, old(buf.State()), Sizes(h, xs))
    ensures inBounds ==> buf.Contents() == old(buf.Contents()) + WireAll(h, xs)
    decreases |xs|
  {
    if xs == [] {
      assert buf.Contents() + [] == buf.Contents();
      return true;
    }
    FirstFits(buf.form, buf.State(), h, xs);
    hide *;
    ghost var before, w, tail := buf.Contents(), Wire(h, xs[0]), WireAll(h, xs[1..]);
    Rebracketed(before, w, tail);
    inBounds := AppendOne(buf, h, xs[0]);
    if inBounds {
      inBounds := AppendAll(buf, h, xs[1..]);
    }
  }

  method ReadOneValue(buf: Buffer, h: Host, shape: Shape) returns (r: Option<Value>)
    requires buf.Valid() && Readable(shape)
    modifies buf
    ensures buf.Valid() && buf.data == old(buf.data)
    ensures var o := ReadOne(h, shape, old(buf.Contents()));
            (o.None? <==> r.None?) && (o.Some? ==> o.value == (r.value, buf.Contents()))
  {
    ReadOneIs(h, shape, buf.Contents());
    hide *;
    match shape
    case IntShape(n) =>
      var v := buf.ReadInt(h, n);
      r := if v.None? then None else Some(Int(n, v.value));
    case TextShape(n) =>
      var s := buf.ReadString(n);
      r := Some(Text(s));
  }

  /** The single read, in the terms of the buffer's methods. */
  lemma ReadOneIs(h: Host, shape: Shape, s: bytes)
    requires Readable(shape)
    ensures shape.IntShape? ==> IsWidth(shape.width)
    ensures shape.IntShape? && shape.width > |s| ==> ReadOne(h, shape, s) == None
    ensures shape.IntShape? && shape.width <= |s| ==>
      ReadOne(h, shape, s) == Some((Int(shape.width, IntRead(h, s[..shape.width])), s[shape.width..]))
    ensures var n := if shape.TextShape? && shape.length < |s| then shape.length else |s|;
            shape.TextShape? ==> ReadOne(h, shape, s) == Some((Text(s[..n]), s[n..]))
  {
    assert s[..|s|] == s && s[|s|..] == [];
  }

  method ReadValues(buf: Buffer, h: Host, shapes: seq<Shape>) returns (r: Option<seq<Value>>)
    requires buf.Valid() && forall i :: 0 <= i < |shapes| ==> Readable(shapes[i])
    modifies buf
    ensures buf.Valid()
    ensures var o := ReadAll(h, shapes, old(buf.Contents()));
            (o.None? <==> r.None?) && (o.Some? ==> o.value == (r.value, buf.Contents()))
    decreases |shapes|
  {
    hide ReadOne;
    if shapes == [] {
      return Some([]);
    }
    var x := ReadOneValue(buf, h, shapes[0]);
    if x.None? {
      return None;
    }
    var xs := ReadValues(buf, h, shapes[1..]);
    r := if xs.None? then None else Some([x.value] + xs.value);
  }

  lemma {:induction false} ShapesReadable(xs: seq<Value>)
    requires forall i :: 0 <= i < |xs| ==> Storable(xs[i])
    ensures forall i :: 0 <= i < |xs| ==> Readable(Shapes(xs)[i])
  {
    if xs != [] {
      ShapesReadable(xs[1..]);
    }
  }

  /** Any list of integers and strings written to an empty buffer of any capacity, across whatever
      growth that takes, is read back the same, and nothing is left; as long as the appends are in
      bounds, and exactly then is that reported. */
  method WriteAndRead(buf: Buffer, h: Host, xs: seq<Value>) returns (r: Option<seq<Value>>)
    requires buf.Valid() && buf.Contents() == [] && Appendable(xs)
    modifies buf, buf.data
    ensures buf.Valid()
    ensures r == if RoomForAll(buf.form, old(buf.State()), Sizes(h, xs)) then Some(xs) else None
    ensures r.Some? ==> buf.Contents() == []
  {
    hide RoomFor, AfterAppend, Wire, ReadOne, ReadAll, Shapes, RoomForAll, WireAll;
    var ok := AppendAll(buf, h, xs);
    if !ok {
      return None;
    }
    ListRoundTrip(h, xs, []);
    ShapesReadable(xs);
    assert [] + WireAll(h, xs) == WireAll(h, xs) == WireAll(h, xs) + [];
    r := ReadValues(buf, h, Shapes(xs));
  }
}
