/** The typed values a Buffer appends and reads back. */
module Codec {
  import opened Options
  import opened Bytes

  /** The widths of the typed reads and appends: int8_t, int16_t, int32_t and int64_t. */
  predicate IsWidth(n: nat) {
    n == 1 || n == 2 || n == 4 || n == 8
  }

  /** The conversion applied to the unsigned integer before its memory image is appended. */
  function Convert(h: Host, n: nat, v: nat): nat {
    if n == 1 then v else if n == 8 then Htonll(h, v) else Hton(h, n, v)
  }

  /** The bytes appended for the integer `x`. */
  function IntWire(h: Host, n: nat, x: int): (s: bytes)
    requires Fits(n, x)
    ensures |s| == n
  {
    Image(h, n, Convert(h, n, Unsigned(n, x)))
  }

  /** The integer a typed read makes of `n` bytes. */
  function IntRead(h: Host, s: bytes): int {
    var n := |s|;
    var raw := Load(h, s);
    Signed(n, if n == 1 then raw else if n == 8 then Htonll(h, raw) else Ntoh(h, n, raw))
  }

  /** Any signed value, negative ones included, reads back as itself on a host of either byte order. */
  lemma IntRoundTrip(h: Host, n: nat, x: int)
    requires IsWidth(n) && Fits(n, x)
    ensures IntRead(h, IntWire(h, n, x)) == x
  {
    SignedUnsigned(n, x);
    var v := Unsigned(n, x);
    if n == 1 {
      LoadImage(h, n, v);
    } else if n == 8 {
      WordSizes();
      HtonllInvolution(h, v);
      LoadImage(h, n, Htonll(h, v));
    } else {
      HtonBound(h, n, v);
      HtonIsNtoh(h, n, v);
      HtonIsNtoh(h, n, Hton(h, n, v));
      LoadImage(h, n, Hton(h, n, v));
    }
  }

  /** Up to 32 bits the wire is in network order whatever the host. */
  lemma ShortWire(h: Host, n: nat, x: int)
    requires 1 <= n <= 4 && Fits(n, x)
    ensures Unsigned(n, x) >= 0 && IntWire(h, n, x) == ToBytes(n, Unsigned(n, x))
  {
    SignedUnsigned(n, x);
    if n > 1 {
      ImageHton(h, n, Unsigned(n, x));
    }
  }

  lemma ShortRead(h: Host, s: bytes)
    requires 1 <= |s| <= 4
    ensures IntRead(h, s) == Signed(|s|, FromBytes(s))
  {
    ImageLoad(h, s);
  }

  /** A 64-bit value is in network order from a little-endian host, and with its halves exchanged from a
      big-endian one. */
  lemma LongWire(h: Host, x: int)
    requires Fits(8, x)
    ensures Unsigned(8, x) >= 0
    ensures var v: nat := Unsigned(8, x);
            IntWire(h, 8, x) == if h == LittleEndian then ToBytes(8, v) else ToBytes(4, v % U32) + ToBytes(4, v / U32)
  {
    SignedUnsigned(8, x);
    WordSizes();
    HtonllWire(h, Unsigned(8, x));
  }

  lemma LongImage(h: Host, s: bytes, v: nat)
    requires |s| == 8 && v == FromBytes(if h == LittleEndian then s else s[4..] + s[..4])
    ensures v < U64 && Image(h, 8, Htonll(h, v)) == s
  {
    hide ToBytes, Image, Htonll, FromBytes;
    WordSizes();
    var t := if h == LittleEndian then s else s[4..] + s[..4];
    FromBytesBound(t);
    ToFrom(t);
    HtonllWire(h, v);
    HalvesApart(v);
    assert t[..4] == ToBytes(4, v / U32) && t[4..] == ToBytes(4, v % U32);
    assert s == s[..4] + s[4..];
  }

  /** And eight bytes are read accordingly. */
  lemma LongRead(h: Host, s: bytes)
    requires |s| == 8
    ensures IntRead(h, s) == Signed(8, FromBytes(if h == LittleEndian then s else s[4..] + s[..4]))
  {
    hide Htonll, Image, Load;
    var v := FromBytes(if h == LittleEndian then s else s[4..] + s[..4]);
    LongImage(h, s, v);
    WordSizes();
    HtonllInvolution(h, v);
    LoadImage(h, 8, Htonll(h, v));
  }

  datatype Value = Int(width: nat, v: int) | Text(s: bytes)
  datatype Shape = IntShape(width: nat) | TextShape(length: nat)

  predicate Storable(x: Value) {
    x.Int? ==> IsWidth(x.width) && Fits(x.width, x.v)
  }

  function ShapeOf(x: Value): Shape {
    match x
    case Int(n, _) => IntShape(n)
    case Text(s) => TextShape(|s|)
  }

  function Wire(h: Host, x: Value): bytes
    requires Storable(x)
  {
    match x
    case Int(n, v) => IntWire(h, n, v)
    case Text(s) => s
  }

  function WireAll(h: Host, xs: seq<Value>): bytes
    requires forall i :: 0 <= i < |xs| ==> Storable(xs[i])
  {
    if xs == [] then [] else Wire(h, xs[0]) + WireAll(h, xs[1..])
  }

  /** One typed read: the value and what is left, or None when too few bytes are buffered for an integer;
      a string is cut to what is buffered. */
  function ReadOne(h: Host, shape: Shape, s: bytes): Option<(Value, bytes)> {
    match shape
    case IntShape(n) => if n <= |s| then Some((Int(n, IntRead(h, s[..n])), s[n..])) else None
    case TextShape(n) => if n <= |s| then Some((Text(s[..n]), s[n..])) else Some((Text(s), []))
  }

  function ReadAll(h: Host, shapes: seq<Shape>, s: bytes): Option<(seq<Value>, bytes)>
    decreases |shapes|
  {
    if shapes == [] then Some(([], s)) else
    match ReadOne(h, shapes[0], s)
    case None => None
    case Some((x, rest)) =>
      match ReadAll(h, shapes[1..], rest)
      case None => None
      case Some((xs, end)) => Some(([x] + xs, end))
  }

  function Shapes(xs: seq<Value>): (r: seq<Shape>)
    ensures |r| == |xs|
  {
    if xs == [] then [] else [ShapeOf(xs[0])] + Shapes(xs[1..])
  }

  lemma OneRoundTrip(h: Host, x: Value, rest: bytes)
    requires Storable(x)
    ensures ReadOne(h, ShapeOf(x), Wire(h, x) + rest) == Some((x, rest))
  {
    var s := Wire(h, x) + rest;
    assert s[..|Wire(h, x)|] == Wire(h, x) && s[|Wire(h, x)|..] == rest;
    if x.Int? {
      IntRoundTrip(h, x.width, x.v);
    }
  }

  lemma ReadAllStep(h: Host, shape: Shape, shapes: seq<Shape>, s: bytes,
                    x: Value, mid: bytes, xs: seq<Value>, end: bytes)
    requires ReadOne(h, shape, s) == Some((x, mid)) && ReadAll(h, shapes, mid) == Some((xs, end))
    ensures ReadAll(h, [shape] + shapes, s) == Some(([x] + xs, end))
  {
    assert ([shape] + shapes)[1..] == shapes;
  }

  lemma ReadAllNone(h: Host, s: bytes)
    ensures ReadAll(h, [], s) == Some(([], s))
  {
  }

  /** A mixed list of integers and strings reads back as the same list, in order, and the reads stop
      exactly where the list ends. */
  lemma {:induction false} ListRoundTrip(h: Host, xs: seq<Value>, rest: bytes)
    requires forall i :: 0 <= i < |xs| ==> Storable(xs[i])
    ensures ReadAll(h, Shapes(xs), WireAll(h, xs) + rest) == Some((xs, rest))
  {
    hide Wire, ReadOne, ReadAll;
    if xs == [] {
      assert WireAll(h, xs) + rest == rest;
      ReadAllNone(h, rest);
    } else {
      var w, tail := Wire(h, xs[0]), WireAll(h, xs[1..]);
      assert (w + tail) + rest == w + (tail + rest);
      OneRoundTrip(h, xs[0], tail + rest);
      ListRoundTrip(h, xs[1..], rest);
      ReadAllStep(h, ShapeOf(xs[0]), Shapes(xs[1..]), w + (tail + rest), xs[0], tail + rest, xs[1..], rest);
      assert xs == [xs[0]] + xs[1..];
    }
  }
}
