/** Bytes, fixed-width integers and the byte-order conversions of the network library. */
module Bytes {
  type byte = b: int | 0 <= b < 256
  type bytes = seq<byte>

  /** The source as it stands, or with the named defect put right. */
  datatype Form = AsWritten | Intended

  /** Byte order of the machine the code runs on. */
  datatype Host = LittleEndian | BigEndian

  const U32: int := 0x1_0000_0000
  const U64: int := 0x1_0000_0000_0000_0000

  /** The value of an unsigned 32-bit computation. */
  function Wrap(x: nat): nat {
    x % U32
  }

  /** How many times 2^32 the computation has lost. */
  function Carry(x: nat): nat {
    x / U32
  }

  lemma Wrapped(x: nat)
    ensures x == U32 * Carry(x) + Wrap(x) && Wrap(x) < U32
  {
  }

  lemma NotWrapped(x: nat)
    requires x < U32
    ensures Wrap(x) == x
  {
  }

  function Pow256(n: nat): (p: nat)
    ensures p >= 1
  {
    if n == 0 then 1 else 256 * Pow256(n - 1)
  }

  lemma WordSizes()
    ensures Pow256(1) == 0x100 && Pow256(2) == 0x1_0000 && Pow256(4) == U32 && Pow256(8) == U64
  {
    assert Pow256(2) == 256 * Pow256(1);
    assert Pow256(3) == 256 * Pow256(2) && Pow256(4) == 256 * Pow256(3);
    assert Pow256(5) == 256 * Pow256(4) && Pow256(6) == 256 * Pow256(5);
    assert Pow256(7) == 256 * Pow256(6) && Pow256(8) == 256 * Pow256(7);
  }

  /** The low `n` bytes of `v`, most significant first. */
  function ToBytes(n: nat, v: nat): (s: bytes)
    ensures |s| == n
  {
    if n == 0 then [] else ToBytes(n - 1, v / 256) + [v % 256]
  }

  function FromBytes(s: bytes): nat {
    if s == [] then 0 else 256 * FromBytes(s[..|s| - 1]) + s[|s| - 1]
  }

  lemma {:induction false} FromBytesBound(s: bytes)
    ensures FromBytes(s) < Pow256(|s|)
  {
    if s != [] {
      FromBytesBound(s[..|s| - 1]);
    }
  }

  lemma {:induction false} FromTo(n: nat, v: nat)
    requires v < Pow256(n)
    ensures FromBytes(ToBytes(n, v)) == v
  {
    if n > 0 {
      var s := ToBytes(n, v);
      assert s[..n - 1] == ToBytes(n - 1, v / 256);
      FromTo(n - 1, v / 256);
    }
  }

  lemma {:induction false} ToFrom(s: bytes)
    ensures ToBytes(|s|, FromBytes(s)) == s
  {
    if s != [] {
      ToFrom(s[..|s| - 1]);
      assert s == s[..|s| - 1] + [s[|s| - 1]];
    }
  }

  function Reversed(s: bytes): (r: bytes)
    ensures |r| == |s|
    ensures forall i :: 0 <= i < |s| ==> r[i] == s[|s| - 1 - i]
  {
    if s == [] then [] else Reversed(s[1..]) + [s[0]]
  }

  lemma ReversedTwice(s: bytes)
    ensures Reversed(Reversed(s)) == s
  {
  }

  /** The memory image of an unsigned integer of `n` bytes, as memcpy sees it. */
  function Image(h: Host, n: nat, v: nat): (s: bytes)
    ensures |s| == n
  {
    if h == BigEndian then ToBytes(n, v) else Reversed(ToBytes(n, v))
  }

  function Load(h: Host, s: bytes): nat {
    FromBytes(if h == BigEndian then s else Reversed(s))
  }

  lemma LoadImage(h: Host, n: nat, v: nat)
    requires v < Pow256(n)
    ensures Load(h, Image(h, n, v)) == v
  {
    FromTo(n, v);
    ReversedTwice(ToBytes(n, v));
  }

  lemma ImageLoad(h: Host, s: bytes)
    ensures Image(h, |s|, Load(h, s)) == s
  {
    ToFrom(if h == BigEndian then s else Reversed(s));
    ReversedTwice(s);
  }

  lemma LoadBound(h: Host, s: bytes)
    ensures Load(h, s) < Pow256(|s|)
  {
    FromBytesBound(if h == BigEndian then s else Reversed(s));
  }

  /** htons and htonl: the integer whose memory image is `v` in network order. */
  function Hton(h: Host, n: nat, v: nat): nat {
    Load(h, ToBytes(n, v))
  }

  /** ntohs and ntohl. */
  function Ntoh(h: Host, n: nat, v: nat): nat {
    FromBytes(Image(h, n, v))
  }

  lemma ImageHton(h: Host, n: nat, v: nat)
    ensures Image(h, n, Hton(h, n, v)) == ToBytes(n, v)
  {
    ImageLoad(h, ToBytes(n, v));
  }

  lemma HtonBound(h: Host, n: nat, v: nat)
    ensures Hton(h, n, v) < Pow256(n)
  {
    LoadBound(h, ToBytes(n, v));
  }

  /** htonl and ntohl are one function, and it undoes itself. */
  lemma HtonIsNtoh(h: Host, n: nat, v: nat)
    requires v < Pow256(n)
    ensures Hton(h, n, v) == Ntoh(h, n, v) && Hton(h, n, Hton(h, n, v)) == v
  {
    ImageLoad(h, ToBytes(n, v));
    FromTo(n, v);
    if h == LittleEndian {
      var w := Hton(h, n, v);
      HtonBound(h, n, v);
      ReversedTwice(ToBytes(n, v));
      ToFrom(Reversed(ToBytes(n, v)));
      assert ToBytes(n, w) == Reversed(ToBytes(n, v));
    }
  }

  /** Two's complement at `n` bytes. */
  function Unsigned(n: nat, x: int): int {
    if x < 0 then x + Pow256(n) else x
  }

  function Signed(n: nat, v: nat): int {
    if 2 * v < Pow256(n) then v else v - Pow256(n)
  }

  predicate Fits(n: nat, x: int) {
    -(Pow256(n) as int) <= 2 * x < Pow256(n)
  }

  lemma SignedUnsigned(n: nat, x: int)
    requires Fits(n, x)
    ensures 0 <= Unsigned(n, x) < Pow256(n) && Signed(n, Unsigned(n, x)) == x
    ensures Unsigned(n, x) == x || Unsigned(n, x) == x + Pow256(n)
  {
  }

  // ---------------------------------------------------------------- 64-bit conversion

  function Exchanged(h: Host, high: nat, low: nat): nat {
    Hton(h, 4, low) * U32 + Hton(h, 4, high)
  }

  /** The 64-bit conversion, which always exchanges the 32-bit halves. */
  function Htonll(h: Host, v: nat): nat {
    Exchanged(h, v / U32, v % U32)
  }

  lemma {:induction false} ToBytesSplit(m: nat, n: nat, hi: nat, lo: nat)
    requires lo < Pow256(n)
    ensures ToBytes(m + n, hi * Pow256(n) + lo) == ToBytes(m, hi) + ToBytes(n, lo)
    decreases n
  {
    if n > 0 {
      var p := Pow256(n - 1);
      assert hi * Pow256(n) == 256 * (hi * p);
      var q := hi * p;
      assert (256 * q + lo) / 256 == q + lo / 256 && (256 * q + lo) % 256 == lo % 256;
      ToBytesSplit(m, n - 1, hi, lo / 256);
    }
  }

  lemma SplitWord(v: nat)
    requires v < U64
    ensures v == v / U32 * U32 + v % U32 && v / U32 < U32 && v % U32 < U32
  {
  }

  lemma JoinWord(hi: nat, lo: nat)
    requires hi < U32 && lo < U32
    ensures hi * U32 + lo < U64 && (hi * U32 + lo) / U32 == hi && (hi * U32 + lo) % U32 == lo
  {
  }

  lemma ReversedConcat(a: bytes, b: bytes)
    ensures Reversed(a + b) == Reversed(b) + Reversed(a)
  {
  }

  lemma Hton32(h: Host, v: nat)
    requires v < U32
    ensures Hton(h, 4, v) < U32 && Hton(h, 4, Hton(h, 4, v)) == v
  {
    WordSizes();
    HtonBound(h, 4, v);
    HtonIsNtoh(h, 4, v);
  }

  /** The 64-bit conversion undoes itself on either host, so 64-bit values survive a round trip
      between hosts of the same byte order. */
  lemma HtonllInvolution(h: Host, v: nat)
    requires v < U64
    ensures Htonll(h, v) < U64 && Htonll(h, Htonll(h, v)) == v
  {
    hide Hton;
    SplitWord(v);
    Hton32(h, v % U32);
    Hton32(h, v / U32);
    JoinWord(Hton(h, 4, v % U32), Hton(h, 4, v / U32));
  }

  lemma ImageOfHalves(h: Host, hi: nat, lo: nat)
    requires hi < U32 && lo < U32
    ensures Image(h, 8, hi * U32 + lo)
         == if h == LittleEndian then Image(h, 4, lo) + Image(h, 4, hi) else Image(h, 4, hi) + Image(h, 4, lo)
  {
    WordSizes();
    ToBytesSplit(4, 4, hi, lo);
    ReversedConcat(ToBytes(4, hi), ToBytes(4, lo));
  }

  lemma WireOfHalves(h: Host, a: nat, b: nat, hi: nat, lo: nat)
    requires a < U32 && b < U32 && hi < U32 && lo < U32
    requires Image(h, 4, hi) == ToBytes(4, a) && Image(h, 4, lo) == ToBytes(4, b)
    ensures Image(h, 8, hi * U32 + lo)
         == if h == LittleEndian then ToBytes(8, b * U32 + a) else ToBytes(4, a) + ToBytes(4, b)
  {
    ImageOfHalves(h, hi, lo);
    ImageOfHalves(BigEndian, b, a);
  }

  lemma ImageHton32(h: Host, v: nat)
    requires v < U32
    ensures Hton(h, 4, v) < U32 && Image(h, 4, Hton(h, 4, v)) == ToBytes(4, v)
  {
    Hton32(h, v);
    ImageHton(h, 4, v);
  }

  lemma WireOfHton(h: Host, a: nat, b: nat, hi: nat, lo: nat)
    requires a < U32 && b < U32
    requires hi == Hton(h, 4, a) && lo == Hton(h, 4, b)
    ensures Image(h, 8, hi * U32 + lo)
         == if h == LittleEndian then ToBytes(8, b * U32 + a) else ToBytes(4, a) + ToBytes(4, b)
  {
    ImageHton32(h, a);
    ImageHton32(h, b);
    WireOfHalves(h, a, b, hi, lo);
  }

  lemma ExchangedWire(h: Host, high: nat, low: nat)
    requires high < U32 && low < U32
    ensures Image(h, 8, Exchanged(h, high, low))
         == if h == LittleEndian then ToBytes(8, high * U32 + low) else ToBytes(4, low) + ToBytes(4, high)
  {
    hide Image, ToBytes, Hton;
    WireOfHton(h, low, high, Hton(h, 4, low), Hton(h, 4, high));
  }

  lemma HtonllBytes(h: Host, v: nat)
    requires v < U64
    ensures Image(h, 8, Htonll(h, v))
         == if h == LittleEndian then ToBytes(8, v) else ToBytes(4, v % U32) + ToBytes(4, v / U32)
  {
    hide Image, ToBytes, Exchanged;
    SplitWord(v);
    ExchangedWire(h, v / U32, v % U32);
  }

  lemma HalvesApart(v: nat)
    requires v < U64
    ensures ToBytes(8, v) == ToBytes(4, v / U32) + ToBytes(4, v % U32)
    ensures ToBytes(4, v % U32) + ToBytes(4, v / U32) == ToBytes(8, v) <==> v / U32 == v % U32
  {
    hide ToBytes;
    var hi, lo := v / U32, v % U32;
    SplitWord(v);
    WordSizes();
    ToBytesSplit(4, 4, hi, lo);
    FromTo(4, hi);
    FromTo(4, lo);
    var a, b := ToBytes(4, hi), ToBytes(4, lo);
    assert (b + a)[..4] == b && (a + b)[..4] == a;
  }

  /** The bytes a 64-bit append puts on the wire: network order on a little-endian host, network
      order with the halves exchanged on a big-endian one.  So the wire is in network order exactly on
      a little-endian host or for equal halves. */
  lemma HtonllWire(h: Host, v: nat)
    requires v < U64
    ensures Image(h, 8, Htonll(h, v))
         == if h == LittleEndian then ToBytes(8, v) else ToBytes(4, v % U32) + ToBytes(4, v / U32)
    ensures Image(h, 8, Htonll(h, v)) == ToBytes(8, v) <==> (h == LittleEndian || v / U32 == v % U32)
  {
    hide Image, ToBytes, Htonll;
    HtonllBytes(h, v);
    HalvesApart(v);
  }
}
