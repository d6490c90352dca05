/** Capacity and index arithmetic of Buffer, in the 32-bit unsigned arithmetic of the source. */
module Layouts {
  import opened Bytes

  datatype Layout = Layout(capacity: nat, read: nat, write: nat)

  predicate WellFormed(l: Layout) {
    l.read <= l.write <= l.capacity < U32
  }

  function Readable(l: Layout): int {
    l.write - l.read
  }

  /** What grow compares the request with: as written the readable length added to the capacity; intended,
      the room left by compaction. */
  function Guard(form: Form, l: Layout): nat
    requires WellFormed(l)
  {
    match form
    case AsWritten => Wrap(l.write + l.capacity - l.read)
    case Intended => Wrap(l.read + l.capacity - l.write)
  }

  /** The test that makes grow allocate a new block rather than compact the old one. */
  predicate Reallocates(form: Form, l: Layout, n: nat)
    requires WellFormed(l)
  {
    Guard(form, l) < n
  }

  /** The capacity of a new block; the multiplication and addition wrap. */
  function NewCapacity(l: Layout, n: nat): nat {
    Wrap(2 * l.capacity + n)
  }

  /** ensureCapacity and grow. */
  function MakeRoom(form: Form, l: Layout, n: nat): Layout
    requires WellFormed(l)
  {
    if n <= l.capacity - l.write then l
    else Layout(if Reallocates(form, l, n) then NewCapacity(l, n) else l.capacity, 0, Readable(l))
  }

  /** With room in the tail nothing moves.  Otherwise what is readable goes to the front, of a new block of
      twice the old capacity plus the request if the guard says so, of the old one if not. */
  lemma MakeRoomExactly(form: Form, l: Layout, n: nat)
    requires WellFormed(l)
    ensures n <= l.capacity - l.write ==> MakeRoom(form, l, n) == l
    ensures n > l.capacity - l.write ==>
      var r, kept := MakeRoom(form, l, n), l.write - l.read;
      var guard := if form == AsWritten then l.capacity + kept else l.capacity - kept;
      r.read == 0 && r.write == kept && r.capacity == if guard % U32 < n then (2 * l.capacity + n) % U32 else l.capacity
  {
    assert l.write + l.capacity - l.read == l.capacity + (l.write - l.read);
    assert l.read + l.capacity - l.write == l.capacity - (l.write - l.read);
  }

  function AfterAppend(form: Form, l: Layout, n: nat): Layout
    requires WellFormed(l)
  {
    var r := MakeRoom(form, l, n);
    r.(write := r.write + n)
  }

  /** The copies of an append stay inside the block. */
  predicate RoomFor(form: Form, l: Layout, n: nat)
    requires WellFormed(l)
  {
    AfterAppend(form, l, n).write <= AfterAppend(form, l, n).capacity
  }

  /** The same for appends of these sizes, one after the other. */
  predicate RoomForAll(form: Form, l: Layout, sizes: seq<nat>)
    requires WellFormed(l)
    decreases |sizes|
  {
    sizes == [] || (RoomFor(form, l, sizes[0]) && RoomForAll(form, AfterAppend(form, l, sizes[0]), sizes[1..]))
  }

  // ---------------------------------------------------------------- exact guard analysis

  /** The arithmetic of the guard: `g` is its left-hand side, `q` and `r` the block size unwrapped. */
  lemma GuardCases(c: nat, kept: nat, free: nat, n: nat, g: nat, q: nat, r: nat)
    requires kept + free <= c < U32 && 2 * c + n == U32 * q + r && r < U32 && n < U32
    ensures (n <= free || if g < n then kept + n <= r else kept + n <= c) <==>
            (n <= free || (n <= g && n <= c - kept) || (n > g && U32 * q + kept <= 2 * c))
  {
  }

  lemma GuardClosedCases(c: nat, kept: nat, free: nat, n: nat, q: nat, r: nat)
    requires kept + free <= c && 2 * c < U32 && 2 * c + n == U32 * q + r && r < U32 && n < U32
    ensures (n <= free || if c + kept < n then kept + n <= r else kept + n <= c) <==>
            (n <= c - kept || (n > c + kept && 2 * c + n < U32))
  {
  }

  lemma RoomForAsWritten(l: Layout, n: nat)
    requires WellFormed(l)
    ensures RoomFor(AsWritten, l, n) <==>
      (n <= l.capacity - l.write
       || if Wrap(l.capacity + Readable(l)) < n then Readable(l) + n <= Wrap(2 * l.capacity + n)
          else Readable(l) + n <= l.capacity)
  {
    hide Wrap;
    assert l.write + l.capacity - l.read == l.capacity + Readable(l);
  }

  lemma LayoutFacts(l: Layout)
    requires WellFormed(l)
    ensures 0 <= Readable(l) <= l.write <= l.capacity < U32
  {
  }

  lemma GuardAnyState(l: Layout, n: nat)
    requires WellFormed(l) && n < U32
    ensures RoomFor(AsWritten, l, n) <==>
      (n <= l.capacity - l.write
       || (n <= Wrap(l.capacity + Readable(l)) && n <= l.capacity - Readable(l))
       || (n > Wrap(l.capacity + Readable(l))
           && U32 * Carry(2 * l.capacity + n) + Readable(l) <= 2 * l.capacity))
  {
    LayoutFacts(l);
    hide *;
    var c, kept := l.capacity, Readable(l);
    RoomForAsWritten(l, n);
    Wrapped(2 * c + n);
    GuardCases(c, kept, c - l.write, n, Wrap(c + kept), Carry(2 * c + n), Wrap(2 * c + n));
  }

  lemma GuardSmallBlock(l: Layout, n: nat)
    requires WellFormed(l) && n < U32 && 2 * l.capacity < U32
    ensures RoomFor(AsWritten, l, n) <==>
      (n <= l.capacity - Readable(l) || (n > l.capacity + Readable(l) && 2 * l.capacity + n < U32))
  {
    LayoutFacts(l);
    hide *;
    var c, kept := l.capacity, Readable(l);
    RoomForAsWritten(l, n);
    Wrapped(2 * c + n);
    NotWrapped(c + kept);
    GuardClosedCases(c, kept, c - l.write, n, Carry(2 * c + n), Wrap(2 * c + n));
  }

  /** When the append is in bounds under the guard as written: for every 32-bit state, and in closed
      form for blocks of less than 2 GiB, where the guard itself cannot wrap. */
  lemma GuardAsWritten(l: Layout, n: nat)
    requires WellFormed(l) && n < U32
    ensures RoomFor(AsWritten, l, n) <==>
      (n <= l.capacity - l.write
       || (n <= Wrap(l.capacity + Readable(l)) && n <= l.capacity - Readable(l))
       || (n > Wrap(l.capacity + Readable(l))
           && U32 * Carry(2 * l.capacity + n) + Readable(l) <= 2 * l.capacity))
    ensures 2 * l.capacity < U32 ==>
      (RoomFor(AsWritten, l, n) <==>
       (n <= l.capacity - Readable(l) || (n > l.capacity + Readable(l) && 2 * l.capacity + n < U32)))
  {
    hide *;
    GuardAnyState(l, n);
    if 2 * l.capacity < U32 {
      GuardSmallBlock(l, n);
    }
  }

  lemma RoomForIntended(l: Layout, n: nat)
    requires WellFormed(l)
    ensures RoomFor(Intended, l, n) <==>
      (n <= l.capacity - l.write
       || if l.capacity - Readable(l) < n then Readable(l) + n <= Wrap(2 * l.capacity + n)
          else Readable(l) + n <= l.capacity)
  {
    hide Wrap;
    assert l.read + l.capacity - l.write == l.capacity - Readable(l);
    NotWrapped(l.capacity - Readable(l));
  }

  /** The arithmetic of the guard put right; `q` and `r` as above. */
  lemma IntendedCases(c: nat, kept: nat, free: nat, n: nat, q: nat, r: nat)
    requires kept + free <= c < U32 && 2 * c + n == U32 * q + r && r < U32 && n < U32
    ensures (n <= free || if c - kept < n then kept + n <= r else kept + n <= c) <==>
            (n <= c - kept || U32 * q + kept <= 2 * c)
    ensures 2 * c < U32 ==>
      ((n <= free || if c - kept < n then kept + n <= r else kept + n <= c) <==>
       (n <= c - kept || 2 * c + n < U32))
  {
  }

  /** With the guard put right the only append that fails is one whose new block does not fit 32 bits:
      again for every 32-bit state, and in closed form for blocks of less than 2 GiB. */
  lemma GuardIntended(l: Layout, n: nat)
    requires WellFormed(l) && n < U32
    ensures RoomFor(Intended, l, n) <==>
      (n <= l.capacity - Readable(l) || U32 * Carry(2 * l.capacity + n) + Readable(l) <= 2 * l.capacity)
    ensures 2 * l.capacity < U32 ==>
      (RoomFor(Intended, l, n) <==> (n <= l.capacity - Readable(l) || 2 * l.capacity + n < U32))
  {
    LayoutFacts(l);
    hide *;
    var c, kept := l.capacity, Readable(l);
    RoomForIntended(l, n);
    Wrapped(2 * c + n);
    IntendedCases(c, kept, c - l.write, n, Carry(2 * c + n), Wrap(2 * c + n));
  }

  /** Where the two guards part.  Up to 2 GiB: exactly when the bytes fit no longer but do not exceed
      the old capacity by more than what is buffered, and the intended block would fit 32 bits.  Beyond,
      the guard as written wraps, and then also where it asks for a new block that compaction would
      have spared and that does not fit. */
  lemma GuardsDiffer(l: Layout, n: nat)
    requires WellFormed(l) && n < U32
    ensures RoomFor(AsWritten, l, n) ==> RoomFor(Intended, l, n)
    ensures var fits := U32 * Carry(2 * l.capacity + n) + Readable(l) <= 2 * l.capacity;
            (RoomFor(Intended, l, n) && !RoomFor(AsWritten, l, n)) <==>
      (if n <= l.capacity - Readable(l)
       then n > l.capacity - l.write && n > Wrap(l.capacity + Readable(l)) && !fits
       else n <= Wrap(l.capacity + Readable(l)) && fits)
    ensures 2 * l.capacity < U32 ==>
      ((RoomFor(Intended, l, n) && !RoomFor(AsWritten, l, n)) <==>
       (l.capacity - Readable(l) < n <= l.capacity + Readable(l) && 2 * l.capacity + n < U32))
  {
    hide RoomFor, Wrap, Carry;
    GuardAsWritten(l, n);
    GuardIntended(l, n);
    LayoutFacts(l);
  }

  // ---------------------------------------------------------------- whole runs

  /** Put appends, Take is any read or a Forward inside the contents, Reset a Clear or a Forward to the end. */
  datatype Op = Put(n: nat) | Take(k: nat) | Reset

  /** A layout with the largest readable length seen and the bytes copied into new blocks so far. */
  datatype Ledger = Ledger(layout: Layout, peak: nat, copied: nat)

  /** The append allocates a new block. */
  predicate Moves(form: Form, l: Layout, n: nat)
    requires WellFormed(l)
  {
    n > l.capacity - l.write && Reallocates(form, l, n)
  }

  /** Every append is in bounds, and nothing is read that is not there. */
  predicate Admissible(form: Form, g: Ledger, op: Op) {
    && WellFormed(g.layout)
    && match op
       case Put(n) => RoomFor(form, g.layout, n)
       case Take(n) => n <= Readable(g.layout)
       case Reset => true
  }

  function Apply(form: Form, g: Ledger, op: Op): Ledger
    requires Admissible(form, g, op)
  {
    var l := g.layout;
    match op
    case Put(n) =>
      var l' := AfterAppend(form, l, n);
      Ledger(l', if Readable(l') > g.peak then Readable(l') else g.peak,
             if Moves(form, l, n) then g.copied + Readable(l) else g.copied)
    case Take(n) => g.(layout := l.(read := l.read + n))
    case Reset => g.(layout := l.(read := 0, write := 0))
  }

  predicate AdmissibleRun(form: Form, g: Ledger, ops: seq<Op>)
    decreases |ops|
  {
    ops == [] || (Admissible(form, g, ops[0]) && AdmissibleRun(form, Apply(form, g, ops[0]), ops[1..]))
  }

  function Run(form: Form, g: Ledger, ops: seq<Op>): Ledger
    requires AdmissibleRun(form, g, ops)
    decreases |ops|
  {
    if ops == [] then g else Run(form, Apply(form, g, ops[0]), ops[1..])
  }

  /** No new block has a size that wraps 32 bits. */
  predicate Unwrapped(form: Form, g: Ledger, op: Op)
    requires WellFormed(g.layout)
  {
    op.Put? && Moves(form, g.layout, op.n) ==> 2 * g.layout.capacity + op.n < U32
  }

  predicate UnwrappedRun(form: Form, g: Ledger, ops: seq<Op>)
    requires AdmissibleRun(form, g, ops)
    decreases |ops|
  {
    ops == [] || (Unwrapped(form, g, ops[0]) && UnwrappedRun(form, Apply(form, g, ops[0]), ops[1..]))
  }

  predicate CapacityBounded(initial: nat, g: Ledger) {
    && WellFormed(g.layout) && Readable(g.layout) <= g.peak
    && (g.layout.capacity <= initial || g.layout.capacity <= 3 * g.peak)
  }

  predicate CopiesBounded(g: Ledger) {
    WellFormed(g.layout) && g.copied <= g.layout.capacity
  }

  lemma NoWrap(form: Form, l: Layout, n: nat)
    requires WellFormed(l) && 2 * l.capacity + n < U32
    ensures NewCapacity(l, n) == 2 * l.capacity + n
    ensures Reallocates(form, l, n) ==> n > l.capacity - Readable(l)
  {
    hide Wrap;
    NotWrapped(2 * l.capacity + n);
    NotWrapped(l.capacity + Readable(l));
    NotWrapped(l.capacity - Readable(l));
    assert l.write + l.capacity - l.read == l.capacity + Readable(l);
    assert l.read + l.capacity - l.write == l.capacity - Readable(l);
  }

  /** The guard put right allocates only for what compaction would not fit, wrap or no wrap. */
  lemma IntendedMoves(l: Layout, n: nat)
    requires WellFormed(l)
    ensures NewCapacity(l, n) <= 2 * l.capacity + n && NewCapacity(l, n) < U32
    ensures Reallocates(Intended, l, n) ==> n > l.capacity - Readable(l)
  {
    hide Wrap;
    Wrapped(2 * l.capacity + n);
    NotWrapped(l.capacity - Readable(l));
    assert l.read + l.capacity - l.write == l.capacity - Readable(l);
  }

  lemma StepCapacity(form: Form, initial: nat, g: Ledger, op: Op)
    requires CapacityBounded(initial, g) && Admissible(form, g, op) && (form == Intended || Unwrapped(form, g, op))
    ensures CapacityBounded(initial, Apply(form, g, op))
  {
    hide Wrap;
    if op.Put? && Moves(form, g.layout, op.n) {
      if form == Intended {
        IntendedMoves(g.layout, op.n);
      } else {
        NoWrap(form, g.layout, op.n);
      }
    }
  }

  lemma StepCopies(form: Form, g: Ledger, op: Op)
    requires CopiesBounded(g) && Admissible(form, g, op) && Unwrapped(form, g, op)
    ensures CopiesBounded(Apply(form, g, op))
  {
    hide Wrap;
    if op.Put? && Moves(form, g.layout, op.n) {
      NoWrap(form, g.layout, op.n);
    }
  }

  lemma {:induction false} RunBounded(form: Form, initial: nat, g: Ledger, ops: seq<Op>)
    requires AdmissibleRun(form, g, ops)
    ensures CapacityBounded(initial, g) && (form == Intended || UnwrappedRun(form, g, ops)) ==>
      CapacityBounded(initial, Run(form, g, ops))
    ensures CopiesBounded(g) && UnwrappedRun(form, g, ops) ==> CopiesBounded(Run(form, g, ops))
    decreases |ops|
  {
    hide CapacityBounded, CopiesBounded, Apply, RoomFor, Moves;
    if ops != [] {
      if CapacityBounded(initial, g) && (form == Intended || Unwrapped(form, g, ops[0])) {
        StepCapacity(form, initial, g, ops[0]);
      }
      if CopiesBounded(g) && Unwrapped(form, g, ops[0]) {
        StepCopies(form, g, ops[0]);
      }
      RunBounded(form, initial, Apply(form, g, ops[0]), ops[1..]);
    }
  }

  function Fresh(initial: nat): Ledger {
    Ledger(Layout(initial, 0, 0), 0, 0)
  }

  /** As long as every append is in bounds.  The block never outgrows three times the largest amount ever
      buffered, with the guard put right always, as written if no new block wraps; and if none does,
      reallocation copies no more bytes than the final block holds. */
  lemma CapacityAndCopies(form: Form, initial: nat, ops: seq<Op>)
    requires initial < U32 && AdmissibleRun(form, Fresh(initial), ops)
    ensures var g := Run(form, Fresh(initial), ops);
            && (form == Intended || UnwrappedRun(form, Fresh(initial), ops) ==>
                g.layout.capacity <= initial || g.layout.capacity <= 3 * g.peak)
            && (UnwrappedRun(form, Fresh(initial), ops) ==> g.copied <= g.layout.capacity)
  {
    RunBounded(form, initial, Fresh(initial), ops);
  }

  // ---------------------------------------------------------------- blocks of gigabytes

  lemma RunStep(form: Form, g: Ledger, op: Op, g': Ledger, rest: seq<Op>, end: Ledger)
    requires Admissible(form, g, op) && Apply(form, g, op) == g'
    requires AdmissibleRun(form, g', rest) && Run(form, g', rest) == end
    ensures AdmissibleRun(form, g, [op] + rest) && Run(form, g, [op] + rest) == end
  {
    assert ([op] + rest)[1..] == rest;
  }

  const V: nat := 0x1000_0000

  /** With the guard put right, once a block wraps: more bytes copied than the block holds. */
  lemma CopiesAfterWrap() returns (ops: seq<Op>, g: Ledger)
    ensures AdmissibleRun(Intended, Fresh(10 * V), ops) && Run(Intended, Fresh(10 * V), ops) == g
    ensures g.copied > g.layout.capacity
  {
    var g1 := Ledger(Layout(10 * V, 0, 10 * V), 10 * V, 0);
    var g2 := g1.(layout := Layout(10 * V, 6 * V, 10 * V));
    var g3 := Ledger(Layout(11 * V, 0, 11 * V), 11 * V, 4 * V);
    var g4 := g3.(layout := Layout(11 * V, 5 * V, 11 * V));
    var g5 := Ledger(Layout(12 * V, 0, 12 * V), 12 * V, 10 * V);
    var g6 := g5.(layout := Layout(12 * V, 4 * V, 12 * V));
    g := Ledger(Layout(13 * V, 0, 13 * V), 13 * V, 18 * V);
    RunStep(Intended, g6, Put(5 * V), g, [], g);
    ops := [Put(5 * V)] + [];
    RunStep(Intended, g5, Op.Take(4 * V), g6, ops, g);
    ops := [Op.Take(4 * V)] + ops;
    RunStep(Intended, g4, Put(6 * V), g5, ops, g);
    ops := [Put(6 * V)] + ops;
    RunStep(Intended, g3, Op.Take(5 * V), g4, ops, g);
    ops := [Op.Take(5 * V)] + ops;
    RunStep(Intended, g2, Put(7 * V), g3, ops, g);
    ops := [Put(7 * V)] + ops;
    RunStep(Intended, g1, Op.Take(6 * V), g2, ops, g);
    ops := [Op.Take(6 * V)] + ops;
    RunStep(Intended, Fresh(10 * V), Put(10 * V), g1, ops, g);
    ops := [Put(10 * V)] + ops;
  }

  const W: nat := 0x800_0000

  /** As written, when the guard wraps and then the block: a block larger than it was to begin with and than
      three times the peak. */
  lemma CapacityAfterWrap() returns (ops: seq<Op>, g: Ledger)
    ensures AdmissibleRun(AsWritten, Fresh(30 * W), ops) && Run(AsWritten, Fresh(30 * W), ops) == g
    ensures g.layout.capacity > 30 * W && g.layout.capacity > 3 * g.peak
  {
    var c := 30 * W;
    var g1 := Ledger(Layout(c, 0, 9 * W), 9 * W, 0);
    var g2 := g1.(layout := Layout(c, 9 * W, 9 * W));
    var g3 := g1.(layout := Layout(c, 9 * W, 18 * W));
    var g4 := g1.(layout := Layout(c, 18 * W, 18 * W));
    var g5 := g1.(layout := Layout(c, 18 * W, 27 * W));
    var g6 := g1.(layout := Layout(c, 27 * W, 27 * W));
    var g7 := g1.(layout := Layout(c, 27 * W, 30 * W));
    g := Ledger(Layout(31 * W, 0, 6 * W), 9 * W, 3 * W);
    RunStep(AsWritten, g7, Put(3 * W), g, [], g);
    ops := [Put(3 * W)] + [];
    RunStep(AsWritten, g6, Put(3 * W), g7, ops, g);
    ops := [Put(3 * W)] + ops;
    RunStep(AsWritten, g5, Op.Take(9 * W), g6, ops, g);
    ops := [Op.Take(9 * W)] + ops;
    RunStep(AsWritten, g4, Put(9 * W), g5, ops, g);
    ops := [Put(9 * W)] + ops;
    RunStep(AsWritten, g3, Op.Take(9 * W), g4, ops, g);
    ops := [Op.Take(9 * W)] + ops;
    RunStep(AsWritten, g2, Put(9 * W), g3, ops, g);
    ops := [Put(9 * W)] + ops;
    RunStep(AsWritten, g1, Op.Take(9 * W), g2, ops, g);
    ops := [Op.Take(9 * W)] + ops;
    RunStep(AsWritten, Fresh(c), Put(9 * W), g1, ops, g);
    ops := [Put(9 * W)] + ops;
  }
}
