/** Serial ids: the digits of the local time to the second, followed by a counter. */
module SerialIds {
  /** The decimal reading of a second of local time. */
  type Digits = int -> int

  /** The counter the generator reaches at call `i`, one `time` reading per call: it starts over
      whenever the reading changes. */
  function Counter(times: seq<int>, i: nat): (n: nat)
    requires i < |times|
    ensures 1 <= n <= i + 1
  {
    if i == 0 || times[i] != times[i - 1] then 1 else Counter(times, i - 1) + 1
  }

  function Id(digits: Digits, times: seq<int>, i: nat): int
    requires i < |times|
  {
    digits(times[i]) * 1000 + Counter(times, i)
  }

  class Generator {
    const digits: Digits
    var currentTime: int
    var serial: nat
    ghost var times: seq<int>
    ghost var ids: seq<int>

    /** `times` are the readings and `ids` the ids so far. */
    ghost predicate Valid()
      reads this
    {
      && |ids| == |times| && (forall i :: 0 <= i < |ids| ==> ids[i] == Id(digits, times, i))
      && if times == [] then serial == 0
         else currentTime == times[|times| - 1] && serial == Counter(times, |times| - 1)
    }

    constructor (digits: Digits, now: int)
      ensures Valid() && times == [] && ids == [] && this.digits == digits
    {
      this.digits := digits;
      currentTime, serial, times, ids := now, 0, [], [];
    }

    /** GenerateSerialID, with the reading of the clock.  The first id of a reading is a thousand times its
        digits and one; each further one is the next number. */
    method Generate(now: int) returns (id: int)
      requires Valid()
      modifies this
      ensures Valid() && times == old(times) + [now] && ids == old(ids) + [id]
      ensures old(times) == [] || old(times)[|old(times)| - 1] != now ==> id == 1000 * digits(now) + 1
      ensures old(times) != [] && old(times)[|old(times)| - 1] == now ==> id == old(ids)[|old(ids)| - 1] + 1
      ensures id == Id(digits, times, |times| - 1)
    {
      if now != currentTime {
        currentTime := now;
        serial := 0;
      }
      serial := serial + 1;
      CounterPrefix(times, [now]);
      times := times + [now];
      id := digits(currentTime) * 1000 + serial;
      ids := ids + [id];
    }
  }

  lemma {:induction false} CounterPrefixAt(a: seq<int>, b: seq<int>, i: nat)
    requires i < |a|
    ensures Counter(a + b, i) == Counter(a, i)
  {
    if i > 0 {
      CounterPrefixAt(a, b, i - 1);
    }
  }

  lemma CounterPrefix(a: seq<int>, b: seq<int>)
    ensures forall i :: 0 <= i < |a| ==> Counter(a + b, i) == Counter(a, i)
  {
    forall i | 0 <= i < |a| ensures Counter(a + b, i) == Counter(a, i) {
      CounterPrefixAt(a, b, i);
    }
  }

  predicate Increasing(digits: Digits, times: seq<int>) {
    forall i, j :: 0 <= i < j < |times| ==> Id(digits, times, i) < Id(digits, times, j)
  }

  /** At every change of second the counter fits the gap between the two readings. */
  predicate CountersFit(digits: Digits, times: seq<int>) {
    forall i :: 0 <= i < |times| - 1 && times[i] != times[i + 1] ==>
      Counter(times, i) <= 1000 * (digits(times[i + 1]) - digits(times[i]))
  }

  lemma NeighbourStep(digits: Digits, times: seq<int>, i: nat)
    requires i + 1 < |times|
    ensures Id(digits, times, i) < Id(digits, times, i + 1) <==>
      (times[i] == times[i + 1] || Counter(times, i) <= 1000 * (digits(times[i + 1]) - digits(times[i])))
  {
  }

  lemma {:induction false} FitMeansIncreasing(digits: Digits, times: seq<int>, i: nat, j: nat)
    requires CountersFit(digits, times) && i < j < |times|
    ensures Id(digits, times, i) < Id(digits, times, j)
    decreases j - i
  {
    NeighbourStep(digits, times, j - 1);
    if i < j - 1 {
      FitMeansIncreasing(digits, times, i, j - 1);
    }
  }

  /** For every sequence of clock readings, backward jumps included: the ids increase strictly exactly
      when at each change of reading the calls made before it fit the gap. */
  lemma IncreasingExactly(digits: Digits, times: seq<int>)
    ensures Increasing(digits, times) <==> CountersFit(digits, times)
  {
    if Increasing(digits, times) {
      forall i | 0 <= i < |times| - 1 && times[i] != times[i + 1]
        ensures Counter(times, i) <= 1000 * (digits(times[i + 1]) - digits(times[i]))
      {
        assert Id(digits, times, i) < Id(digits, times, i + 1);
        NeighbourStep(digits, times, i);
      }
    }
    if CountersFit(digits, times) {
      forall i, j | 0 <= i < j < |times| ensures Id(digits, times, i) < Id(digits, times, j) {
        FitMeansIncreasing(digits, times, i, j);
      }
    }
  }

  /** A clock that does not go back, digits that grow with it, and at most 1000 calls per reading. */
  lemma ThousandPerSecond(digits: Digits, times: seq<int>)
    requires forall a, b :: a < b ==> digits(a) < digits(b)
    requires forall i, j :: 0 <= i < j < |times| ==> times[i] <= times[j]
    requires forall i :: 0 <= i < |times| ==> Counter(times, i) <= 1000
    ensures Increasing(digits, times)
  {
    IncreasingExactly(digits, times);
  }

  lemma {:induction false} CounterInRun(times: seq<int>, i: nat, t: int)
    requires i < |times| && forall k :: 0 <= k <= i ==> times[k] == t
    ensures Counter(times, i) == i + 1
  {
    if i > 0 {
      CounterInRun(times, i - 1, t);
    }
  }

  /** The bound is tight: the 1001st id of a second is the first of the next when the digits are
      consecutive. */
  lemma ThousandAndOneCollides(digits: Digits, t: int)
    requires digits(t + 1) == digits(t) + 1
    ensures var times := seq(1001, i => t) + [t + 1];
            Id(digits, times, 1000) == Id(digits, times, 1001)
  {
    var times := seq(1001, i => t) + [t + 1];
    CounterInRun(times, 1000, t);
  }
}
