/** Functors queued on an event loop, abstracted to what the loop can observe of them. */
module Tasks {

  /** A functor is known by an id and by the functors it queues, in order, while it runs. */
  datatype Task = Task(id: nat, spawns: seq<Task>)

  /** A wake channel of capacity `room` after `n` more one-byte sends; a send on a full channel is dropped. */
  function Filled(room: nat, bytes: nat, n: nat): nat {
    if bytes + n <= room then bytes + n else if bytes <= room then room else bytes
  }

  /** Within its capacity the channel holds the smaller of what was sent and what fits, and it takes nothing
      once it is full; n sends are n times one. */
  lemma FilledExactly(room: nat, bytes: nat, n: nat)
    ensures bytes <= room ==> Filled(room, bytes, n) == if bytes + n < room then bytes + n else room
    ensures bytes >= room ==> Filled(room, bytes, n) == bytes
    ensures Filled(room, bytes, n + 1) == Filled(room, Filled(room, bytes, n), 1)
  {
  }

  /** The number of functors that running `t` brings about, `t` included. */
  function Size(t: Task): (n: nat)
    ensures n >= 1
    decreases t, 1
  {
    1 + Sizes(t.spawns)
  }

  function Sizes(ts: seq<Task>): (n: nat)
    ensures n >= |ts|
    decreases ts, 0
  {
    if ts == [] then 0 else Size(ts[0]) + Sizes(ts[1..])
  }

  lemma {:induction false} SizesConcat(a: seq<Task>, b: seq<Task>)
    ensures Sizes(a + b) == Sizes(a) + Sizes(b)
  {
    if a == [] {
      assert a + b == b;
    } else {
      assert (a + b)[1..] == a[1..] + b;
      SizesConcat(a[1..], b);
    }
  }

  /** Everything queued by one pass over a batch, in queueing order. */
  function Spawned(ts: seq<Task>): seq<Task> {
    if ts == [] then [] else ts[0].spawns + Spawned(ts[1..])
  }

  lemma {:induction false} SizesSpawned(ts: seq<Task>)
    ensures Sizes(ts) == |ts| + Sizes(Spawned(ts))
  {
    if ts != [] {
      SizesConcat(ts[0].spawns, Spawned(ts[1..]));
      SizesSpawned(ts[1..]);
    }
  }

  lemma {:induction false} SpawnedSnoc(ts: seq<Task>, t: Task)
    ensures Spawned(ts + [t]) == Spawned(ts) + t.spawns
  {
    if ts == [] {
      assert ts + [t] == [t];
    } else {
      assert (ts + [t])[1..] == ts[1..] + [t];
      SpawnedSnoc(ts[1..], t);
    }
  }

  /** Execution order when the whole queue is swapped out and run as a batch, again and again. */
  function BatchOrder(ts: seq<Task>): seq<Task>
    decreases Sizes(ts)
  {
    if ts == [] then [] else
      SizesSpawned(ts);
      ts + BatchOrder(Spawned(ts))
  }

  /** Execution order of a plain queue: pop one, append what it spawns. */
  function FifoOrder(ts: seq<Task>): seq<Task>
    decreases Sizes(ts)
  {
    if ts == [] then [] else
      SizesConcat(ts[1..], ts[0].spawns);
      assert Size(ts[0]) == 1 + Sizes(ts[0].spawns);
      [ts[0]] + FifoOrder(ts[1..] + ts[0].spawns)
  }

  lemma FifoPops(t: Task, rest: seq<Task>)
    ensures FifoOrder([t] + rest) == [t] + FifoOrder(rest + t.spawns)
  {
    assert ([t] + rest)[1..] == rest;
  }

  /** Popping the first |a| tasks one at a time leaves what was behind them, then their spawns. */
  lemma {:induction false} FifoPeels(a: seq<Task>, b: seq<Task>)
    ensures FifoOrder(a + b) == a + FifoOrder(b + Spawned(a))
    decreases |a|
  {
    hide FifoOrder;
    if a == [] {
      assert a + b == b && b + Spawned(a) == b;
    } else {
      var t, rest, c := a[0], a[1..], b + a[0].spawns;
      assert a + b == [t] + (rest + b) && rest + b + t.spawns == rest + c;
      FifoPops(t, rest + b);
      FifoPeels(rest, c);
      assert c + Spawned(rest) == b + Spawned(a);
      assert a == [t] + rest;
    }
  }

  /** Swapping out whole batches is indistinguishable, in execution order, from a one-at-a-time queue. */
  lemma {:induction false} BatchSwapIsFifo(ts: seq<Task>)
    ensures BatchOrder(ts) == FifoOrder(ts)
    decreases Sizes(ts)
  {
    if ts != [] {
      SizesSpawned(ts);
      FifoPeels(ts, []);
      assert ts + [] == ts && [] + Spawned(ts) == Spawned(ts);
      BatchSwapIsFifo(Spawned(ts));
    }
  }

  /** Reference notion of "every functor": the nodes of the spawn forest, depth first. */
  function Nodes(t: Task): multiset<Task>
    decreases t, 1
  {
    multiset{t} + Forest(t.spawns)
  }

  function Forest(ts: seq<Task>): multiset<Task>
    decreases ts, 0
  {
    if ts == [] then multiset{} else Nodes(ts[0]) + Forest(ts[1..])
  }

  lemma {:induction false} ForestConcat(a: seq<Task>, b: seq<Task>)
    ensures Forest(a + b) == Forest(a) + Forest(b)
  {
    if a == [] {
      assert a + b == b;
    } else {
      assert (a + b)[1..] == a[1..] + b;
      ForestConcat(a[1..], b);
    }
  }

  /** Draining a finite spawn forest runs each of its functors exactly once. */
  lemma {:induction false} FifoRunsEachNodeOnce(ts: seq<Task>)
    ensures multiset(FifoOrder(ts)) == Forest(ts)
    decreases Sizes(ts)
  {
    if ts != [] {
      SizesConcat(ts[1..], ts[0].spawns);
      assert Size(ts[0]) == 1 + Sizes(ts[0].spawns);
      assert Nodes(ts[0]) == multiset{ts[0]} + Forest(ts[0].spawns);
      FifoRunsEachNodeOnce(ts[1..] + ts[0].spawns);
      ForestConcat(ts[1..], ts[0].spawns);
    }
  }
}
