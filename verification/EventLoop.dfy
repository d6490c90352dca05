/** The event loop object and its wake channel, as one thread sees them.
    LoopProtocol interleaves the same operations between threads. */
module EventLoops {
  import opened Tasks

  datatype LoopStatus = Initial | Running | Stopped

  lemma Reassociate(a: seq<Task>, b: seq<Task>, c: seq<Task>)
    ensures (a + b) + c == a + (b + c)
  {
  }

  class EventLoop {
    const room: nat
    var status: LoopStatus
    var pending: seq<Task>
    var bytes: nat
    var exitAsked: bool
    ghost var executed: seq<Task>
    /** What had been executed when the exit was asked for. */
    ghost var ranBeforeExit: seq<Task>

    constructor (room: nat)
      ensures this.room == room && status == Initial && pending == [] && bytes == 0
      ensures !exitAsked && executed == []
    {
      this.room := room;
      status, pending, bytes, exitAsked, executed := Initial, [], 0, false, [];
    }

    /** EventChannel::Notify: one byte, lost when the channel is full. */
    method Notify()
      modifies this`bytes
      ensures old(bytes) < room ==> bytes == old(bytes) + 1
      ensures old(bytes) >= room ==> bytes == old(bytes)
    {
      if bytes < room {
        bytes := bytes + 1;
      }
    }

    method AsyncCall(t: Task)
      modifies this`pending, this`bytes
      ensures pending == old(pending) + [t]
      ensures bytes == if old(bytes) < room then old(bytes) + 1 else old(bytes)
    {
      pending := pending + [t];
      Notify();
    }

    /** Running a functor: it queues its spawns one AsyncCall at a time. */
    method Call(t: Task)
      modifies this`pending, this`bytes, this`executed
      ensures executed == old(executed) + [t] && pending == old(pending) + t.spawns
      ensures bytes == Filled(room, old(bytes), |t.spawns|)
    {
      executed := executed + [t];
      for k := 0 to |t.spawns|
        invariant executed == old(executed) + [t] && pending == old(pending) + t.spawns[..k]
        invariant bytes == Filled(room, old(bytes), k)
      {
        AsyncCall(t.spawns[k]);
        assert t.spawns[..k + 1] == t.spawns[..k] + [t.spawns[k]];
      }
      assert t.spawns[..|t.spawns|] == t.spawns;
    }

    /** Swap the queue out, then run the batch: what the batch queues is left for the next pass. */
    method ProcessPendingFunctors()
      modifies this`pending, this`bytes, this`executed
      ensures executed == old(executed) + old(pending)
      ensures pending == Spawned(old(pending))
      ensures bytes == Filled(room, old(bytes), |Spawned(old(pending))|)
    {
      var functors := pending;
      pending := [];
      for k := 0 to |functors|
        invariant executed == old(executed) + functors[..k]
        invariant pending == Spawned(functors[..k])
        invariant bytes == Filled(room, old(bytes), |Spawned(functors[..k])|)
      {
        Call(functors[k]);
        assert functors[..k + 1] == functors[..k] + [functors[k]];
        SpawnedSnoc(functors[..k], functors[k]);
      }
      assert functors[..|functors|] == functors;
    }

    /** EventChannel::Update: empty the channel 64 bytes at a time, then process.  Whatever was in the
        channel before, there is one byte now for each functor queued meanwhile, as many as fit. */
    method Update()
      modifies this`pending, this`bytes, this`executed
      ensures executed == old(executed) + old(pending) && pending == Spawned(old(pending))
      ensures bytes == if |pending| < room then |pending| else room
    {
      while bytes > 0
        invariant pending == old(pending) && executed == old(executed)
        decreases bytes
      {
        bytes := bytes - if bytes < 64 then bytes else 64;
      }
      ProcessPendingFunctors();
    }

    /** One of the two drain loops of Stop. */
    method Drain()
      modifies this`pending, this`bytes, this`executed
      ensures pending == [] && executed == old(executed) + BatchOrder(old(pending))
    {
      while pending != []
        invariant executed + BatchOrder(pending) == old(executed) + BatchOrder(old(pending))
        decreases Sizes(pending)
      {
        ghost var before, batch := executed, pending;
        SizesSpawned(batch);
        ProcessPendingFunctors();
        Reassociate(before, batch, BatchOrder(pending));
      }
    }

    /** event_base_loopexit. */
    method AskToExit()
      modifies this`exitAsked, this`ranBeforeExit
      ensures exitAsked && ranBeforeExit == executed
    {
      exitAsked := true;
      ranBeforeExit := executed;
    }

    /** Stop runs every queued functor, and every functor those queue in turn, exactly once and in
        queue order, before it asks the loop to exit; a loop that is not running is left alone. */
    method Stop()
      modifies this
      ensures old(status) != Running ==>
        status == old(status) && pending == old(pending) && executed == old(executed)
        && bytes == old(bytes) && exitAsked == old(exitAsked)
      ensures old(status) == Running ==>
        status == Stopped && exitAsked && pending == []
        && executed == old(executed) + FifoOrder(old(pending)) && ranBeforeExit == executed
      ensures old(status) == Running ==>
        multiset(executed) == multiset(old(executed)) + Forest(old(pending))
    {
      if status == Running {
        status := Stopped;
        Drain();
        AskToExit();
        Drain();
        BatchSwapIsFifo(old(pending));
        FifoRunsEachNodeOnce(old(pending));
      }
    }
  }
}
