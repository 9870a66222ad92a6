/** The event loop as an object: each of its actions makes one step of Wakeup, and a drain is run
    with functors that queue functors of their own. */
module EventLoop {
  import opened Wakeup

  class EventLoop<F> {
    const spawned: F -> seq<F>  // what a functor queues when it is run
    var quit: bool
    var callingPendingFunctors: bool
    var wakeupCounter: nat      // of the eventfd
    var pendingFunctors: seq<F>
    var functors: seq<F>        // the local vector of doPendingFunctors
    ghost var phase: Phase
    ghost var own: OwnQueueing
    ghost var owing: set<nat>
    ghost var early: bool
    ghost var queued: seq<F>
    ghost var executed: seq<F>

    ghost function Value(): State<F>
      reads this
    {
      State(phase, quit, callingPendingFunctors, own, wakeupCounter, pendingFunctors, functors, owing, early, queued, executed)
    }

    constructor (spawned: F -> seq<F>)
      ensures Value() == Init() && Inv(Value()) && this.spawned == spawned
    {
      this.spawned := spawned;
      quit, callingPendingFunctors, wakeupCounter, pendingFunctors, functors := false, false, 0, [], [];
      phase, own, owing, early, queued, executed := Idle, Nothing, {}, false, [], [];
    }

    /** The write to the eventfd. */
    method Wakeup()
      modifies `wakeupCounter
      ensures wakeupCounter == Woken(old(wakeupCounter))
    {
      if wakeupCounter < COUNTER_MAX {
        wakeupCounter := wakeupCounter + 1;
      }
    }

    /** queueInLoop, called in another thread. */
    method QueueInLoop(f: F, ghost thread: nat)
      requires Inv(Value()) && thread !in owing
      modifies `pendingFunctors, `wakeupCounter, `queued
      ensures Inv(Value())
      ensures Value() == Step(Step(old(Value()), Push(thread, f)), Wake(thread))
      ensures Announced(Value())
    {
      StepKeepsInv(Value(), Push(thread, f));
      StepKeepsInv(Step(Value(), Push(thread, f)), Wake(thread));
      assert owing + {thread} - {thread} == owing;
      pendingFunctors, queued := pendingFunctors + [f], queued + [f];
      Wakeup();
    }

    /** queueInLoop, called in the loop's own thread: before loop(), by a callback or by a functor. */
    method QueueFromLoop(f: F)
      requires Inv(Value()) && OwnThreadMayQueue(Value())
      modifies `pendingFunctors, `wakeupCounter, `early, `queued
      ensures Inv(Value())
      ensures callingPendingFunctors ==> Value() == Step(Step(Step(old(Value()), OwnPush(f)), OwnCheck), OwnWake)
      ensures !callingPendingFunctors ==> Value() == Step(Step(old(Value()), OwnPush(f)), OwnCheck)
      ensures pendingFunctors == old(pendingFunctors) + [f] && wakeupCounter >= old(wakeupCounter)
      ensures callingPendingFunctors ==> wakeupCounter > 0
    {
      hide Inv, Step;
      OwnQueueingIs(Value(), f);
      pendingFunctors, queued, early := pendingFunctors + [f], queued + [f], early || phase == Idle;
      if callingPendingFunctors {
        Wakeup();
      }
    }

    /** The callback of the eventfd's channel: one read empties the counter. */
    method HandleRead()
      requires Inv(Value()) && Enabled(Value(), Action.HandleRead)
      modifies `wakeupCounter, `phase
      ensures Inv(Value()) && Value() == Step(old(Value()), Action.HandleRead)
      ensures wakeupCounter == 0
    {
      StepKeepsInv(Value(), Action.HandleRead);
      wakeupCounter, phase := 0, Dispatching(false);
    }

    /** The first lines of `loop`. */
    method EnterLoop()
      requires Inv(Value()) && Enabled(Value(), Start)
      modifies `quit, `phase
      ensures Inv(Value()) && Value() == Step(old(Value()), Start)
      ensures !quit && phase == Testing
    {
      StepKeepsInv(Value(), Start);
      quit, phase := false, Testing;
    }

    /** The test of `loop`: whether it goes round again. */
    method TestQuit() returns (again: bool)
      requires Inv(Value()) && Enabled(Value(), Test)
      modifies `phase
      ensures Inv(Value()) && Value() == Step(old(Value()), Test)
      ensures again == !quit && phase == if again then Polling else Stopped
    {
      StepKeepsInv(Value(), Test);
      again := !quit;
      phase := if again then Polling else Stopped;
    }

    /** `quit`, which wakes the loop if another thread calls it. */
    method Quit(inLoopThread: bool)
      requires Inv(Value())
      modifies `quit, `wakeupCounter
      ensures Inv(Value()) && quit && (!inLoopThread ==> wakeupCounter > 0)
      ensures Value() == if inLoopThread then Step(old(Value()), Action.Quit) else Step(Step(old(Value()), Action.Quit), OtherWake)
    {
      StepKeepsInv(Value(), Action.Quit);
      StepKeepsInv(Step(Value(), Action.Quit), OtherWake);
      quit := true;
      if !inLoopThread {
        Wakeup();
      }
    }

    /** One functor: what it queues goes behind the queue, and wakes the loop for the next round. */
    method RunFunctor(f: F)
      requires Inv(Value()) && own == Nothing && phase == Running && callingPendingFunctors
      modifies `pendingFunctors, `wakeupCounter, `early, `queued
      ensures Inv(Value())
      ensures pendingFunctors == old(pendingFunctors) + spawned(f)
      ensures spawned(f) != [] ==> wakeupCounter > 0
      ensures wakeupCounter >= old(wakeupCounter)
    {
      hide Inv, Step;
      var queue := spawned(f);
      var i := 0;
      while i < |queue|
        invariant 0 <= i <= |queue| && Inv(Value())
        invariant pendingFunctors == old(pendingFunctors) + queue[..i]
        invariant i > 0 ==> wakeupCounter > 0
        invariant wakeupCounter >= old(wakeupCounter)
      {
        assert queue[..i + 1] == queue[..i] + [queue[i]];
        QueueFromLoop(queue[i]);
        i := i + 1;
      }
      assert queue[..i] == queue;
    }

    /** The queue is taken, under the lock. */
    method TakeFunctors()
      requires Inv(Value()) && Enabled(Value(), BeginDrain)
      modifies `callingPendingFunctors, `functors, `pendingFunctors, `early, `phase
      ensures Inv(Value()) && Value() == Step(Step(old(Value()), BeginDrain), Swap)
      ensures phase == Running && own == Nothing && callingPendingFunctors
      ensures functors == old(pendingFunctors) && pendingFunctors == []
    {
      hide Inv, Step;
      TakingIs(Value());
      callingPendingFunctors := true;
      functors, pendingFunctors, early, phase := pendingFunctors, [], false, Running;
    }

    /** One round of the loop over the functors taken. */
    method RunNext()
      requires Inv(Value()) && Enabled(Value(), RunOne) && callingPendingFunctors
      modifies `functors, `executed, `pendingFunctors, `wakeupCounter, `early, `queued
      ensures Inv(Value()) && functors == old(functors)[1..] && executed == old(executed) + [old(functors)[0]]
      ensures executed + functors == old(executed + functors)
      ensures pendingFunctors == old(pendingFunctors) + spawned(old(functors)[0])
      ensures spawned(old(functors)[0]) != [] ==> wakeupCounter > 0
      ensures wakeupCounter >= old(wakeupCounter)
    {
      hide Inv;
      StepKeepsInv(Value(), RunOne);
      var f := functors[0];
      functors, executed := functors[1..], executed + [f];
      RunFunctor(f);
      assert old(functors) == [f] + functors;
    }

    method EndDrain()
      requires Inv(Value()) && Enabled(Value(), Action.EndDrain)
      modifies `callingPendingFunctors, `phase
      ensures Inv(Value()) && Value() == Step(old(Value()), Action.EndDrain) && phase == Testing
    {
      StepKeepsInv(Value(), Action.EndDrain);
      callingPendingFunctors, phase := false, Testing;
    }

    /** All functors that were waiting run, in their order; those they queue wait, and the loop is
        woken for them. */
    method DoPendingFunctors()
      requires Inv(Value()) && Enabled(Value(), BeginDrain)
      modifies `callingPendingFunctors, `functors, `executed, `pendingFunctors, `wakeupCounter, `early, `queued, `phase
      ensures Inv(Value()) && phase == Testing && functors == []
      ensures executed == old(executed) + old(pendingFunctors)
      ensures pendingFunctors == SpawnedBy(spawned, old(pendingFunctors))
      ensures pendingFunctors != [] ==> wakeupCounter > 0
    {
      hide Inv, Step, SpawnedBy;
      ghost var waiting := pendingFunctors;
      TakeFunctors();
      assert [] + SpawnedBy(spawned, functors) == SpawnedBy(spawned, waiting);
      while functors != []
        invariant Inv(Value()) && phase == Running && own == Nothing && callingPendingFunctors
        invariant executed + functors == old(executed) + waiting
        invariant SpawnedBy(spawned, waiting) == pendingFunctors + SpawnedBy(spawned, functors)
        invariant pendingFunctors != [] ==> wakeupCounter > 0
        decreases |functors|
      {
        NextSpawned(spawned, functors, pendingFunctors);
        RunNext();
      }
      NoneSpawned(spawned);
      EndDrain();
    }
  }

  /** queueInLoop in the loop's own thread, its three steps together. */
  lemma OwnQueueingIs<F>(s: State<F>, f: F)
    requires Inv(s) && OwnThreadMayQueue(s)
    ensures var t := s.(pending := s.pending + [f], queued := s.queued + [f], early := s.early || s.phase == Idle);
      && Inv(if s.calling then t.(counter := Woken(s.counter)) else t)
      && if s.calling then Step(Step(Step(s, OwnPush(f)), OwnCheck), OwnWake) == t.(counter := Woken(s.counter))
         else Step(Step(s, OwnPush(f)), OwnCheck) == t
  {
    var pushed := Step(s, OwnPush(f));
    StepKeepsInv(s, OwnPush(f));
    StepKeepsInv(pushed, OwnCheck);
    if s.calling {
      StepKeepsInv(Step(pushed, OwnCheck), OwnWake);
    }
  }

  lemma TakingIs<F>(s: State<F>)
    requires Inv(s) && Enabled(s, BeginDrain)
    ensures var t := s.(phase := Running, calling := true, batch := s.pending, pending := [], early := false);
            Step(Step(s, BeginDrain), Swap) == t && Inv(t)
  {
    StepKeepsInv(s, BeginDrain);
    StepKeepsInv(Step(s, BeginDrain), Swap);
  }

  ghost function SpawnedBy<F>(spawned: F -> seq<F>, fs: seq<F>): seq<F> {
    if fs == [] then [] else spawned(fs[0]) + SpawnedBy(spawned, fs[1..])
  }

  lemma NextSpawned<F>(spawned: F -> seq<F>, fs: seq<F>, front: seq<F>)
    requires fs != []
    ensures front + SpawnedBy(spawned, fs) == (front + spawned(fs[0])) + SpawnedBy(spawned, fs[1..])
  {
  }

  lemma NoneSpawned<F>(spawned: F -> seq<F>)
    ensures SpawnedBy(spawned, []) == []
  {
  }
}
