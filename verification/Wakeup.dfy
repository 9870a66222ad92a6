/** The functor queue of the event loop and its wakeup, as interleaved steps: the loop thread
    goes round poll, dispatch and drain, while any number of other threads queue functors.
    A step is one atomic action: a locked section, a read or write of the eventfd, a read or
    write of an atomic flag. */
module Wakeup {

  /** The largest value an eventfd holds. */
  const COUNTER_MAX: nat := 0xffff_ffff_ffff_fffe

  /** Where the loop thread is. */
  datatype Phase =
    | Idle                      // loop() not yet entered
    | Testing                   // about to test quit_
    | Polling                   // in poll
    | Dispatching(woken: bool)  // running channel callbacks; woken: handleRead is one of them
    | Swapping                  // callingPendingFunctors_ is set, the queue not yet taken
    | Running                   // running the functors taken
    | Stopped

  /** Where the loop thread is inside a queueInLoop of its own, if it is in one. */
  datatype OwnQueueing = Nothing | Unchecked | MustWake

  /** `early`, `queued` and `executed` are history variables. */
  datatype State<F> = State(
    phase: Phase, quit: bool, calling: bool, own: OwnQueueing,
    counter: nat, pending: seq<F>, batch: seq<F>,
    owing: set<nat>,  // other threads between their push and their wakeup
    early: bool,      // the queue holds functors that the loop's own thread queued before loop()
    queued: seq<F>, executed: seq<F>)

  ghost function Init<F>(): State<F> {
    State(Idle, false, false, Nothing, 0, [], [], {}, false, [], [])
  }

  datatype Action<F> =
    | Push(thread: nat, f: F)   // queueInLoop, its locked section, in another thread
    | Wake(thread: nat)         // ... and its wakeup
    | OtherWake                 // a wakeup of quit()
    | Quit                      // quit_ = true, in any thread
    | Start                     // loop() is entered
    | Test
    | PollReturns(woken: bool)
    | HandleRead
    | OwnPush(f: F)             // queueInLoop in the loop's own thread
    | OwnCheck                  // ... its test of callingPendingFunctors_
    | OwnWake                   // ... and its wakeup, if the test asks for one
    | BeginDrain
    | Swap
    | RunOne
    | EndDrain

  /** write of 1 to the eventfd: refused, and the counter kept, when it is full. */
  ghost function Woken(counter: nat): nat {
    if counter < COUNTER_MAX then counter + 1 else counter
  }

  /** The loop's own thread is before loop(), in a callback or in a functor. */
  ghost predicate OwnThreadMayQueue<F>(s: State<F>) {
    s.own == Nothing && (s.phase == Idle || s.phase.Dispatching? || s.phase == Running)
  }

  ghost predicate Enabled<F>(s: State<F>, a: Action<F>) {
    match a
    case Push(thread, f) => thread !in s.owing
    case Wake(thread) => thread in s.owing
    case OtherWake => true
    case Quit => true
    case Start => s.own == Nothing && s.phase == Idle
    case Test => s.phase == Testing
    case PollReturns(woken) => s.phase == Polling && (woken ==> s.counter > 0)
    case HandleRead => s.own == Nothing && s.phase == Dispatching(true)
    case OwnPush(f) => OwnThreadMayQueue(s)
    case OwnCheck => s.own == Unchecked
    case OwnWake => s.own == MustWake
    case BeginDrain => s.own == Nothing && s.phase == Dispatching(false)
    case Swap => s.phase == Swapping
    case RunOne => s.own == Nothing && s.phase == Running && s.batch != []
    case EndDrain => s.own == Nothing && s.phase == Running && s.batch == []
  }

  ghost function Step<F>(s: State<F>, a: Action<F>): State<F>
    requires Enabled(s, a)
  {
    match a
    case Push(thread, f) =>
      s.(pending := s.pending + [f], queued := s.queued + [f], owing := s.owing + {thread})
    case Wake(thread) => s.(counter := Woken(s.counter), owing := s.owing - {thread})
    case OtherWake => s.(counter := Woken(s.counter))
    case Quit => s.(quit := true)
    case Start => s.(phase := Testing, quit := false)
    case Test => s.(phase := if s.quit then Stopped else Polling)
    case PollReturns(woken) => s.(phase := Dispatching(woken))
    case HandleRead => s.(phase := Dispatching(false), counter := 0)
    case OwnPush(f) =>
      s.(pending := s.pending + [f], queued := s.queued + [f], own := Unchecked, early := s.early || s.phase == Idle)
    case OwnCheck => s.(own := if s.calling then MustWake else Nothing)
    case OwnWake => s.(own := Nothing, counter := Woken(s.counter))
    case BeginDrain => s.(phase := Swapping, calling := true)
    case Swap => s.(phase := Running, batch := s.pending, pending := [], early := false)
    case RunOne => s.(batch := s.batch[1..], executed := s.executed + [s.batch[0]])
    case EndDrain => s.(phase := Testing, calling := false)
  }

  ghost predicate IsRun<F>(states: seq<State<F>>, actions: seq<Action<F>>) {
    && |states| == |actions| + 1 && states[0] == Init()
    && forall i {:trigger actions[i]} :: 0 <= i < |actions| ==>
         Enabled(states[i], actions[i]) && states[i + 1] == Step(states[i], actions[i])
  }

  /** The queue will be noticed: the eventfd is readable, or somebody is about to make it so. */
  ghost predicate Announced<F>(s: State<F>) {
    s.counter > 0 || s.owing != {} || s.own != Nothing
  }

  /** The loop is on its way to the queue. */
  ghost predicate BeforeSwap<F>(s: State<F>) {
    s.phase.Dispatching? || s.phase == Swapping
  }

  ghost predicate Inv<F>(s: State<F>) {
    && (s.calling <==> s.phase == Swapping || s.phase == Running)
    && (s.own != Nothing ==> s.phase == Idle || s.phase.Dispatching? || s.phase == Running)
    && (s.own == MustWake ==> s.phase == Running)
    && (s.own != Nothing && s.phase == Idle ==> s.early)
    && (s.batch != [] ==> s.phase == Running)
    && s.queued == s.executed + s.batch + s.pending
    && (s.pending != [] && !BeforeSwap(s) ==> Announced(s) || s.early)
  }

  lemma StepKeepsInv<F>(s: State<F>, a: Action<F>)
    requires Inv(s) && Enabled(s, a)
    ensures Inv(Step(s, a))
  {
    match a {
      case Push(thread, f) => assert thread in Step(s, a).owing;
      case OwnPush(f) =>
      case RunOne => assert s.batch == [s.batch[0]] + s.batch[1..];
      case _ =>
    }
  }

  lemma {:induction false} RunKeepsInv<F>(states: seq<State<F>>, actions: seq<Action<F>>, i: nat)
    requires IsRun(states, actions) && i <= |actions|
    ensures Inv(states[i])
  {
    hide Step, Enabled;
    if i == 0 {
      InitInv<F>();
    } else {
      RunKeepsInv(states, actions, i - 1);
      var a := actions[i - 1];
      StepKeepsInv(states[i - 1], a);
    }
  }

  lemma InitInv<F>()
    ensures Inv<F>(Init())
  {
  }

  /** The functors queued, in the order of the locked sections. */
  ghost function Pushes<F>(actions: seq<Action<F>>): seq<F> {
    if actions == [] then [] else Pushes(actions[..|actions| - 1]) + Pushed(actions[|actions| - 1])
  }

  ghost function Pushed<F>(a: Action<F>): seq<F> {
    match a
    case Push(_, f) => [f]
    case OwnPush(f) => [f]
    case _ => []
  }

  lemma {:induction false} QueuedArePushes<F>(states: seq<State<F>>, actions: seq<Action<F>>, i: nat)
    requires IsRun(states, actions) && i <= |actions|
    ensures states[i].queued == Pushes(actions[..i])
  {
    hide Enabled, Step, Pushed;
    if i > 0 {
      QueuedArePushes(states, actions, i - 1);
      var a := actions[i - 1];
      assert actions[..i][..i - 1] == actions[..i - 1] && actions[..i][i - 1] == a;
      QueueGrows(states[i - 1], a);
    }
  }

  lemma QueueGrows<F>(s: State<F>, a: Action<F>)
    requires Enabled(s, a)
    ensures Step(s, a).queued == s.queued + Pushed(a)
  {
    assert s.queued + [] == s.queued;
  }

  // ----- What every interleaving guarantees

  /** No other thread has queued a functor or woken the loop, and the queue was never taken: what
      there is in it was queued by the loop's own thread before loop(), without a wakeup. */
  ghost predicate Unwoken<F>(actions: seq<Action<F>>) {
    forall j {:trigger actions[j]} :: 0 <= j < |actions| ==> IsSilent(actions[j])
  }

  ghost predicate IsSilent<F>(a: Action<F>) {
    !a.Swap? && !a.Push? && !a.Wake? && !a.OtherWake? && !a.OwnWake?
  }

  /** Before loop(), or with functors from then. */
  ghost predicate InFirstRound<F>(s: State<F>) {
    s.phase == Idle || (s.early && !BeforeSwap(s))
  }

  ghost predicate Asleep<F>(s: State<F>) {
    s.counter == 0 && s.owing == {}
  }

  lemma {:induction false} FirstRound<F>(states: seq<State<F>>, actions: seq<Action<F>>, i: nat)
    requires IsRun(states, actions) && i <= |actions|
    ensures Unwoken(actions[..i]) ==> Asleep(states[i]) && states[i].executed == states[i].batch == []
    ensures InFirstRound(states[i]) && Asleep(states[i]) ==> Unwoken(actions[..i])
  {
    hide Step, Enabled, IsSilent, InFirstRound, Asleep;
    if i > 0 {
      FirstRound(states, actions, i - 1);
      RunKeepsInv(states, actions, i - 1);
      var a := actions[i - 1];
      assert actions[..i] == actions[..i - 1] + [a];
      assert Unwoken(actions[..i]) <==> Unwoken(actions[..i - 1]) && IsSilent(a);
      FirstRoundStep(states[i - 1], a);
    } else {
      InitIsAsleep<F>();
    }
  }

  lemma InitIsAsleep<F>()
    ensures Asleep<F>(Init())
  {
  }

  lemma FirstRoundStep<F>(s: State<F>, a: Action<F>)
    requires Inv(s) && Enabled(s, a)
    ensures var t := Step(s, a);
      && (IsSilent(a) && Asleep(s) && s.executed == s.batch == [] ==> Asleep(t) && t.executed == t.batch == [])
      && (InFirstRound(t) && Asleep(t) ==> IsSilent(a) && InFirstRound(s) && Asleep(s))
  {
  }

  /** No lost wakeup: whenever the loop is about to block with functors queued, the eventfd is
      readable, so that poll returns for it, or a queuing thread still has its wakeup to do;
      unless they were all queued by its own thread before loop(), and nobody else has woken it. */
  lemma NoLostWakeup<F>(states: seq<State<F>>, actions: seq<Action<F>>, i: nat)
    requires IsRun(states, actions) && i <= |actions|
    requires states[i].phase == Polling && states[i].pending != []
    ensures (Enabled(states[i], PollReturns(true)) || exists thread :: Enabled(states[i], Wake(thread)))
            <==> !Unwoken(actions[..i])
  {
    RunKeepsInv(states, actions, i);
    FirstRound(states, actions, i);
    if states[i].owing != {} {
      var thread :| thread in states[i].owing;
      assert Enabled(states[i], Wake(thread));
    }
  }

  /** The loop sleeps only when every functor ever queued has run, with the same exception. */
  lemma SleepsOnlyWhenDone<F>(states: seq<State<F>>, actions: seq<Action<F>>, i: nat)
    requires IsRun(states, actions) && i <= |actions|
    requires states[i].phase == Polling && Asleep(states[i])
    ensures states[i].executed == Pushes(actions[..i]) <==> Unwoken(actions[..i]) ==> Pushes(actions[..i]) == []
  {
    QueuedArePushes(states, actions, i);
    RunKeepsInv(states, actions, i);
    FirstRound(states, actions, i);
  }

  /** The exception occurs: the loop blocks with a functor queued before it was entered. */
  lemma EarlyFunctorSleeps<F>(f: F) returns (states: seq<State<F>>, actions: seq<Action<F>>)
    ensures IsRun(states, actions)
    ensures var last := states[|actions|]; last.phase == Polling && last.pending == [f] && Asleep(last)
  {
    var s0: State<F> := Init();
    var s1 := Step(s0, OwnPush(f));
    var s2 := Step(s1, OwnCheck);
    var s3 := Step(s2, Start);
    states, actions := [s0, s1, s2, s3, Step(s3, Test)], [OwnPush(f), OwnCheck, Start, Test];
  }

  /** Functors run in the order they were queued, each at most once. */
  lemma RunsInOrder<F>(states: seq<State<F>>, actions: seq<Action<F>>, i: nat)
    requires IsRun(states, actions) && i <= |actions|
    ensures states[i].executed <= states[i].queued == Pushes(actions[..i])
  {
    QueuedArePushes(states, actions, i);
    RunKeepsInv(states, actions, i);
    var s := states[i];
    assert s.executed + s.batch + s.pending == s.executed + (s.batch + s.pending);
  }

  /** What has been taken from the queue never goes back, and the history of the queue only grows. */
  lemma StepGrows<F>(s: State<F>, a: Action<F>)
    requires Enabled(s, a)
    ensures s.queued <= Step(s, a).queued
    ensures |s.executed| + |s.batch| <= |Step(s, a).executed| + |Step(s, a).batch| || a == Swap
  {
  }

  lemma {:induction false} RunGrows<F>(states: seq<State<F>>, actions: seq<Action<F>>, i: nat, j: nat)
    requires IsRun(states, actions) && i <= j <= |actions|
    ensures states[i].queued <= states[j].queued
    ensures |states[i].executed| + |states[i].batch| <= |states[j].executed| + |states[j].batch|
  {
    hide Step, Enabled, Inv;
    if i < j {
      RunGrows(states, actions, i, j - 1);
      var a := actions[j - 1];
      StepGrows(states[j - 1], a);
      RunKeepsInv(states, actions, j - 1);
      SwapGrows(states[j - 1]);
    }
  }

  lemma SwapGrows<F>(s: State<F>)
    requires Inv(s)
    ensures Enabled(s, Swap) ==> |s.executed| + |s.batch| <= |Step(s, Swap).executed| + |Step(s, Swap).batch|
  {
  }

  /** No functor waits past the next drain: what was queued before the queue is taken has run
      when that drain ends. */
  lemma NextDrainRunsAll<F>(states: seq<State<F>>, actions: seq<Action<F>>, i: nat, swap: nat, end: nat)
    requires IsRun(states, actions) && i <= swap < end < |actions|
    requires actions[swap] == Swap && actions[end] == EndDrain
    ensures Pushes(actions[..i]) <= states[end + 1].executed
  {
    QueuedArePushes(states, actions, i);
    RunGrows(states, actions, i, swap);
    RunGrows(states, actions, swap, end);
    RunGrows(states, actions, swap + 1, end);
    RunKeepsInv(states, actions, swap);
    RunKeepsInv(states, actions, end);
    RunsInOrder(states, actions, end);
    hide Inv;
    var q, last := states[swap].queued, states[end];
    assert Enabled(states[swap], actions[swap]) && states[swap + 1] == Step(states[swap], actions[swap]);
    assert Enabled(last, actions[end]) && states[end + 1] == Step(last, actions[end]);
    TakenBySwap(states[swap]);
    assert |q| <= |last.executed| && q <= last.queued && last.executed <= last.queued;
  }

  lemma TakenBySwap<F>(s: State<F>)
    requires Inv(s) && Enabled(s, Swap)
    ensures |Step(s, Swap).executed| + |Step(s, Swap).batch| == |s.queued|
  {
  }

  /** The actions up to the last time the queue was taken. */
  ghost function UpToSwap<F>(actions: seq<Action<F>>): (front: seq<Action<F>>)
    ensures |front| <= |actions| && front == actions[..|front|]
    ensures forall j {:trigger actions[j]} :: |front| <= j < |actions| ==> actions[j] != Swap
    ensures front == [] || front[|front| - 1] == Swap
  {
    if actions == [] || actions[|actions| - 1] == Swap then actions else UpToSwap(actions[..|actions| - 1])
  }

  lemma {:induction false} TakenUpToSwap<F>(states: seq<State<F>>, actions: seq<Action<F>>, i: nat)
    requires IsRun(states, actions) && i <= |actions|
    ensures states[i].executed + states[i].batch == Pushes(UpToSwap(actions[..i]))
  {
    hide Inv, Pushes;
    if i == 0 {
      NoPushes<F>();
    } else {
      var a := actions[i - 1];
      assert actions[..i][..i - 1] == actions[..i - 1] && actions[..i][i - 1] == a;
      TakenUpToSwap(states, actions, i - 1);
      RunKeepsInv(states, actions, i - 1);
      QueuedArePushes(states, actions, i);
      TakenByStep(states[i - 1], a);
    }
  }

  lemma NoPushes<F>()
    ensures Pushes<F>([]) == []
  {
  }

  lemma TakenByStep<F>(s: State<F>, a: Action<F>)
    requires Inv(s) && Enabled(s, a)
    ensures var t := Step(s, a);
            t.executed + t.batch == if a == Swap then t.queued else s.executed + s.batch
  {
    if a == RunOne {
      assert s.batch == [s.batch[0]] + s.batch[1..];
    }
  }

  lemma {:induction false} PushesAfter<F>(actions: seq<Action<F>>, n: nat)
    requires n <= |actions|
    ensures |Pushes(actions[..n])| <= |Pushes(actions)|
    ensures Pushes(actions[..n]) == Pushes(actions)
            <==> forall j {:trigger actions[j]} :: n <= j < |actions| ==> Pushed(actions[j]) == []
    decreases |actions|
  {
    hide Pushed;
    if n == |actions| {
      assert actions[..n] == actions;
    } else {
      var front := actions[..|actions| - 1];
      PushesAfter(front, n);
      assert front[..n] == actions[..n];
    }
  }

  /** A loop that has stopped has run exactly the functors queued before it last took the queue;
      so it leaves none behind exactly when none was queued since. */
  lemma StoppedLoopHasRun<F>(states: seq<State<F>>, actions: seq<Action<F>>, i: nat)
    requires IsRun(states, actions) && i <= |actions| && states[i].phase == Stopped
    ensures var all, last := actions[..i], |UpToSwap(actions[..i])|;
            && states[i].executed == Pushes(all[..last])
            && (states[i].executed == Pushes(all)
                <==> forall j {:trigger all[j]} :: last <= j < |all| ==> Pushed(all[j]) == [])
  {
    RunKeepsInv(states, actions, i);
    TakenUpToSwap(states, actions, i);
    PushesAfter(actions[..i], |UpToSwap(actions[..i])|);
  }

  /** quit() has been called since loop() was entered, or before and loop() not entered since. */
  ghost predicate AskedToQuit<F>(actions: seq<Action<F>>) {
    exists j {:trigger actions[j]} :: 0 <= j < |actions| && actions[j].Quit?
      && forall k {:trigger actions[k]} :: j < k < |actions| ==> !actions[k].Start?
  }

  lemma AskedToQuitNext<F>(actions: seq<Action<F>>, a: Action<F>)
    ensures AskedToQuit(actions + [a]) <==> a.Quit? || (AskedToQuit(actions) && !a.Start?)
  {
    var more := actions + [a];
    assert forall j :: 0 <= j < |actions| ==> more[j] == actions[j];
    assert more[|actions|] == a;
  }

  /** The flag is what was asked for; a quit() before loop() is forgotten. */
  lemma {:induction false} QuitIsRemembered<F>(states: seq<State<F>>, actions: seq<Action<F>>, i: nat)
    requires IsRun(states, actions) && i <= |actions|
    ensures states[i].quit <==> AskedToQuit(actions[..i])
  {
    hide Enabled, AskedToQuit;
    if i > 0 {
      QuitIsRemembered(states, actions, i - 1);
      var a := actions[i - 1];
      assert actions[..i] == actions[..i - 1] + [a];
      AskedToQuitNext(actions[..i - 1], a);
    } else {
      NobodyAsked<F>();
    }
  }

  lemma NobodyAsked<F>()
    ensures !AskedToQuit<F>([])
  {
  }

  /** The loop is left at exactly the tests that come after a quit(), and nowhere else. */
  lemma LoopEndsIffAsked<F>(states: seq<State<F>>, actions: seq<Action<F>>, i: nat)
    requires IsRun(states, actions) && i < |actions|
    ensures actions[i] == Test ==> states[i + 1].phase == if AskedToQuit(actions[..i]) then Stopped else Polling
    ensures actions[i] != Test && states[i + 1].phase == Stopped ==> states[i].phase == Stopped
  {
    hide AskedToQuit;
    QuitIsRemembered(states, actions, i);
  }

  // ----- The rounds of the loop

  /** The actions of the loop's thread outside its calls of queueInLoop. */
  ghost predicate IsControl<F>(a: Action<F>) {
    a.Start? || a.Test? || a.PollReturns? || a.HandleRead? || a.BeginDrain? || a.Swap? || a.RunOne? || a.EndDrain?
  }

  /** The last of them. */
  ghost function LastControl<F>(actions: seq<Action<F>>): seq<Action<F>> {
    if actions == [] then []
    else if IsControl(actions[|actions| - 1]) then [actions[|actions| - 1]]
    else LastControl(actions[..|actions| - 1])
  }

  /** What may come before `a`: poll, the callbacks, the functors, and round again. */
  ghost predicate ComesAfter<F>(a: Action<F>, last: seq<Action<F>>) {
    match a
    case Start => last == []
    case Test => last == [Start] || last == [EndDrain]
    case PollReturns(_) => last == [Test]
    case HandleRead => last == [PollReturns(true)]
    case BeginDrain => last == [PollReturns(false)] || last == [HandleRead]
    case Swap => last == [BeginDrain]
    case RunOne => last == [Swap] || last == [RunOne]
    case EndDrain => last == [Swap] || last == [RunOne]
    case _ => true
  }

  ghost predicate PhaseAfter<F>(phase: Phase, last: seq<Action<F>>) {
    match phase
    case Idle => last == []
    case Testing => last == [Start] || last == [EndDrain]
    case Polling => last == [Test]
    case Dispatching(woken) => last == [PollReturns(woken)] || (last == [HandleRead] && !woken)
    case Swapping => last == [BeginDrain]
    case Running => last == [Swap] || last == [RunOne]
    case Stopped => last == [Test]
  }

  /** The loop's thread goes its rounds in the order of the program, whatever other threads do. */
  lemma {:induction false} LoopGoesRounds<F>(states: seq<State<F>>, actions: seq<Action<F>>, i: nat)
    requires IsRun(states, actions) && i <= |actions|
    ensures PhaseAfter(states[i].phase, LastControl(actions[..i]))
    ensures i < |actions| ==> ComesAfter(actions[i], LastControl(actions[..i]))
  {
    hide Step, Enabled, PhaseAfter, ComesAfter;
    if i > 0 {
      LoopGoesRounds(states, actions, i - 1);
      var a := actions[i - 1];
      assert actions[..i][..i - 1] == actions[..i - 1] && actions[..i][i - 1] == a;
      PhaseFollows(states[i - 1], a, actions[..i]);
    } else {
      AtFirst<F>();
    }
    if i < |actions| {
      var a := actions[i];
      EnabledAfter(states[i], a, LastControl(actions[..i]));
    }
  }

  lemma AtFirst<F>()
    ensures PhaseAfter(Init<F>().phase, LastControl<F>([]))
  {
  }

  lemma PhaseFollows<F>(s: State<F>, a: Action<F>, actions: seq<Action<F>>)
    requires Enabled(s, a) && actions != [] && actions[|actions| - 1] == a
    requires PhaseAfter(s.phase, LastControl(actions[..|actions| - 1]))
    ensures PhaseAfter(Step(s, a).phase, LastControl(actions))
  {
  }

  lemma EnabledAfter<F>(s: State<F>, a: Action<F>, last: seq<Action<F>>)
    requires Enabled(s, a) && PhaseAfter(s.phase, last)
    ensures ComesAfter(a, last)
  {
  }

  /** The loop's thread is never stuck: entered and not yet left, it can take its next action in
      every state; and other threads can queue, wake and quit at any time. */
  lemma NeverStuck<F>(s: State<F>)
    requires Inv(s)
    ensures if s.own == Unchecked then Enabled(s, OwnCheck) else if s.own == MustWake then Enabled(s, OwnWake) else
      match s.phase
      case Idle => Enabled(s, Start)
      case Testing => Enabled(s, Test)
      case Polling => Enabled(s, PollReturns(false)) && (s.counter > 0 ==> Enabled(s, PollReturns(true)))
      case Dispatching(woken) => if woken then Enabled(s, HandleRead) else Enabled(s, BeginDrain)
      case Swapping => Enabled(s, Swap)
      case Running => if s.batch != [] then Enabled(s, RunOne) else Enabled(s, EndDrain)
      case Stopped => true
    ensures forall thread: nat, f :: thread !in s.owing ==> Enabled(s, Push(thread, f))
    ensures s.own == Nothing && (s.phase == Idle || s.phase.Dispatching? || s.phase == Running) ==>
              forall f :: Enabled(s, OwnPush(f))
    ensures Enabled(s, OtherWake) && Enabled(s, Quit)
  {
  }

  /** A thread owes a wakeup from its push to its wakeup. */
  ghost predicate Owes<F>(actions: seq<Action<F>>, thread: nat) {
    actions != [] &&
    var last := actions[|actions| - 1];
    if last.Push? && last.thread == thread then true
    else if last.Wake? && last.thread == thread then false
    else Owes(actions[..|actions| - 1], thread)
  }

  lemma {:induction false} OwingIffOwes<F>(states: seq<State<F>>, actions: seq<Action<F>>, i: nat, thread: nat)
    requires IsRun(states, actions) && i <= |actions|
    ensures thread in states[i].owing <==> Owes(actions[..i], thread)
    ensures thread in states[i].owing <==> Enabled(states[i], Wake(thread))
  {
    hide Enabled, Step;
    if i > 0 {
      OwingIffOwes(states, actions, i - 1, thread);
      var a := actions[i - 1];
      assert actions[..i][..i - 1] == actions[..i - 1] && actions[..i][i - 1] == a;
      OwingAfter(states[i - 1], a, thread);
    }
    WakeIfOwing(states[i], thread);
  }

  lemma OwingAfter<F>(s: State<F>, a: Action<F>, thread: nat)
    requires Enabled(s, a)
    ensures thread in Step(s, a).owing <==>
            (a.Push? && a.thread == thread) || (thread in s.owing && !(a.Wake? && a.thread == thread))
  {
  }

  lemma WakeIfOwing<F>(s: State<F>, thread: nat)
    ensures thread in s.owing <==> Enabled(s, Wake(thread))
  {
  }

  // ----- What the eventfd counts

  ghost predicate IsWakeup<F>(a: Action<F>) {
    a.Wake? || a.OtherWake? || a.OwnWake?
  }

  /** The wakeups since the eventfd was last read. */
  ghost function WakeupsSinceRead<F>(actions: seq<Action<F>>): nat {
    if actions == [] || actions[|actions| - 1].HandleRead? then 0
    else
      var before := WakeupsSinceRead(actions[..|actions| - 1]);
      if IsWakeup(actions[|actions| - 1]) then before + 1 else before
  }

  /** The eventfd holds the number of wakeups since it was last read, as far as it can count. */
  lemma {:induction false} CounterCountsWakeups<F>(states: seq<State<F>>, actions: seq<Action<F>>, i: nat)
    requires IsRun(states, actions) && i <= |actions|
    ensures var n := WakeupsSinceRead(actions[..i]);
            states[i].counter == if n <= COUNTER_MAX then n else COUNTER_MAX
  {
    hide Enabled, Step;
    if i > 0 {
      CounterCountsWakeups(states, actions, i - 1);
      var a := actions[i - 1];
      assert actions[..i][..i - 1] == actions[..i - 1] && actions[..i][i - 1] == a;
      CounterAfter(states[i - 1], a);
    }
  }

  lemma CounterAfter<F>(s: State<F>, a: Action<F>)
    requires Enabled(s, a)
    ensures Step(s, a).counter ==
            if a.HandleRead? then 0
            else if IsWakeup(a) && s.counter < COUNTER_MAX then s.counter + 1
            else s.counter
  {
  }

  /** The eventfd is readable exactly if the loop has been woken since it last read it. */
  lemma ReadableIffWoken<F>(states: seq<State<F>>, actions: seq<Action<F>>, i: nat)
    requires IsRun(states, actions) && i <= |actions|
    ensures Asleep(states[i]) <==> WakeupsSinceRead(actions[..i]) == 0 && states[i].owing == {}
    ensures states[i].phase == Polling ==> (Enabled(states[i], PollReturns(true)) <==> WakeupsSinceRead(actions[..i]) > 0)
  {
    CounterCountsWakeups(states, actions, i);
  }

  /** A loop that quits may leave functors behind. */
  lemma QuitStrandsFunctors<F>(f: F) returns (states: seq<State<F>>, actions: seq<Action<F>>)
    ensures IsRun(states, actions)
    ensures var last := states[|actions|]; last.phase == Stopped && last.pending == [f] && last.owing == {}
  {
    var s0: State<F> := Init();
    var s1 := Step(s0, Start);
    var s2 := Step(s1, Push(0, f));
    var s3 := Step(s2, Wake(0));
    var s4 := Step(s3, Quit);
    states, actions := [s0, s1, s2, s3, s4, Step(s4, Test)], [Start, Push(0, f), Wake(0), Quit, Test];
  }
}
