/** The output path of a connection as steps: sends, writable events, shutdown and close in the loop
    thread, and sends and shutdowns in other threads, whose functors run later.  What a `write`
    comes to is a parameter of the step. */
module OutputPath {

  datatype Phase = Connecting | Connected | Disconnecting | Disconnected

  /** EWOULDBLOCK; EPIPE or ECONNRESET; any other errno. */
  datatype WriteResult = Wrote(n: nat) | WouldBlock | Fault | OtherError

  datatype Callback = WriteComplete | HighWater(size: nat)

  /** Calls of the connection callback, which looks at the state, and of the close callback. */
  datatype Notice = ConnectionIs(phase: Phase) | Closed

  /** `wire` is what `write` has taken and `shutdowns` counts calls of `shutdownWrite`.  `total`
      (all bytes handed to sendInLoop) and `dropped` are history variables.  Functors of sends run
      in the order they were queued, those of shutdowns at any time: a send that has passed its
      test may reach the queue after the functor of a later shutdown. */
  datatype State = State(
    phase: Phase, writing: bool, output: string, wire: string, shutdowns: nat,
    queued: seq<Callback>,  // callbacks given to the loop
    told: seq<Notice>,      // callbacks called
    waiting: nat,           // shutdownInLoop functors queued by other threads
    outbox: seq<string>,    // sendInLoop functors queued by other threads
    settings: Settings, total: string, dropped: nat)

  datatype Settings = Settings(highWaterMark: nat, onWriteComplete: bool, onHighWater: bool)

  function Init(settings: Settings): State {
    State(Connecting, false, "", "", 0, [], [], 0, [], settings, "", 0)
  }

  datatype Action =
    | Establish
    | Send(data: string, result: WriteResult)
    | HandleWrite(result: WriteResult)
    | Shutdown           // shutdown() in the loop thread
    | ShutdownElsewhere  // shutdown() in another thread: the rest is queued
    | RunShutdown        // ... and run
    | SendElsewhere(data: string)  // send() in another thread: the rest is queued
    | RunSend(result: WriteResult) // ... and run
    | HandleClose
    | Destroy

  /** Nothing is written past the queued bytes only when there are none. */
  predicate WritesNow(s: State) {
    !s.writing && s.output == ""
  }

  ghost predicate Enabled(s: State, a: Action) {
    match a
    case Establish => s.phase == Connecting
    case Send(data, result) => result.Wrote? ==> result.n <= |data|
    case HandleWrite(result) => result.Wrote? ==> result.n <= |s.output|
    case RunShutdown => s.waiting > 0
    case RunSend(result) => s.outbox != [] && (result.Wrote? ==> result.n <= |s.outbox[0]|)
    case HandleClose => s.phase != Connecting
    case _ => true
  }

  /** What a direct write takes of a send. */
  ghost function Taken(s: State, result: WriteResult): nat {
    if WritesNow(s) && result.Wrote? then result.n else 0
  }

  ghost predicate FaultNow(s: State, result: WriteResult) {
    WritesNow(s) && result.Fault?
  }

  ghost function HandOver(s: State, data: string, result: WriteResult): State
    requires result.Wrote? ==> result.n <= |data|
  {
    var n := Taken(s, result);
    s.(total := s.total + data, wire := s.wire + data[..n],
       dropped := s.dropped + if FaultNow(s, result) then |data| else 0,
       queued := s.queued + if WritesNow(s) && result.Wrote? && n == |data| && s.settings.onWriteComplete
                            then [WriteComplete] else [])
  }

  ghost function SendInLoop(s: State, data: string, result: WriteResult): (t: State)
    requires result.Wrote? ==> result.n <= |data|
    ensures t.phase == s.phase && t.shutdowns == s.shutdowns && t.total == s.total + data && t.told == s.told
    ensures t.waiting == s.waiting && t.outbox == s.outbox
  {
    var rest := data[Taken(s, result)..];
    if FaultNow(s, result) || rest == "" then HandOver(s, data, result)
    else Enqueue(HandOver(s, data, result), rest)
  }

  ghost function Enqueue(s: State, rest: string): State {
    var size := |s.output| + |rest|;
    var high := size >= s.settings.highWaterMark && |s.output| < s.settings.highWaterMark && s.settings.onHighWater;
    s.(queued := s.queued + (if high then [HighWater(size)] else []), output := s.output + rest, writing := true)
  }

  ghost function ShutdownInLoop(s: State): State {
    if s.writing then s else s.(shutdowns := s.shutdowns + 1)
  }

  ghost function Writable(s: State, result: WriteResult): (t: State)
    requires result.Wrote? ==> result.n <= |s.output|
    ensures t.phase == s.phase && t.shutdowns >= s.shutdowns && t.total == s.total && t.told == s.told
    ensures t.waiting == s.waiting && t.outbox == s.outbox
  {
    if s.writing && result.Wrote? && result.n > 0 then
      var t := s.(wire := s.wire + s.output[..result.n], output := s.output[result.n..]);
      if t.output == "" then Drained(t) else t
    else s
  }

  ghost function Drained(s: State): State {
    var t := s.(writing := false, queued := s.queued + if s.settings.onWriteComplete then [WriteComplete] else []);
    if s.phase == Disconnecting then ShutdownInLoop(t) else t
  }

  ghost function Step(s: State, a: Action): State
    requires Enabled(s, a)
  {
    match a
    case Establish => s.(phase := Connected, told := s.told + [ConnectionIs(Connected)])
    case Send(data, result) => if s.phase == Connected then SendInLoop(s, data, result) else s
    case HandleWrite(result) => Writable(s, result)
    case Shutdown => if s.phase == Connected then ShutdownInLoop(s.(phase := Disconnecting)) else s
    case ShutdownElsewhere => if s.phase == Connected then s.(phase := Disconnecting, waiting := s.waiting + 1) else s
    case RunShutdown => ShutdownInLoop(s.(waiting := s.waiting - 1))
    case SendElsewhere(data) => if s.phase == Connected then s.(outbox := s.outbox + [data]) else s
    case RunSend(result) => SendInLoop(s.(outbox := s.outbox[1..]), s.outbox[0], result)
    case HandleClose =>
      s.(phase := Disconnected, writing := false, told := s.told + [ConnectionIs(Disconnected), Closed])
    case Destroy =>
      if s.phase == Connected then s.(phase := Disconnected, writing := false, told := s.told + [ConnectionIs(Disconnected)])
      else s
  }

  ghost predicate IsRun(settings: Settings, states: seq<State>, actions: seq<Action>) {
    IsRunFrom(Init(settings), states, actions)
  }

  ghost predicate IsRunFrom(s: State, states: seq<State>, actions: seq<Action>) {
    && |states| == |actions| + 1 && states[0] == s
    && forall i {:trigger actions[i]} :: 0 <= i < |actions| ==>
         Enabled(states[i], actions[i]) && states[i + 1] == Step(states[i], actions[i])
  }

  /** send() and shutdown() are only called in the loop thread. */
  ghost predicate OneThread(actions: seq<Action>) {
    forall i {:trigger actions[i]} :: 0 <= i < |actions| ==> !actions[i].ShutdownElsewhere? && !actions[i].SendElsewhere?
  }

  /** The functors of sends have nothing to send. */
  ghost predicate Silent(outbox: seq<string>) {
    forall i :: 0 <= i < |outbox| ==> outbox[i] == ""
  }

  ghost predicate Inv(s: State) {
    && (s.phase == Connecting ==> s.output == "" && s.outbox == [])
    && (s.phase == Connecting || s.phase == Connected ==> s.shutdowns == 0 && s.waiting == 0)
    && (s.writing ==> s.output != "")
    && (s.phase == Connected || s.phase == Disconnecting ==> (s.writing <==> s.output != ""))
    && |s.wire| + |s.output| + s.dropped == |s.total|
    && (s.dropped == 0 ==> s.wire + s.output == s.total)
  }

  ghost predicate HalfClosed(s: State) {
    && s.waiting == 0 && Silent(s.outbox)
    && (s.phase == Connecting || s.phase == Connected ==> s.shutdowns == 0)
    && (s.phase == Disconnecting ==> s.shutdowns == if s.output == "" then 1 else 0)
    && s.shutdowns <= 1
    && (s.shutdowns == 1 ==> s.output == "")
  }

  lemma StepKeepsInv(s: State, a: Action)
    requires Inv(s) && Enabled(s, a)
    ensures Inv(Step(s, a))
  {
    match a {
      case Send(data, result) =>
        if s.phase == Connected {
          SendKeepsInv(s, data, result);
        }
      case RunSend(result) => SendKeepsInv(s.(outbox := s.outbox[1..]), s.outbox[0], result);
      case HandleWrite(result) => WritableKeepsInv(s, result);
      case _ =>
    }
  }

  lemma SendKeepsInv(s: State, data: string, result: WriteResult)
    requires Inv(s) && s.phase != Connecting && (result.Wrote? ==> result.n <= |data|)
    ensures Inv(SendInLoop(s, data, result))
  {
    if WritesNow(s) && result.Wrote? {
      assert s.wire + s.output == s.wire;
      assert (s.wire + data[..result.n]) + data[result.n..] == s.wire + data;
    } else {
      assert data[0..] == data && s.wire + data[..0] == s.wire;
      assert (s.wire + s.output) + data == s.wire + (s.output + data);
    }
  }

  lemma WritableKeepsInv(s: State, result: WriteResult)
    requires Inv(s) && (result.Wrote? ==> result.n <= |s.output|)
    ensures Inv(Writable(s, result))
  {
    if s.writing && result.Wrote? && result.n > 0 {
      assert (s.wire + s.output[..result.n]) + s.output[result.n..] == s.wire + s.output;
    }
  }

  /** The half-close account is kept by all that is done in the loop thread, and by the calls of
      other threads once the connection is no longer up. */
  lemma StepKeepsHalfClosed(s: State, a: Action)
    requires Inv(s) && HalfClosed(s) && Enabled(s, a)
    requires s.phase == Connected ==> !a.ShutdownElsewhere? && !a.SendElsewhere?
    ensures HalfClosed(Step(s, a))
  {
    hide SendInLoop, Writable, Inv;
    match a {
      case Send(data, result) =>
        if s.phase == Connected {
          SendKeepsHalfClosed(s, data, result);
        }
      case RunSend(result) => RunSendKeepsHalfClosed(s, result);
      case HandleWrite(result) => WritableKeepsHalfClosed(s, result);
      case Shutdown => ShutdownKeepsHalfClosed(s);
      case _ =>
    }
  }

  lemma SendKeepsHalfClosed(s: State, data: string, result: WriteResult)
    requires HalfClosed(s) && s.phase == Connected && (result.Wrote? ==> result.n <= |data|)
    ensures HalfClosed(SendInLoop(s, data, result))
  {
  }

  lemma RunSendKeepsHalfClosed(s: State, result: WriteResult)
    requires HalfClosed(s) && Enabled(s, RunSend(result))
    ensures HalfClosed(Step(s, RunSend(result)))
  {
    hide SendInLoop;
    NothingToSend(s, result);
  }

  /** A functor with no bytes changes nothing but callbacks. */
  lemma NothingToSend(s: State, result: WriteResult)
    requires Enabled(s, RunSend(result)) && s.outbox[0] == ""
    ensures Step(s, RunSend(result)) == s.(outbox := s.outbox[1..], queued := Step(s, RunSend(result)).queued)
  {
    assert s.total + "" == s.total && s.wire + "" == s.wire;
  }

  lemma WritableKeepsHalfClosed(s: State, result: WriteResult)
    requires Inv(s) && HalfClosed(s) && (result.Wrote? ==> result.n <= |s.output|)
    ensures HalfClosed(Writable(s, result))
  {
  }

  lemma ShutdownKeepsHalfClosed(s: State)
    requires Inv(s) && HalfClosed(s)
    ensures HalfClosed(Step(s, Shutdown))
  {
    hide SendInLoop, Writable;
  }

  lemma {:induction false} RunKeepsInv(settings: Settings, states: seq<State>, actions: seq<Action>, i: nat)
    requires IsRun(settings, states, actions) && i <= |actions|
    ensures Inv(states[i])
    ensures OneThread(actions) ==> HalfClosed(states[i])
  {
    hide Step, Enabled;
    if i > 0 {
      hide Inv, HalfClosed;
      RunKeepsInv(settings, states, actions, i - 1);
      var a := actions[i - 1];
      StepKeepsInv(states[i - 1], a);
      if OneThread(actions) {
        StepKeepsHalfClosed(states[i - 1], a);
      }
    }
  }

  // ----- What every run guarantees

  /** While the connection lasts the loop watches for room exactly when bytes are waiting. */
  lemma WritingIffWaiting(settings: Settings, states: seq<State>, actions: seq<Action>, i: nat)
    requires IsRun(settings, states, actions) && i <= |actions|
    requires states[i].phase == Connected || states[i].phase == Disconnecting
    ensures states[i].writing <==> states[i].output != ""
  {
    RunKeepsInv(settings, states, actions, i);
  }

  /** The bytes a step hands to sendInLoop. */
  ghost function Handed(s: State, a: Action): string {
    if a.Send? && s.phase == Connected then a.data
    else if a.RunSend? && s.outbox != [] then s.outbox[0]
    else ""
  }

  /** A send whose direct write fails for good: its bytes are not kept. */
  ghost predicate Faulty(s: State, a: Action) {
    Handed(s, a) != "" && a.result == Fault && WritesNow(s)
  }

  lemma DroppedByFaults(s: State, a: Action)
    requires Enabled(s, a)
    ensures Step(s, a).dropped >= s.dropped
    ensures Step(s, a).dropped > s.dropped <==> Faulty(s, a)
  {
  }

  lemma {:induction false} DroppedIffFaulty(settings: Settings, states: seq<State>, actions: seq<Action>, i: nat)
    requires IsRun(settings, states, actions) && i <= |actions|
    ensures states[i].dropped == 0 <==> forall j {:trigger actions[j]} :: 0 <= j < i ==> !Faulty(states[j], actions[j])
  {
    hide Step, Enabled, Faulty;
    if i > 0 {
      DroppedIffFaulty(settings, states, actions, i - 1);
      var a := actions[i - 1];
      DroppedByFaults(states[i - 1], a);
    }
  }

  /** The bytes of all sends made while connected, those of other threads as their functors run. */
  ghost function Sent(states: seq<State>, actions: seq<Action>, i: nat): string
    requires i <= |actions| < |states|
  {
    if i == 0 then "" else Sent(states, actions, i - 1) + Handed(states[i - 1], actions[i - 1])
  }

  lemma {:induction false} TotalIsSent(settings: Settings, states: seq<State>, actions: seq<Action>, i: nat)
    requires IsRun(settings, states, actions) && i <= |actions|
    ensures states[i].total == Sent(states, actions, i)
  {
    hide Enabled, Step, Handed;
    if i > 0 {
      TotalIsSent(settings, states, actions, i - 1);
      var a := actions[i - 1];
      TotalGrows(states[i - 1], a);
    }
  }

  lemma TotalGrows(s: State, a: Action)
    requires Enabled(s, a)
    ensures Step(s, a).total == s.total + Handed(s, a)
  {
    hide SendInLoop, Writable;
    assert s.total + "" == s.total;
  }

  /** The sends that other threads made while connected, and those whose functor has run. */
  ghost function MadeElsewhere(states: seq<State>, actions: seq<Action>, i: nat): seq<string>
    requires i <= |actions| < |states|
  {
    if i == 0 then [] else
      var a := actions[i - 1];
      MadeElsewhere(states, actions, i - 1) + if a.SendElsewhere? && states[i - 1].phase == Connected then [a.data] else []
  }

  ghost function RunElsewhere(states: seq<State>, actions: seq<Action>, i: nat): seq<string>
    requires i <= |actions| < |states|
  {
    if i == 0 then [] else
      RunElsewhere(states, actions, i - 1) + if actions[i - 1].RunSend? then [Handed(states[i - 1], actions[i - 1])] else []
  }

  /** Sends of other threads are carried out in the order they were queued, whatever has become of
      the connection, each at most once. */
  lemma {:induction false} SendsElsewhereInOrder(settings: Settings, states: seq<State>, actions: seq<Action>, i: nat)
    requires IsRun(settings, states, actions) && i <= |actions|
    ensures MadeElsewhere(states, actions, i) == RunElsewhere(states, actions, i) + states[i].outbox
  {
    hide Enabled, Step, Handed;
    if i > 0 {
      SendsElsewhereInOrder(settings, states, actions, i - 1);
      var a := actions[i - 1];
      OutboxAfter(states[i - 1], a);
      Regrouped(RunElsewhere(states, actions, i - 1), states[i - 1].outbox,
                if a.SendElsewhere? && states[i - 1].phase == Connected then [a.data] else [],
                if a.RunSend? then [Handed(states[i - 1], a)] else [], states[i].outbox);
    }
  }

  lemma Regrouped<T>(a: seq<T>, b: seq<T>, c: seq<T>, d: seq<T>, e: seq<T>)
    requires d + e == b + c
    ensures (a + b) + c == (a + d) + e
  {
    assert (a + b) + c == a + (b + c) && (a + d) + e == a + (d + e);
  }

  lemma OutboxAfter(s: State, a: Action)
    requires Enabled(s, a)
    ensures (if a.RunSend? then [Handed(s, a)] else []) + Step(s, a).outbox
            == s.outbox + if a.SendElsewhere? && s.phase == Connected then [a.data] else []
  {
    hide SendInLoop, Writable;
  }

  // ----- What the socket has taken

  /** The step calls `write`. */
  ghost predicate CallsWrite(s: State, a: Action) {
    || (a.HandleWrite? && s.writing)
    || (((a.Send? && s.phase == Connected) || a.RunSend?) && !s.writing && s.output == "")
  }

  /** How many bytes it returns. */
  ghost function Returned(s: State, a: Action): nat {
    if CallsWrite(s, a) && a.result.Wrote? then a.result.n else 0
  }

  /** What `write` says it has taken is on the wire, byte for byte, and is not kept for later; the
      rest of what was handed over or waiting is kept, unless the write has failed for good. */
  lemma WriteTakesWhatItReturns(s: State, a: Action)
    requires Inv(s) && Enabled(s, a)
    ensures var t, n := Step(s, a), Returned(s, a);
      if a.HandleWrite? then
        n <= |s.output| && t.wire == s.wire + s.output[..n] && t.output == s.output[n..]
      else
        && n <= |Handed(s, a)| && t.wire == s.wire + Handed(s, a)[..n]
        && t.output == if CallsWrite(s, a) && a.result == Fault then s.output else s.output + Handed(s, a)[n..]
  {
    hide Inv;
    WaitsToWrite(s);
    match a {
      case Send(data, result) =>
        if s.phase == Connected {
          SendTakes(s, data, result);
        }
      case RunSend(result) => SendTakes(s.(outbox := s.outbox[1..]), s.outbox[0], result);
      case HandleWrite(result) => WritableTakes(s, result);
      case _ => assert s.wire + "" == s.wire && s.output + "" == s.output;
    }
  }

  lemma SendTakes(s: State, data: string, result: WriteResult)
    requires result.Wrote? ==> result.n <= |data|
    ensures var t, direct := SendInLoop(s, data, result), !s.writing && s.output == "";
            var n := if direct && result.Wrote? then result.n else 0;
      t.wire == s.wire + data[..n] && t.output == if direct && result == Fault then s.output else s.output + data[n..]
  {
    var n := if !s.writing && s.output == "" && result.Wrote? then result.n else 0;
    assert data[n..] == "" ==> s.output + data[n..] == s.output;
  }

  lemma WritableTakes(s: State, result: WriteResult)
    requires (result.Wrote? ==> result.n <= |s.output|) && (s.writing ==> s.output != "")
    ensures var t, n := Writable(s, result), if s.writing && result.Wrote? then result.n else 0;
            t.wire == s.wire + s.output[..n] && t.output == s.output[n..]
  {
    assert s.wire + s.output[..0] == s.wire && s.output[0..] == s.output;
  }

  ghost function AllReturned(states: seq<State>, actions: seq<Action>, i: nat): nat
    requires i <= |actions| < |states|
  {
    if i == 0 then 0 else AllReturned(states, actions, i - 1) + Returned(states[i - 1], actions[i - 1])
  }

  /** The wire holds as many bytes as all calls of `write` have returned. */
  lemma {:induction false} WireIsWhatWritesReturned(settings: Settings, states: seq<State>, actions: seq<Action>, i: nat)
    requires IsRun(settings, states, actions) && i <= |actions|
    ensures |states[i].wire| == AllReturned(states, actions, i)
  {
    hide Step, Enabled, Inv, Returned, Handed;
    if i > 0 {
      WireIsWhatWritesReturned(settings, states, actions, i - 1);
      RunKeepsInv(settings, states, actions, i - 1);
      var a := actions[i - 1];
      WriteTakesWhatItReturns(states[i - 1], a);
    }
  }

  /** Which calls can happen: a send takes any result of its write, in any state; a writable event
      any that is not more than what waits; functors run once they are queued. */
  lemma CallsCanHappen(s: State, data: string, n: nat)
    ensures n <= |data| ==> Enabled(s, Send(data, Wrote(n)))
    ensures forall result: WriteResult :: !result.Wrote? ==> Enabled(s, Send(data, result)) && Enabled(s, HandleWrite(result))
    ensures n <= |s.output| ==> Enabled(s, HandleWrite(Wrote(n)))
    ensures s.outbox != [] && n <= |s.outbox[0]| ==> Enabled(s, RunSend(Wrote(n))) && Enabled(s, RunSend(WouldBlock))
    ensures Enabled(s, RunShutdown) <==> s.waiting > 0
    ensures Enabled(s, Establish) <==> s.phase == Connecting
    ensures Enabled(s, HandleClose) <==> s.phase != Connecting
    ensures Enabled(s, Shutdown) && Enabled(s, ShutdownElsewhere) && Enabled(s, SendElsewhere(data)) && Enabled(s, Destroy)
  {
  }

  /** The state changes when the connection is established, when it is half closed while up, when
      the system closes it, and when it is destroyed while up; and not otherwise. */
  lemma PhaseChanges(s: State, a: Action)
    requires Enabled(s, a)
    ensures Step(s, a).phase ==
      if a == Establish then Connected
      else if a == HandleClose then Disconnected
      else if s.phase == Connected && (a == Shutdown || a == ShutdownElsewhere) then Disconnecting
      else if s.phase == Connected && a == Destroy then Disconnected
      else s.phase
    ensures Step(s, a).settings == s.settings
    ensures Step(s, a).waiting ==
      s.waiting + (if s.phase == Connected && a == ShutdownElsewhere then 1 else 0) - if a == RunShutdown then 1 else 0
  {
  }

  /** Writing is switched on with the first byte that waits and off with the last one or with the
      connection; the write side is shut by a half-close that finds writing off, and by the write
      that takes the last byte of a half-closed connection. */
  lemma WritingAndShutdownFollow(s: State, a: Action)
    requires Inv(s) && Enabled(s, a)
    ensures var t := Step(s, a);
      && (t.writing <==>
            if a == HandleClose || (s.phase == Connected && a == Destroy) then false
            else if t.output != s.output then t.output != ""
            else s.writing)
      && t.shutdowns == s.shutdowns +
           if !s.writing && (a == RunShutdown || (a == Shutdown && s.phase == Connected)) then 1
           else if a.HandleWrite? && s.phase == Disconnecting && s.output != "" && t.output == "" then 1
           else 0
  {
    hide Inv;
    WaitsToWrite(s);
    match a {
      case Send(data, result) =>
        if s.phase == Connected {
          SendWrites(s, data, result);
        }
      case RunSend(result) => SendWrites(s.(outbox := s.outbox[1..]), s.outbox[0], result);
      case _ =>
    }
  }

  lemma SendWrites(s: State, data: string, result: WriteResult)
    requires result.Wrote? ==> result.n <= |data|
    ensures var t := SendInLoop(s, data, result);
            t.writing <==> if t.output != s.output then t.output != "" else s.writing
  {
    var rest := data[Taken(s, result)..];
    assert |s.output + rest| == |s.output| + |rest|;
  }

  /** The bytes on the wire and the bytes waiting are all the bytes sent, in order, exactly as long
      as no direct write has failed for good. */
  lemma StreamIntactIff(settings: Settings, states: seq<State>, actions: seq<Action>, i: nat)
    requires IsRun(settings, states, actions) && i <= |actions|
    ensures states[i].wire + states[i].output == Sent(states, actions, i)
            <==> forall j {:trigger actions[j]} :: 0 <= j < i ==> !Faulty(states[j], actions[j])
  {
    hide Step, Enabled, Faulty, IsRun, Sent;
    TotalIsSent(settings, states, actions, i);
    RunKeepsInv(settings, states, actions, i);
    DroppedIffFaulty(settings, states, actions, i);
  }

  /** The write side is shut at most once, when the last byte has left, and nothing is sent or
      written afterwards. */
  lemma ShutdownOnceAfterLastByte(settings: Settings, states: seq<State>, actions: seq<Action>, i: nat)
    requires IsRun(settings, states, actions) && OneThread(actions) && i <= |actions|
    ensures states[i].shutdowns <= 1
    ensures states[i].shutdowns == 1 ==> states[i].output == ""
    ensures states[i].shutdowns == 1 && states[i].dropped == 0 ==> states[i].wire == Sent(states, actions, i)
    ensures states[i].phase == Disconnecting ==> (states[i].shutdowns == 1 <==> states[i].output == "")
  {
    TotalIsSent(settings, states, actions, i);
    RunKeepsInv(settings, states, actions, i);
  }

  lemma SilentAfterShutdown(s: State, a: Action)
    requires Inv(s) && HalfClosed(s) && Enabled(s, a) && s.shutdowns == 1
    ensures Step(s, a).wire == s.wire && Step(s, a).total == s.total
  {
  }

  lemma {:induction false} NothingAfterShutdown(settings: Settings, states: seq<State>, actions: seq<Action>, i: nat, j: nat)
    requires IsRun(settings, states, actions) && OneThread(actions) && i <= j <= |actions|
    requires states[i].shutdowns == 1
    ensures states[j].wire == states[i].wire && states[j].shutdowns == 1
    ensures Sent(states, actions, j) == Sent(states, actions, i)
  {
    hide Step, Enabled, Inv, HalfClosed;
    if i < j {
      NothingAfterShutdown(settings, states, actions, i, j - 1);
      RunKeepsInv(settings, states, actions, j - 1);
      var a := actions[j - 1];
      SilentAfterShutdown(states[j - 1], a);
      ShutdownsGrow(states[j - 1], a);
      ShutdownOnceAfterLastByte(settings, states, actions, j);
      TotalIsSent(settings, states, actions, j - 1);
      TotalIsSent(settings, states, actions, j);
    }
  }

  lemma ShutdownsGrow(s: State, a: Action)
    requires Enabled(s, a)
    ensures s.shutdowns <= Step(s, a).shutdowns
  {
    hide SendInLoop, Writable;
  }

  /** Called in another thread, shutdown() may shut the write side twice: the buffer runs empty
      before the functor is run. */
  lemma ShutTwiceFromAnotherThread(settings: Settings) returns (states: seq<State>, actions: seq<Action>)
    ensures IsRun(settings, states, actions) && states[|actions|].shutdowns == 2
  {
    var s0 := Init(settings);
    var s1 := Step(s0, Establish);
    var s2 := Step(s1, Send("x", WouldBlock));
    var s3 := Step(s2, ShutdownElsewhere);
    states, actions := [s0, s1, s2, s3], [Establish, Send("x", WouldBlock), ShutdownElsewhere];
    states, actions := DrainedThenShut(s0, states, actions);
  }

  /** Shut at most once, and not while bytes wait. */
  ghost predicate ShutCleanly(s: State) {
    s.shutdowns <= 1 && (s.shutdowns == 1 ==> s.output == "")
  }

  /** After shutdown() in another thread with nothing waiting: either the functor is still to run
      or the write side is shut. */
  ghost predicate Emptied(s: State) {
    && (s.phase == Disconnecting || s.phase == Disconnected)
    && !s.writing && s.output == "" && s.shutdowns + s.waiting == 1 && Silent(s.outbox)
  }

  lemma {:induction false} StaysEmptied(s: State, states: seq<State>, actions: seq<Action>, i: nat)
    requires IsRunFrom(s, states, actions) && Emptied(s) && i <= |actions|
    ensures Emptied(states[i])
  {
    if i > 0 {
      StaysEmptied(s, states, actions, i - 1);
      var a := actions[i - 1];
      EmptiedStep(states[i - 1], a);
    }
  }

  lemma EmptiedStep(s: State, a: Action)
    requires Emptied(s) && Enabled(s, a)
    ensures Emptied(Step(s, a))
  {
    hide SendInLoop;
    if a.RunSend? {
      NothingToSend(s, a.result);
    }
  }

  // ----- Runs put together

  lemma RunPrepended(s: State, a: Action, states: seq<State>, actions: seq<Action>)
    requires Enabled(s, a) && IsRunFrom(Step(s, a), states, actions)
    ensures IsRunFrom(s, [s] + states, [a] + actions)
    ensures ([s] + states)[|[a] + actions|] == states[|actions|]
  {
    hide Enabled, Step;
    forall i | 0 <= i < |actions| + 1
      ensures Enabled(([s] + states)[i], ([a] + actions)[i])
      ensures ([s] + states)[i + 1] == Step(([s] + states)[i], ([a] + actions)[i])
    {
      if i > 0 {
        assert ([a] + actions)[i] == actions[i - 1];
      }
    }
  }

  /** The functors of sends run, and the socket takes nothing: bytes wait. */
  lemma {:induction false} SendsWait(s: State) returns (states: seq<State>, actions: seq<Action>)
    requires !s.writing && !Silent(s.outbox)
    ensures IsRunFrom(s, states, actions)
    ensures var t := states[|actions|];
      && t.writing && t.output != "" && t.wire == s.wire
      && t.shutdowns == s.shutdowns && t.waiting == s.waiting && t.phase == s.phase
    decreases |s.outbox|
  {
    var a := RunSend(WouldBlock);
    var t := Step(s, a);
    if s.outbox[0] == "" {
      NothingToSend(s, WouldBlock);
      assert !Silent(t.outbox) by {
        var i :| 0 <= i < |s.outbox| && s.outbox[i] != "";
        assert t.outbox[i - 1] == s.outbox[i];
      }
      hide Step, Enabled;
      states, actions := SendsWait(t);
      RunPrepended(s, a, states, actions);
      states, actions := [s] + states, [a] + actions;
    } else {
      assert s.outbox[0][0..] == s.outbox[0];
      states, actions := [s, t], [a];
    }
  }

  lemma RunAppended(s: State, states: seq<State>, actions: seq<Action>, a: Action)
    requires IsRunFrom(s, states, actions) && Enabled(states[|actions|], a)
    ensures IsRunFrom(s, states + [Step(states[|actions|], a)], actions + [a])
  {
    hide Enabled, Step;
    var longer, more := states + [Step(states[|actions|], a)], actions + [a];
    forall i | 0 <= i < |more|
      ensures Enabled(longer[i], more[i]) && longer[i + 1] == Step(longer[i], more[i])
    {
      if i < |actions| {
        assert more[i] == actions[i];
      }
    }
  }

  lemma Drains(s: State)
    requires s.writing && s.output != ""
    ensures Enabled(s, HandleWrite(Wrote(|s.output|)))
    ensures Step(s, HandleWrite(Wrote(|s.output|))) == Drained(s.(wire := s.wire + s.output, output := ""))
  {
    assert s.output[..|s.output|] == s.output && s.output[|s.output|..] == "";
  }

  /** The socket takes the bytes that wait, and then the functor of a shutdown runs. */
  lemma DrainedThenShut(s: State, states: seq<State>, actions: seq<Action>) returns (longer: seq<State>, more: seq<Action>)
    requires IsRunFrom(s, states, actions)
    requires var t := states[|actions|];
      t.phase == Disconnecting && t.writing && t.output != "" && t.shutdowns == 0 && t.waiting == 1
    ensures IsRunFrom(s, longer, more) && longer[|more|].shutdowns == 2
  {
    var t := states[|actions|];
    var drain := HandleWrite(Wrote(|t.output|));
    Drains(t);
    RunAppended(s, states, actions, drain);
    longer, more := states + [Step(t, drain)], actions + [drain];
    RunAppended(s, longer, more, RunShutdown);
    longer, more := longer + [Step(Step(t, drain), RunShutdown)], more + [RunShutdown];
  }

  ghost predicate AlwaysShutsCleanly(s: State) {
    forall states: seq<State>, actions: seq<Action> :: IsRunFrom(s, states, actions) ==> ShutCleanly(states[|actions|])
  }

  /** A shutdown() in another thread shuts the write side cleanly in every continuation exactly
      when nothing is waiting at the call, in the output buffer or in functors. */
  lemma ShutsCleanlyIffNothingWaits(s: State)
    requires Inv(s) && s.phase == Connected
    ensures AlwaysShutsCleanly(Step(s, ShutdownElsewhere)) <==> s.output == "" && Silent(s.outbox)
  {
    hide Silent;
    var t := Step(s, ShutdownElsewhere);
    if s.output == "" && Silent(s.outbox) {
      forall states: seq<State>, actions: seq<Action> | IsRunFrom(t, states, actions)
        ensures ShutCleanly(states[|actions|])
      {
        StaysEmptied(t, states, actions, |actions|);
      }
    } else {
      var states, actions := [t], [];
      if s.output == "" {
        states, actions := SendsWait(t);
      }
      states, actions := DrainedThenShut(t, states, actions);
      assert !ShutCleanly(states[|actions|]);
    }
  }

  lemma {:induction false} StaysHalfClosed(s: State, states: seq<State>, actions: seq<Action>, i: nat)
    requires IsRunFrom(s, states, actions) && i <= |actions|
    requires Inv(s) && HalfClosed(s) && (s.phase == Disconnecting || s.phase == Disconnected)
    ensures Inv(states[i]) && HalfClosed(states[i]) && (states[i].phase == Disconnecting || states[i].phase == Disconnected)
  {
    hide Inv, HalfClosed, Step, Enabled;
    if i > 0 {
      StaysHalfClosed(s, states, actions, i - 1);
      var a := actions[i - 1];
      StepKeepsInv(states[i - 1], a);
      StepKeepsHalfClosed(states[i - 1], a);
      StaysDown(states[i - 1], a);
    }
  }

  lemma StaysDown(s: State, a: Action)
    requires Enabled(s, a)
    ensures s.phase == Disconnected ==> Step(s, a).phase == Disconnected
    ensures s.phase == Disconnecting ==> Step(s, a).phase == Disconnecting || Step(s, a).phase == Disconnected
  {
    hide SendInLoop, Writable;
  }

  /** A shutdown() in the loop thread does so exactly when no functor has bytes to send. */
  lemma LoopShutsCleanlyIff(s: State)
    requires Inv(s) && s.phase == Connected
    ensures AlwaysShutsCleanly(Step(s, Shutdown)) <==> Silent(s.outbox)
  {
    hide Silent;
    var t := Step(s, Shutdown);
    if Silent(s.outbox) {
      forall states: seq<State>, actions: seq<Action> | IsRunFrom(t, states, actions)
        ensures ShutCleanly(states[|actions|])
      {
        StepKeepsInv(s, Shutdown);
        StaysHalfClosed(t, states, actions, |actions|);
      }
    } else if s.output == "" {
      var states, actions := SendsWait(t);
      assert !ShutCleanly(states[|actions|]);
    } else {
      var drain := HandleWrite(Wrote(|t.output|));
      Drains(t);
      var states, actions := SendsWait(Step(t, drain));
      RunPrepended(t, drain, states, actions);
      states, actions := [t] + states, [drain] + actions;
      assert !ShutCleanly(states[|actions|]);
    }
  }

  // ----- What a closed connection still sends

  /** Closed, with nothing that could start a write. */
  ghost predicate Quiet(s: State) {
    s.phase == Disconnected && !s.writing && Silent(s.outbox)
  }

  lemma QuietStep(s: State, a: Action)
    requires Quiet(s) && Enabled(s, a)
    ensures Quiet(Step(s, a)) && Step(s, a).wire == s.wire
  {
    hide SendInLoop;
    if a.RunSend? {
      NothingToSend(s, a.result);
    }
  }

  lemma {:induction false} StaysQuiet(s: State, states: seq<State>, actions: seq<Action>, i: nat)
    requires IsRunFrom(s, states, actions) && Quiet(s) && i <= |actions|
    ensures Quiet(states[i]) && states[i].wire == s.wire
  {
    hide Quiet, Step, Enabled;
    if i > 0 {
      StaysQuiet(s, states, actions, i - 1);
      var a := actions[i - 1];
      QuietStep(states[i - 1], a);
    }
  }

  ghost predicate NothingMoreWritten(s: State) {
    forall states: seq<State>, actions: seq<Action> :: IsRunFrom(s, states, actions) ==> states[|actions|].wire == s.wire
  }

  /** After a connection is closed nothing more is written exactly when no functor has bytes to
      send: sendInLoop says that it gives up writing, and goes on. */
  lemma ClosedIsSilentIff(s: State)
    requires Inv(s) && s.phase != Connecting
    ensures NothingMoreWritten(Step(s, HandleClose)) <==> Silent(s.outbox)
  {
    hide Silent;
    var t := Step(s, HandleClose);
    if Silent(s.outbox) {
      forall states: seq<State>, actions: seq<Action> | IsRunFrom(t, states, actions)
        ensures states[|actions|].wire == t.wire
      {
        StaysQuiet(t, states, actions, |actions|);
      }
    } else {
      var states, actions := SendsWait(t);
      var last := states[|actions|];
      var drain := HandleWrite(Wrote(|last.output|));
      Drains(last);
      RunAppended(t, states, actions, drain);
      states, actions := states + [Step(last, drain)], actions + [drain];
      assert states[|actions|].wire == t.wire + last.output;
    }
  }

  // ----- The callbacks

  ghost function Queued(s: State, t: State, lastByte: bool): seq<Callback> {
    (if s.settings.onWriteComplete && lastByte then [WriteComplete] else [])
    + if s.settings.onHighWater && |s.output| < s.settings.highWaterMark <= |t.output| then [HighWater(|t.output|)] else []
  }

  /** A write-complete callback is queued by exactly the steps that hand the last byte to the
      system, a high-water callback by exactly those that carry the waiting bytes over the mark. */
  lemma CallbacksAreExact(s: State, a: Action)
    requires Inv(s) && Enabled(s, a)
    ensures Step(s, a).queued == s.queued + Queued(s, Step(s, a), LastByteLeaves(s, a, Step(s, a)))
  {
    WaitsToWrite(s);
    hide Inv, SendInLoop, Writable;
    match a {
      case Send(data, result) =>
        if s.phase == Connected {
          SendCallbacks(s, data, result);
        }
      case RunSend(result) => SendCallbacks(s.(outbox := s.outbox[1..]), s.outbox[0], result);
      case HandleWrite(result) => WritableCallbacks(s, result);
      case _ =>
    }
  }

  lemma WaitsToWrite(s: State)
    requires Inv(s)
    ensures s.writing ==> s.output != ""
  {
  }

  lemma SendCallbacks(s: State, data: string, result: WriteResult)
    requires (result.Wrote? ==> result.n <= |data|) && (s.writing ==> s.output != "")
    ensures var t := SendInLoop(s, data, result);
            t.queued == s.queued + Queued(s, t, t.output == "" && t.dropped == s.dropped && result.Wrote?)
            && (t.output == "" ==> s.output == "")
  {
  }

  lemma WritableCallbacks(s: State, result: WriteResult)
    requires Inv(s) && (result.Wrote? ==> result.n <= |s.output|)
    ensures var t := Writable(s, result);
            t.queued == s.queued + Queued(s, t, t.output == "" && s.output != "")
  {
  }

  ghost predicate LastByteLeaves(s: State, a: Action, t: State) {
    && t.output == ""
    && (s.output != "" || (((a.Send? && s.phase == Connected) || a.RunSend?) && t.dropped == s.dropped && a.result.Wrote?))
  }

  const UP_AND_DOWN: seq<Notice> := [ConnectionIs(Connected), ConnectionIs(Disconnected), Closed]

  /** The system reports the end of a connection that is down already. */
  ghost predicate ClosesAgain(s: State, a: Action) {
    a.HandleClose? && s.phase == Disconnected
  }

  ghost predicate Told(s: State) {
    match s.phase
    case Connecting => s.told == []
    case Disconnected => s.told == UP_AND_DOWN[..2] || s.told == UP_AND_DOWN
    case _ => s.told == UP_AND_DOWN[..1]
  }

  /** Told a second time that it is down. */
  ghost predicate ToldTooOften(s: State) {
    s.phase == Disconnected && |s.told| > |UP_AND_DOWN|
  }

  lemma StepKeepsTold(s: State, a: Action)
    requires (Told(s) || ToldTooOften(s)) && Enabled(s, a)
    ensures Told(Step(s, a)) <==> Told(s) && !ClosesAgain(s, a)
    ensures ToldTooOften(Step(s, a)) <==> !Told(Step(s, a))
  {
    hide SendInLoop, Writable;
  }

  /** The user is told that the connection is up, that it is down and that it is closed in this
      order, each once at most, exactly as long as it has not been closed again when it was down;
      and that it is down exactly when it is. */
  lemma {:induction false} ToldInOrder(settings: Settings, states: seq<State>, actions: seq<Action>, i: nat)
    requires IsRun(settings, states, actions) && i <= |actions|
    ensures Told(states[i]) || ToldTooOften(states[i])
    ensures states[i].told <= UP_AND_DOWN <==> Told(states[i])
    ensures Told(states[i]) <==> forall j {:trigger actions[j]} :: 0 <= j < i ==> !ClosesAgain(states[j], actions[j])
    ensures |states[i].told| >= 2 <==> states[i].phase == Disconnected
  {
    hide Step, Enabled, ClosesAgain;
    if i > 0 {
      hide Told, ToldTooOften;
      ToldInOrder(settings, states, actions, i - 1);
      var a := actions[i - 1];
      StepKeepsTold(states[i - 1], a);
      ToldIs(states[i]);
    }
  }

  lemma ToldIs(s: State)
    requires Told(s) || ToldTooOften(s)
    ensures s.told <= UP_AND_DOWN <==> Told(s)
    ensures |s.told| >= 2 <==> s.phase == Disconnected
  {
  }
}
