/** The double-buffered log: front ends append lines under a lock, the back end takes the full
    buffers, writes them and recycles two of them.  Each step is one locked section or one action
    of the back end; front ends and back end interleave freely. */
module AsyncLog {
  import opened Options

  const LARGE_BUFFER_SIZE: nat := 4096 * 1000

  /** Where the back-end thread is: not started, at its loop test, waiting or taking the buffers, writing the
      buffer `i` of its batch (or recycling, after the last), or gone. */
  datatype Place = NotStarted | Testing | Waiting | Writing(i: nat) | Exited

  /** A buffer is its text; a pointer that may be null is an option.  `accepted` is a history
      variable: the lines appended so far, without those too long for any buffer. */
  datatype State = State(
    current: string, next: Option<string>, buffers: seq<string>,
    place: Place, running: bool, spare1: Option<string>, spare2: Option<string>,
    batch: seq<string>, file: string, accepted: string)

  ghost function Init(): State {
    State("", Some(""), [], NotStarted, false, None, None, [], "", "")
  }

  datatype Action =
    | Append(line: string)  // append(), all of it under the lock
    | Start                 // running_ = true, and what the thread does before its loop
    | Stop                  // running_ = false
    | Test                  // the back end's loop test
    | Collect               // its locked section, after the wait
    | Write                 // one buffer of the batch to the file
    | Recycle               // from the trim of the batch to the end of the cycle

  /** `FixedBuffer::append`: a line that does not fit with room to spare is dropped. */
  function FixedAppend(buffer: string, line: string): string {
    if LARGE_BUFFER_SIZE as int - |buffer| > |line| then buffer + line else buffer
  }

  ghost predicate Enabled(s: State, a: Action) {
    match a
    case Append(line) => true
    case Start => s.place == NotStarted
    case Stop => true
    case Test => s.place == Testing
    case Collect => s.place == Waiting
    case Write => s.place.Writing? && s.place.i < |s.batch|
    case Recycle => s.place.Writing? && s.place.i >= |s.batch|
  }

  ghost function Missing(spare: Option<string>): nat {
    if spare.Some? then 0 else 1
  }

  ghost function Trimmed(batch: seq<string>): seq<string> {
    if |batch| > 2 then batch[..2] else batch
  }

  /** The pointers the step moves from or dereferences are not null, and it takes the last of no
      empty vector. */
  ghost predicate Safe(s: State, a: Action) {
    match a
    case Collect => s.spare1.Some? && (s.next.None? ==> s.spare2.Some?)
    case Recycle => Missing(s.spare1) + Missing(s.spare2) <= |Trimmed(s.batch)|
    case _ => true
  }

  ghost function Step(s: State, a: Action): State
    requires Enabled(s, a) && Safe(s, a)
  {
    match a
    case Append(line) =>
      var accepted := if |line| < LARGE_BUFFER_SIZE then s.accepted + line else s.accepted;
      if LARGE_BUFFER_SIZE as int - |s.current| > |line| then s.(current := FixedAppend(s.current, line), accepted := accepted)
      else s.(buffers := s.buffers + [s.current],
              current := FixedAppend(if s.next.Some? then s.next.value else "", line),
              next := None, accepted := accepted)
    case Start => s.(running := true, place := Testing, spare1 := Some(""), spare2 := Some(""))
    case Stop => s.(running := false)
    case Test => s.(place := if s.running then Waiting else Exited)
    case Collect =>
      s.(batch := s.buffers + [s.current], buffers := s.batch, current := s.spare1.value, spare1 := None,
         next := if s.next.None? then s.spare2 else s.next, spare2 := if s.next.None? then None else s.spare2,
         place := Writing(0))
    case Write => s.(file := s.file + s.batch[s.place.i], place := Writing(s.place.i + 1))
    case Recycle => s.(spare1 := Recycled(s.spare1), spare2 := Recycled(s.spare2), batch := [], place := Testing)
  }

  /** A missing spare is replaced by a written buffer, reset. */
  ghost function Recycled(spare: Option<string>): Option<string> {
    if spare.None? then Some("") else spare
  }

  // ----- The invariant

  ghost function Join(buffers: seq<string>): string {
    if buffers == [] then "" else buffers[0] + Join(buffers[1..])
  }

  lemma {:induction false} JoinAppended(buffers: seq<string>, last: string)
    ensures Join(buffers + [last]) == Join(buffers) + last
    decreases |buffers|
  {
    if buffers == [] {
      assert buffers + [last] == [last];
      assert Join([last]) == last + Join([]);
    } else {
      JoinAppended(buffers[1..], last);
      assert (buffers + [last])[1..] == buffers[1..] + [last];
    }
  }

  /** The part of the batch that is not in the file yet. */
  ghost function Unwritten(s: State): seq<string> {
    if s.place.Writing? && s.place.i <= |s.batch| then s.batch[s.place.i..] else []
  }

  ghost predicate Empty(spare: Option<string>) {
    spare.Some? ==> spare.value == ""
  }

  ghost predicate Fits(buffers: seq<string>) {
    forall i :: 0 <= i < |buffers| ==> |buffers[i]| < LARGE_BUFFER_SIZE
  }

  ghost predicate Conserved(s: State) {
    s.file + Join(Unwritten(s)) + Join(s.buffers) + s.current == s.accepted
  }

  ghost predicate Inv(s: State) {
    && Conserved(s)
    && Empty(s.next) && Empty(s.spare1) && Empty(s.spare2)
    && (s.next.None? ==> s.buffers != [])
    && |s.current| < LARGE_BUFFER_SIZE && Fits(s.buffers) && Fits(s.batch)
    && if s.place.Writing?
       then s.place.i <= |s.batch| && s.spare1.None? && |s.batch| >= 1 && (s.spare2.None? ==> |s.batch| >= 2)
       else s.batch == [] && if s.place.NotStarted? then s.spare1.None? && s.spare2.None? else s.spare1.Some? && s.spare2.Some?
  }

  lemma InvIsSafe(s: State, a: Action)
    requires Inv(s) && Enabled(s, a)
    ensures Safe(s, a)
  {
  }

  /** Whether or not the line turns the buffer over, it comes behind everything that is there. */
  lemma AppendExtendsStream(s: State, line: string)
    requires Inv(s)
    ensures var t := Step(s, Append(line));
            && Unwritten(t) == Unwritten(s)
            && Join(t.buffers) + t.current == Join(s.buffers) + s.current + if |line| < LARGE_BUFFER_SIZE then line else ""
  {
    hide Fits, Join;
    var t := Step(s, Append(line));
    if LARGE_BUFFER_SIZE as int - |s.current| > |line| {
      assert Join(s.buffers) + (s.current + line) == Join(s.buffers) + s.current + line;
    } else {
      JoinAppended(s.buffers, s.current);
      assert t.current == if |line| < LARGE_BUFFER_SIZE then line else "";
    }
  }

  lemma Behind(front: string, a: string, b: string, c: string, d: string, e: string)
    requires a + b == c + d + e
    ensures front + a + b == front + c + d + e
  {
    assert front + a + b == front + (a + b);
    assert front + c + d + e == front + (c + d + e);
  }

  lemma PrefixOfThree(a: string, b: string, c: string, d: string)
    ensures a <= a + b + c + d
  {
    assert a + b + c + d == a + (b + c + d);
  }

  lemma AppendConserves(s: State, line: string)
    requires Inv(s)
    ensures Conserved(Step(s, Append(line)))
  {
    hide Join, Unwritten, Fits;
    AppendExtendsStream(s, line);
    var t := Step(s, Append(line));
    Behind(s.file + Join(Unwritten(s)), Join(t.buffers), t.current, Join(s.buffers), s.current,
           if |line| < LARGE_BUFFER_SIZE then line else "");
  }

  lemma AppendKeepsInv(s: State, line: string)
    requires Inv(s)
    ensures Inv(Step(s, Append(line)))
  {
    hide Conserved;
    AppendConserves(s, line);
  }

  lemma CollectKeepsInv(s: State)
    requires Inv(s) && Enabled(s, Collect)
    ensures Safe(s, Collect) && Inv(Step(s, Collect))
  {
    var t := Step(s, Collect);
    JoinAppended(s.buffers, s.current);
    assert Unwritten(t) == s.buffers + [s.current];
    assert s.file + (Join(s.buffers) + s.current) + "" + "" == s.file + "" + Join(s.buffers) + s.current;
  }

  lemma WriteConserves(s: State)
    requires Inv(s) && Enabled(s, Write)
    ensures Conserved(Step(s, Write))
  {
    hide Fits, Unwritten, Join;
    var b, rest := s.batch[s.place.i], Join(Unwritten(Step(s, Write)));
    NextUnwritten(s);
    assert s.file + (b + rest) == s.file + b + rest;
  }

  lemma NextUnwritten(s: State)
    requires Enabled(s, Write)
    ensures Join(Unwritten(s)) == s.batch[s.place.i] + Join(Unwritten(Step(s, Write)))
  {
    var b, rest := s.batch[s.place.i], Unwritten(Step(s, Write));
    assert Unwritten(s) == [b] + rest;
    assert ([b] + rest)[1..] == rest;
  }

  lemma WriteKeepsInv(s: State)
    requires Inv(s) && Enabled(s, Write)
    ensures Inv(Step(s, Write))
  {
    hide Conserved, Fits;
    WriteConserves(s);
  }

  lemma StepKeepsInv(s: State, a: Action)
    requires Inv(s) && Enabled(s, a)
    ensures Safe(s, a) && Inv(Step(s, a))
  {
    match a
    case Append(line) => AppendKeepsInv(s, line);
    case Collect => CollectKeepsInv(s);
    case Write => WriteKeepsInv(s);
    case _ =>
  }

  // ----- Every interleaving

  ghost predicate IsRun(states: seq<State>, actions: seq<Action>) {
    && |states| == |actions| + 1 && states[0] == Init()
    && forall i {:trigger actions[i]} :: 0 <= i < |actions| ==>
         Enabled(states[i], actions[i]) && (Safe(states[i], actions[i]) ==> states[i + 1] == Step(states[i], actions[i]))
  }

  lemma {:induction false} RunKeepsInv(states: seq<State>, actions: seq<Action>, i: nat)
    requires IsRun(states, actions) && i <= |actions|
    ensures Inv(states[i])
  {
    hide Step, Enabled, Safe, Inv;
    if i == 0 {
      InitInv();
    } else {
      RunKeepsInv(states, actions, i - 1);
      var a := actions[i - 1];
      StepKeepsInv(states[i - 1], a);
    }
  }

  lemma InitInv()
    ensures Inv(Init())
  {
  }

  /** No step of any run takes the last buffer of an empty batch or moves from a null pointer. */
  lemma EveryStepIsSafe(states: seq<State>, actions: seq<Action>, i: nat)
    requires IsRun(states, actions) && i < |actions|
    ensures Safe(states[i], actions[i])
  {
    RunKeepsInv(states, actions, i);
    InvIsSafe(states[i], actions[i]);
  }

  /** The lines appended, without those too long for any buffer. */
  ghost function Lines(actions: seq<Action>): string {
    if actions == [] then ""
    else
      var last := actions[|actions| - 1];
      Lines(actions[..|actions| - 1]) + if last.Append? && |last.line| < LARGE_BUFFER_SIZE then last.line else ""
  }

  lemma {:induction false} AcceptedAreLines(states: seq<State>, actions: seq<Action>, i: nat)
    requires IsRun(states, actions) && i <= |actions|
    ensures states[i].accepted == Lines(actions[..i])
  {
    hide Inv;
    if i > 0 {
      AcceptedAreLines(states, actions, i - 1);
      EveryStepIsSafe(states, actions, i - 1);
      assert actions[..i][..i - 1] == actions[..i - 1] && actions[..i][i - 1] == actions[i - 1];
    }
  }

  /** Conservation: the file, the rest of the batch, the full buffers and the current buffer are,
      in this order, all lines that fit a buffer; so the file is a prefix of the log. */
  lemma LogIsConserved(states: seq<State>, actions: seq<Action>, i: nat)
    requires IsRun(states, actions) && i <= |actions|
    ensures var s, log := states[i], Lines(actions[..i]);
            && s.file + Join(Unwritten(s)) + Join(s.buffers) + s.current == log == s.accepted
            && s.file <= log
  {
    hide Join, Unwritten, Fits, Step, Lines;
    RunKeepsInv(states, actions, i);
    AcceptedAreLines(states, actions, i);
    PrefixOfThree(states[i].file, Join(Unwritten(states[i])), Join(states[i].buffers), states[i].current);
  }

  /** At every start of a cycle the back end has two empty spare buffers. */
  lemma SparesAtCycleStart(states: seq<State>, actions: seq<Action>, i: nat)
    requires IsRun(states, actions) && i <= |actions| && states[i].place == Testing
    ensures states[i].spare1 == Some("") && states[i].spare2 == Some("") && states[i].batch == []
    ensures states[i].next.None? ==> states[i].buffers != []
  {
    RunKeepsInv(states, actions, i);
  }

  /** How much has left the locked part: what is in the file, and what is about to be. */
  ghost function Taken(s: State): nat {
    |s.file| + |Join(Unwritten(s))|
  }

  lemma WriteKeepsTaken(s: State)
    requires Enabled(s, Write)
    ensures Taken(Step(s, Write)) == Taken(s)
  {
    hide Join, Unwritten;
    NextUnwritten(s);
  }

  lemma AcceptedGrows(s: State, a: Action)
    requires Enabled(s, a) && Safe(s, a)
    ensures s.accepted <= Step(s, a).accepted
  {
    hide FixedAppend, Trimmed;
  }

  lemma TakenGrows(s: State, a: Action)
    requires Inv(s) && Enabled(s, a) && Safe(s, a)
    ensures Taken(s) <= Taken(Step(s, a))
  {
    hide Inv, Join, Unwritten, FixedAppend, Trimmed;
    match a
    case Append(line) => AppendExtendsStream(s, line);
    case Collect => NothingUnwritten(s);
    case Write => WriteKeepsTaken(s);
    case Recycle => JoinOfNone(s);
    case Start => SameUnwritten(s, Step(s, a));
    case Stop => SameUnwritten(s, Step(s, a));
    case Test => SameUnwritten(s, Step(s, a));
  }

  lemma SameUnwritten(s: State, t: State)
    requires s.batch == t.batch && (s.place == t.place || (!s.place.Writing? && !t.place.Writing?))
    ensures Unwritten(s) == Unwritten(t)
  {
  }

  lemma NothingUnwritten(s: State)
    requires !s.place.Writing?
    ensures Join(Unwritten(s)) == ""
  {
  }

  lemma {:induction false} RunGrows(states: seq<State>, actions: seq<Action>, i: nat, j: nat)
    requires IsRun(states, actions) && i <= j <= |actions|
    ensures states[i].accepted <= states[j].accepted
    ensures Taken(states[i]) <= Taken(states[j])
  {
    hide Step, Enabled, Inv, Safe, Taken;
    if i < j {
      RunGrows(states, actions, i, j - 1);
      RunKeepsInv(states, actions, j - 1);
      EveryStepIsSafe(states, actions, j - 1);
      var a := actions[j - 1];
      AcceptedGrows(states[j - 1], a);
      TakenGrows(states[j - 1], a);
    }
  }

  lemma CollectTakesAll(s: State)
    requires Inv(s) && Enabled(s, Collect)
    ensures Safe(s, Collect)
    ensures Taken(Step(s, Collect)) == |s.accepted|
  {
    JoinAppended(s.buffers, s.current);
    assert Unwritten(Step(s, Collect)) == s.buffers + [s.current];
  }

  /** Everything accepted before the back end takes the buffers is in the file when it recycles. */
  lemma CycleWritesAll(states: seq<State>, actions: seq<Action>, i: nat, collect: nat, end: nat)
    requires IsRun(states, actions) && i <= collect < end < |actions|
    requires actions[collect] == Collect && actions[end] == Recycle
    ensures Lines(actions[..i]) <= states[end].file
  {
    hide Step, Inv, Safe, Join, Lines;
    AcceptedAreLines(states, actions, i);
    RunKeepsInv(states, actions, collect);
    EveryStepIsSafe(states, actions, collect);
    RunGrows(states, actions, i, collect);
    RunGrows(states, actions, collect + 1, end);
    RunGrows(states, actions, collect, end);
    assert Enabled(states[collect], actions[collect]) && Enabled(states[end], actions[end]);
    CollectTakesAll(states[collect]);
    LogIsConserved(states, actions, end);
    assert Join(Unwritten(states[end])) == "" by { JoinOfNone(states[end]); }
  }

  lemma JoinOfNone(s: State)
    requires Enabled(s, Recycle)
    ensures Join(Unwritten(s)) == ""
  {
  }

  // ----- How full the buffers are

  /** A buffer is handed over exactly when the line does not fit with room to spare; the line then
      starts the next one, or is lost if it is too long for any. */
  lemma TurnsOverIff(s: State, line: string)
    requires Inv(s)
    ensures var t := Step(s, Append(line));
      if |s.current| + |line| < LARGE_BUFFER_SIZE then
        t.current == s.current + line && t.buffers == s.buffers && t.next == s.next
      else
        && t.buffers == s.buffers + [s.current] && t.next == None
        && t.current == if |line| < LARGE_BUFFER_SIZE then line else ""
  {
  }

  /** Taking the buffers leaves the front end with two empty ones, and everything it had, the
      unfinished buffer last, in the batch. */
  lemma CollectTakesBuffers(s: State)
    requires Inv(s) && Enabled(s, Collect)
    ensures Safe(s, Collect)
    ensures var t := Step(s, Collect);
      && t.batch == s.buffers + [s.current] && t.place == Writing(0)
      && t.buffers == [] && t.current == "" && t.next == Some("") && t.file == s.file
  {
  }

  // ----- The rounds of the back end

  /** The actions of the back-end thread. */
  ghost predicate IsBackEnd(a: Action) {
    !a.Append? && !a.Stop?
  }

  /** The last of them. */
  ghost function LastBackEnd(actions: seq<Action>): seq<Action> {
    if actions == [] then []
    else if IsBackEnd(actions[|actions| - 1]) then [actions[|actions| - 1]]
    else LastBackEnd(actions[..|actions| - 1])
  }

  /** What may come before `a`: take, write, recycle, and round again. */
  ghost predicate ComesAfter(a: Action, last: seq<Action>) {
    match a
    case Start => last == []
    case Test => last == [Start] || last == [Recycle]
    case Collect => last == [Test]
    case Write => last == [Collect] || last == [Write]
    case Recycle => last == [Write]
    case _ => true
  }

  ghost predicate PlaceAfter(place: Place, last: seq<Action>) {
    match place
    case NotStarted => last == []
    case Testing => last == [Start] || last == [Recycle]
    case Waiting => last == [Test]
    case Writing(i) => if i == 0 then last == [Collect] else last == [Write]
    case Exited => last == [Test]
  }

  /** The back end goes its rounds in the order of the program, whatever the front ends do; every
      round writes at least one buffer. */
  lemma {:induction false} LogGoesRounds(states: seq<State>, actions: seq<Action>, i: nat)
    requires IsRun(states, actions) && i <= |actions|
    ensures PlaceAfter(states[i].place, LastBackEnd(actions[..i]))
    ensures i < |actions| ==> ComesAfter(actions[i], LastBackEnd(actions[..i]))
  {
    hide Step, Enabled, Safe, Inv, PlaceAfter, ComesAfter;
    if i > 0 {
      LogGoesRounds(states, actions, i - 1);
      EveryStepIsSafe(states, actions, i - 1);
      var a := actions[i - 1];
      assert actions[..i][..i - 1] == actions[..i - 1] && actions[..i][i - 1] == a;
      PlaceFollows(states[i - 1], a, actions[..i]);
    } else {
      AtFirst();
    }
    if i < |actions| {
      RunKeepsInv(states, actions, i);
      var a := actions[i];
      EnabledAfter(states[i], a, LastBackEnd(actions[..i]));
    }
  }

  lemma AtFirst()
    ensures PlaceAfter(Init().place, LastBackEnd([]))
  {
  }

  lemma PlaceFollows(s: State, a: Action, actions: seq<Action>)
    requires Enabled(s, a) && Safe(s, a) && actions != [] && actions[|actions| - 1] == a
    requires PlaceAfter(s.place, LastBackEnd(actions[..|actions| - 1]))
    ensures PlaceAfter(Step(s, a).place, LastBackEnd(actions))
  {
    hide FixedAppend, Trimmed;
  }

  lemma EnabledAfter(s: State, a: Action, last: seq<Action>)
    requires Inv(s) && Enabled(s, a) && PlaceAfter(s.place, last)
    ensures ComesAfter(a, last)
  {
    hide Conserved, Fits;
  }

  /** The back end is never stuck, however little there is to write; and front ends can append and
      stop at any time. */
  lemma NeverStuck(s: State)
    requires Inv(s)
    ensures match s.place
      case NotStarted => Enabled(s, Start)
      case Testing => Enabled(s, Test)
      case Waiting => Enabled(s, Collect) && Safe(s, Collect)
      case Writing(i) => if i < |s.batch| then Enabled(s, Write) else Enabled(s, Recycle) && Safe(s, Recycle)
      case Exited => true
    ensures Enabled(s, Stop) && forall line :: Enabled(s, Append(line)) && Safe(s, Append(line))
  {
  }

  /** The log has been started, and not stopped since. */
  ghost predicate IsOn(actions: seq<Action>) {
    exists j {:trigger actions[j]} :: 0 <= j < |actions| && actions[j].Start?
      && forall k {:trigger actions[k]} :: j < k < |actions| ==> !actions[k].Stop?
  }

  lemma IsOnNext(actions: seq<Action>, a: Action)
    ensures IsOn(actions + [a]) <==> a.Start? || (IsOn(actions) && !a.Stop?)
  {
    var more := actions + [a];
    assert forall j :: 0 <= j < |actions| ==> more[j] == actions[j];
    assert more[|actions|] == a;
  }

  lemma {:induction false} RunningIffOn(states: seq<State>, actions: seq<Action>, i: nat)
    requires IsRun(states, actions) && i <= |actions|
    ensures states[i].running <==> IsOn(actions[..i])
  {
    hide Enabled, Safe, Step, Inv, IsOn;
    if i > 0 {
      RunningIffOn(states, actions, i - 1);
      EveryStepIsSafe(states, actions, i - 1);
      var a := actions[i - 1];
      assert actions[..i] == actions[..i - 1] + [a];
      IsOnNext(actions[..i - 1], a);
      RunningAfter(states[i - 1], a);
    } else {
      NobodyStarted();
    }
  }

  lemma NobodyStarted()
    ensures !IsOn([])
  {
  }

  lemma RunningAfter(s: State, a: Action)
    requires Enabled(s, a) && Safe(s, a)
    ensures Step(s, a).running <==> a.Start? || (s.running && !a.Stop?)
  {
    hide FixedAppend, Trimmed;
  }

  /** The back end exits at exactly the tests that come after a stop(), and nowhere else. */
  lemma LogEndsIffStopped(states: seq<State>, actions: seq<Action>, i: nat)
    requires IsRun(states, actions) && i < |actions|
    ensures actions[i] == Test ==> states[i + 1].place == if IsOn(actions[..i]) then Waiting else Exited
    ensures actions[i] != Test && states[i + 1].place == Exited ==> states[i].place == Exited
  {
    hide Inv, IsOn, Trimmed, FixedAppend;
    RunningIffOn(states, actions, i);
    EveryStepIsSafe(states, actions, i);
  }

  // ----- What a stopped log has written

  /** The actions up to the last time the buffers were taken. */
  ghost function UpToCollect(actions: seq<Action>): (front: seq<Action>)
    ensures |front| <= |actions| && front == actions[..|front|]
    ensures forall j {:trigger actions[j]} :: |front| <= j < |actions| ==> actions[j] != Collect
    ensures front == [] || front[|front| - 1] == Collect
  {
    if actions == [] || actions[|actions| - 1] == Collect then actions else UpToCollect(actions[..|actions| - 1])
  }

  lemma {:induction false} TakenUpToCollect(states: seq<State>, actions: seq<Action>, i: nat)
    requires IsRun(states, actions) && i <= |actions|
    ensures states[i].file + Join(Unwritten(states[i])) == Lines(UpToCollect(actions[..i]))
  {
    hide Inv, Lines, Join, Unwritten, Step, Enabled, Safe;
    if i == 0 {
      NothingTaken();
    } else {
      var a := actions[i - 1];
      assert actions[..i][..i - 1] == actions[..i - 1] && actions[..i][i - 1] == a;
      TakenUpToCollect(states, actions, i - 1);
      RunKeepsInv(states, actions, i - 1);
      RunKeepsInv(states, actions, i);
      EveryStepIsSafe(states, actions, i - 1);
      if a == Collect {
        AcceptedAreLines(states, actions, i);
        CollectedAll(states[i - 1]);
      } else {
        OthersTakeNothing(states[i - 1], a);
      }
    }
  }

  lemma NothingTaken()
    ensures Init().file + Join(Unwritten(Init())) == Lines([])
  {
  }

  lemma CollectedAll(s: State)
    requires Inv(s) && Enabled(s, Collect)
    ensures Safe(s, Collect)
    ensures var t := Step(s, Collect); t.file + Join(Unwritten(t)) == t.accepted
  {
    hide Join, Fits;
    CollectKeepsInv(s);
    var t := Step(s, Collect);
    NothingHeld();
    assert t.file + Join(Unwritten(t)) + "" + "" == t.file + Join(Unwritten(t));
  }

  lemma NothingHeld()
    ensures Join([]) == ""
  {
  }

  lemma OthersTakeNothing(s: State, a: Action)
    requires Inv(s) && Enabled(s, a) && Safe(s, a) && a != Collect
    ensures var t := Step(s, a); t.file + Join(Unwritten(t)) == s.file + Join(Unwritten(s))
  {
    hide Inv, Join, Unwritten, FixedAppend, Trimmed;
    var t := Step(s, a);
    match a
    case Append(line) => AppendExtendsStream(s, line);
    case Write =>
      NextUnwritten(s);
      assert s.file + s.batch[s.place.i] + Join(Unwritten(t)) == s.file + (s.batch[s.place.i] + Join(Unwritten(t)));
    case Recycle =>
      JoinOfNone(s);
      NothingUnwritten(t);
    case Start => SameUnwritten(s, t);
    case Stop => SameUnwritten(s, t);
    case Test => SameUnwritten(s, t);
  }

  /** A back end that has exited has written exactly the lines appended before it last took the
      buffers; so the file is complete exactly when nothing is left in the buffers. */
  lemma ExitedLogHasWritten(states: seq<State>, actions: seq<Action>, i: nat)
    requires IsRun(states, actions) && i <= |actions| && states[i].place == Exited
    ensures var s := states[i];
      && s.file == Lines(UpToCollect(actions[..i]))
      && (s.file == Lines(actions[..i]) <==> Join(s.buffers) + s.current == "")
  {
    hide Lines, Join, Unwritten, Step;
    var s := states[i];
    TakenUpToCollect(states, actions, i);
    LogIsConserved(states, actions, i);
    NothingUnwritten(s);
    assert s.file + "" == s.file && s.file + "" + Join(s.buffers) + s.current == s.file + (Join(s.buffers) + s.current);
  }

  /** The other case occurs: a line appended just before the log is stopped is never written. */
  lemma StopLosesLine() returns (states: seq<State>, actions: seq<Action>)
    ensures IsRun(states, actions)
    ensures var s := states[|actions|]; s.place == Exited && s.file == "" && s.accepted == "x"
  {
    var s1 := Step(Init(), Start);
    var s2 := Step(s1, Append("x"));
    var s3 := Step(s2, Stop);
    states, actions := [Init(), s1, s2, s3, Step(s3, Test)], [Start, Append("x"), Stop, Test];
  }
}
