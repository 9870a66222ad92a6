/** The asynchronous log as objects: buffers are moved between the fields of the front end and the
    locals of the back end, and no buffer is ever in two places.  Each method is proved to make
    one step of AsyncLog on the abstract log `model`. */
module AsyncLogging {
  import opened AsyncLog
  import opened LogStream
  import opened Options

  // ----- Who holds which buffer

  /** The one place that holds a buffer. */
  datatype Spot = Current | Next | Full(i: nat) | Spare1 | Spare2 | Batch(i: nat)

  type Spots = map<FixedBuffer, Spot>
  type Texts = map<FixedBuffer, string>

  /** The pointers shared under the lock, and those of the back-end thread. */
  datatype Front = Front(current: FixedBuffer, next: FixedBuffer?, buffers: seq<FixedBuffer>)
  datatype Back = Back(spare1: FixedBuffer?, spare2: FixedBuffer?, batch: seq<FixedBuffer>)

  ghost predicate Holds(spot: Spots, text: Texts, b: FixedBuffer?, where: Spot, t: Option<string>) {
    if b == null then t == None else b in spot && spot[b] == where && b in text && t == Some(text[b])
  }

  ghost predicate FrontHolds(spot: Spots, text: Texts, f: Front, s: State) {
    && Holds(spot, text, f.current, Current, Some(s.current))
    && Holds(spot, text, f.next, Next, s.next)
    && |f.buffers| == |s.buffers|
    && forall i :: 0 <= i < |f.buffers| ==> Holds(spot, text, f.buffers[i], Full(i), Some(s.buffers[i]))
  }

  ghost predicate BackHolds(spot: Spots, text: Texts, b: Back, s: State) {
    && Holds(spot, text, b.spare1, Spare1, s.spare1)
    && Holds(spot, text, b.spare2, Spare2, s.spare2)
    && |b.batch| == |s.batch|
    && forall i :: 0 <= i < |b.batch| ==> Holds(spot, text, b.batch[i], Batch(i), Some(s.batch[i]))
  }

  ghost function TurnedOver(s: State): State {
    s.(current := "", next := None, buffers := s.buffers + [s.current])
  }

  ghost function Appended(s: State, line: string): State {
    s.(current := FixedAppend(s.current, line), accepted := if |line| < LARGE_BUFFER_SIZE then s.accepted + line else s.accepted)
  }

  /** Handing the current buffer over to the full ones, with `x` in its place: the next buffer or
      one that nobody holds. */
  lemma InstallHolds(spot: Spots, text: Texts, f: Front, b: Back, s: State, x: FixedBuffer)
    requires FrontHolds(spot, text, f, s) && BackHolds(spot, text, b, s)
    requires x in text && text[x] == "" && (f.next != null ==> x == f.next) && (f.next == null ==> x !in spot)
    ensures var spot' := spot[f.current := Full(|f.buffers|)][x := Current];
      && FrontHolds(spot', text, Front(x, null, f.buffers + [f.current]), TurnedOver(s))
      && BackHolds(spot', text, b, TurnedOver(s))
    ensures f.current in text
  {
  }

  /** A buffer that nobody holds yet changes nothing. */
  lemma NewHolds(spot: Spots, text: Texts, f: Front, b: Back, s: State, made: FixedBuffer)
    requires FrontHolds(spot, text, f, s) && BackHolds(spot, text, b, s) && made !in text
    ensures FrontHolds(spot, text[made := ""], f, s) && BackHolds(spot, text[made := ""], b, s)
  {
  }

  lemma SparesHold(spot: Spots, text: Texts, f: Front, b: Back, s: State, b1: FixedBuffer, b2: FixedBuffer)
    requires FrontHolds(spot, text, f, s) && BackHolds(spot, text, b, s) && Enabled(s, Action.Start)
    requires b1 in text && b1 !in spot && text[b1] == "" && b2 in text && b2 !in spot && text[b2] == "" && b1 != b2
    ensures var spot', t := spot[b1 := Spare1][b2 := Spare2], Step(s, Action.Start);
      && FrontHolds(spot', text, f, t) && BackHolds(spot', text, Back(b1, b2, b.batch), t)
      && t.running && t.place == Testing && t.file == s.file
  {
  }

  lemma AppendHolds(spot: Spots, text: Texts, f: Front, b: Back, s: State, line: string)
    requires FrontHolds(spot, text, f, s) && BackHolds(spot, text, b, s)
    ensures var text' := text[f.current := FixedAppend(s.current, line)];
      FrontHolds(spot, text', f, Appended(s, line)) && BackHolds(spot, text', b, Appended(s, line))
    ensures f.current in text && text[f.current] == s.current
  {
    hide FixedAppend;
  }

  /** Stopping and the loop test move no buffer. */
  lemma OnlyFlags(spot: Spots, text: Texts, f: Front, b: Back, s: State, a: Action)
    requires FrontHolds(spot, text, f, s) && BackHolds(spot, text, b, s)
    requires (a == Action.Stop || a == Test) && Enabled(s, a)
    ensures FrontHolds(spot, text, f, Step(s, a)) && BackHolds(spot, text, b, Step(s, a))
    ensures a == Action.Stop ==> Step(s, a) == s.(running := false)
    ensures a == Test ==> Step(s, a) == s.(place := if s.running then Waiting else Exited)
  {
  }

  /** The back end takes the buffers: the two vectors change places. */
  ghost function Swapped(where: Spot): Spot {
    match where
    case Full(i) => Batch(i)
    case Batch(i) => Full(i)
    case _ => where
  }

  ghost function CollectedSpots(spot: Spots, f: Front, b: Back): Spots {
    map x | x in spot ::
      if x == f.current then Batch(|f.buffers|)
      else if x == b.spare1 then Current
      else if x == b.spare2 && f.next == null then Next
      else Swapped(spot[x])
  }

  ghost function CollectedFront(f: Front, b: Back): Front
    requires b.spare1 != null
  {
    Front(b.spare1, if f.next == null then b.spare2 else f.next, b.batch)
  }

  ghost function CollectedBack(f: Front, b: Back): Back {
    Back(null, if f.next == null then null else b.spare2, f.buffers + [f.current])
  }

  lemma CollectedFrontHolds(spot: Spots, text: Texts, f: Front, b: Back, s: State)
    requires FrontHolds(spot, text, f, s) && BackHolds(spot, text, b, s)
    requires Enabled(s, Collect) && Safe(s, Collect)
    ensures b.spare1 != null && FrontHolds(CollectedSpots(spot, f, b), text, CollectedFront(f, b), Step(s, Collect))
  {
  }

  lemma CollectedBackHolds(spot: Spots, text: Texts, f: Front, b: Back, s: State)
    requires FrontHolds(spot, text, f, s) && BackHolds(spot, text, b, s)
    requires Enabled(s, Collect) && Safe(s, Collect)
    ensures BackHolds(CollectedSpots(spot, f, b), text, CollectedBack(f, b), Step(s, Collect))
  {
  }

  lemma CollectMoves(spot: Spots, f: Front, b: Back, s: State)
    requires Enabled(s, Collect) && Safe(s, Collect)
    ensures CollectedSpots(spot, f, b).Keys == spot.Keys
    ensures var t := Step(s, Collect); t.place == Writing(0) && t.running == s.running && t.file == s.file
  {
  }

  lemma WriteHolds(spot: Spots, text: Texts, f: Front, b: Back, s: State)
    requires FrontHolds(spot, text, f, s) && BackHolds(spot, text, b, s) && Enabled(s, Write)
    ensures FrontHolds(spot, text, f, Step(s, Write)) && BackHolds(spot, text, b, Step(s, Write))
    ensures s.place.i < |b.batch| && b.batch[s.place.i] in text
    ensures var t := Step(s, Write);
      t.file == s.file + text[b.batch[s.place.i]] && t.place == Writing(s.place.i + 1) && t.running == s.running
  {
  }

  lemma TrimHolds(spot: Spots, text: Texts, f: Front, b: Back, s: State)
    requires FrontHolds(spot, text, f, s) && BackHolds(spot, text, b, s)
    ensures var t, batch := s.(batch := Trimmed(s.batch)), if |b.batch| > 2 then b.batch[..2] else b.batch;
      FrontHolds(spot, text, f, t) && BackHolds(spot, text, b.(batch := batch), t)
  {
  }

  ghost function Reused1(s: State): State
    requires s.batch != []
  {
    s.(spare1 := Some(s.batch[|s.batch| - 1]), batch := s.batch[..|s.batch| - 1])
  }

  ghost function Reused2(s: State): State
    requires s.batch != []
  {
    s.(spare2 := Some(s.batch[|s.batch| - 1]), batch := s.batch[..|s.batch| - 1])
  }

  /** The last buffer of the batch may take the place of a missing spare. */
  lemma ReuseHolds(spot: Spots, text: Texts, f: Front, b: Back, s: State)
    requires FrontHolds(spot, text, f, s) && BackHolds(spot, text, b, s) && s.batch != []
    ensures |b.batch| == |s.batch| && b.batch[|b.batch| - 1] in text
    ensures var x, batch := b.batch[|b.batch| - 1], b.batch[..|b.batch| - 1];
      && FrontHolds(spot[x := Spare1], text, f, Reused1(s)) && FrontHolds(spot[x := Spare2], text, f, Reused2(s))
      && (b.spare1 == null ==> BackHolds(spot[x := Spare1], text, b.(spare1 := x, batch := batch), Reused1(s)))
      && (b.spare2 == null ==> BackHolds(spot[x := Spare2], text, b.(spare2 := x, batch := batch), Reused2(s)))
  {
  }

  /** Emptying a spare empties no other buffer. */
  lemma ResetHolds(spot: Spots, text: Texts, f: Front, b: Back, s: State)
    requires FrontHolds(spot, text, f, s) && BackHolds(spot, text, b, s)
    ensures b.spare1 != null ==>
      && b.spare1 in text && FrontHolds(spot, text[b.spare1 := ""], f, s.(spare1 := Some("")))
      && BackHolds(spot, text[b.spare1 := ""], b, s.(spare1 := Some("")))
    ensures b.spare2 != null ==>
      && b.spare2 in text && FrontHolds(spot, text[b.spare2 := ""], f, s.(spare2 := Some("")))
      && BackHolds(spot, text[b.spare2 := ""], b, s.(spare2 := Some("")))
  {
  }

  lemma ClearHolds(spot: Spots, text: Texts, f: Front, b: Back, s: State)
    requires FrontHolds(spot, text, f, s) && BackHolds(spot, text, b, s)
    ensures var t := s.(batch := [], place := Testing);
      FrontHolds(spot, text, f, t) && BackHolds(spot, text, b.(batch := []), t)
  {
  }

  lemma EnoughToRecycle(s: State)
    requires Inv(s) && Enabled(s, Recycle)
    ensures Safe(s, Recycle)
    ensures s.spare1 == None ==> Trimmed(s.batch) != []
    ensures s.spare2 == None ==> if s.spare1 == None then |Trimmed(s.batch)| >= 2 else Trimmed(s.batch) != []
  {
  }

  lemma RecycleInFour(s: State)
    requires Enabled(s, Recycle) && Safe(s, Recycle)
    ensures Step(s, Recycle) ==
            s.(spare1 := if s.spare1.None? then Some("") else s.spare1, spare2 := if s.spare2.None? then Some("") else s.spare2,
               batch := [], place := Testing)
  {
  }

  class AsyncLogging {
    var running: bool
    var currentBuffer: FixedBuffer
    var nextBuffer: FixedBuffer?
    var buffers: seq<FixedBuffer>
    // the back-end thread
    var place: Place
    var newBuffer1: FixedBuffer?
    var newBuffer2: FixedBuffer?
    var buffersToWrite: seq<FixedBuffer>
    var file: string
    ghost var model: State
    ghost var spot: Spots
    ghost var text: Texts
    ghost var owner: map<array<char>, FixedBuffer>

    ghost function FrontEnd(): Front
      reads `currentBuffer, `nextBuffer, `buffers
    {
      Front(currentBuffer, nextBuffer, buffers)
    }

    ghost function BackEnd(): Back
      reads `newBuffer1, `newBuffer2, `buffersToWrite
    {
      Back(newBuffer1, newBuffer2, buffersToWrite)
    }

    /** The buffers say what `text` says, each in an array of its own. */
    ghost predicate Faithful()
      reads `text, `owner, text.Keys, owner.Keys
    {
      forall b :: b in text ==>
        && b.Valid() && b.data in owner.Keys && owner[b.data] == b
        && b.data.Length == LARGE_BUFFER_SIZE && b.Contents() == text[b]
    }

    ghost predicate Linked()
      reads this
    {
      && spot.Keys <= text.Keys
      && running == model.running && place == model.place && file == model.file
      && FrontHolds(spot, text, FrontEnd(), model) && BackHolds(spot, text, BackEnd(), model)
    }

    ghost predicate Valid()
      reads this, text.Keys, owner.Keys
    {
      Faithful() && Linked() && Inv(model)
    }

    constructor ()
      ensures Valid() && model == Init() && fresh(text.Keys) && fresh(owner.Keys)
    {
      hide Inv, AsyncLogging.Faithful, AsyncLogging.Linked;
      InitInv();
      var b1 := new FixedBuffer(LARGE_BUFFER_SIZE);
      var b2 := new FixedBuffer(LARGE_BUFFER_SIZE);
      currentBuffer, nextBuffer, buffers := b1, b2, [];
      newBuffer1, newBuffer2, buffersToWrite := null, null, [];
      running, place, file, model := false, NotStarted, "", Init();
      spot, text, owner := map[b1 := Current, b2 := Next], map[b1 := "", b2 := ""], map[b1.data := b1, b2.data := b2];
      new;
      StartIsLinked(b1, b2);
      StartIsFaithful(b1, b2);
    }

    lemma StartIsLinked(b1: FixedBuffer, b2: FixedBuffer)
      requires b1 != b2 && spot == map[b1 := Current, b2 := Next] && text == map[b1 := "", b2 := ""]
      requires !running && place == NotStarted && file == "" && model == Init()
      requires FrontEnd() == Front(b1, b2, []) && BackEnd() == Back(null, null, [])
      ensures Linked()
    {
    }

    lemma StartIsFaithful(b1: FixedBuffer, b2: FixedBuffer)
      requires forall b :: b in [b1, b2] ==> b.Valid() && b.Contents() == "" && b.data.Length == LARGE_BUFFER_SIZE
      requires b1.data != b2.data && text == map[b1 := "", b2 := ""] && owner == map[b1.data := b1, b2.data := b2]
      ensures Faithful()
    {
    }

    /** `start`, with what the back-end thread does before its loop. */
    method Start()
      requires Valid() && Enabled(model, Action.Start)
      modifies `running, `place, `newBuffer1, `newBuffer2, `spot, `text, `owner, `model
      ensures Valid() && model == Step(old(model), Action.Start)
      ensures fresh(text.Keys - old(text.Keys)) && fresh(owner.Keys - old(owner.Keys))
    {
      hide Inv, Step, AsyncLogging.Faithful, AsyncLogging.Linked;
      StepKeepsInv(model, Action.Start);
      var b1 := NewBuffer();
      var b2 := NewBuffer();
      TakeSpares(b1, b2);
    }

    method TakeSpares(b1: FixedBuffer, b2: FixedBuffer)
      requires Linked() && Enabled(model, Action.Start) && b1 != b2
      requires b1 in text && b1 !in spot && text[b1] == "" && b2 in text && b2 !in spot && text[b2] == ""
      modifies `running, `place, `newBuffer1, `newBuffer2, `spot, `model
      ensures Linked() && model == Step(old(model), Action.Start)
    {
      hide FrontHolds, BackHolds, Holds, Step;
      SparesHold(spot, text, FrontEnd(), BackEnd(), model, b1, b2);
      running, place, newBuffer1, newBuffer2 := true, Testing, b1, b2;
      spot, model := spot[b1 := Spare1][b2 := Spare2], Step(model, Action.Start);
    }

    method NewBuffer() returns (made: FixedBuffer)
      requires Faithful() && Linked()
      modifies `text, `owner
      ensures Faithful() && Linked() && made !in spot && made !in old(text) && text == old(text)[made := ""]
      ensures fresh(text.Keys - old(text.Keys)) && fresh(owner.Keys - old(owner.Keys))
    {
      hide FrontHolds, BackHolds, AsyncLogging.Faithful;
      made := Allocate();
      NewHolds(spot, old(text), FrontEnd(), BackEnd(), model, made);
    }

    method Allocate() returns (made: FixedBuffer)
      requires Faithful()
      modifies `text, `owner
      ensures Faithful() && fresh(made) && made !in old(text) && text == old(text)[made := ""]
      ensures fresh(made.data) && owner == old(owner)[made.data := made]
    {
      made := new FixedBuffer(LARGE_BUFFER_SIZE);
      text, owner := text[made := ""], owner[made.data := made];
    }

    /** `FixedBuffer::append`. */
    method Fill(b: FixedBuffer, line: string)
      requires Faithful() && b in text
      modifies `text, b, b.data
      ensures Faithful() && text == old(text)[b := FixedAppend(old(text)[b], line)]
    {
      b.Append(line);
      text := text[b := FixedAppend(text[b], line)];
    }

    lemma ArrayIsOwned(b: FixedBuffer)
      requires Faithful() && b in text
      ensures b.data in owner.Keys
    {
    }

    method Append(line: string)
      requires Valid()
      modifies this, text.Keys, owner.Keys
      ensures Valid() && model == Step(old(model), Action.Append(line))
      ensures fresh(text.Keys - old(text.Keys)) && fresh(owner.Keys - old(owner.Keys))
    {
      hide Inv, AsyncLogging.Faithful, AsyncLogging.Linked, FixedAppend;
      AppendKeepsInv(model, line);
      SparesAreEmpty(model);
      var avail := Avail();
      if avail <= |line| {
        TurnOver();
      }
      ArrayIsOwned(currentBuffer);
      AppendToCurrent(line);
    }

    /** The full buffer goes to the others, and the next one, or a new one, takes its place. */
    method TurnOver()
      requires Faithful() && Linked() && Empty(model.next)
      modifies `currentBuffer, `nextBuffer, `buffers, `spot, `text, `owner, `model
      ensures Faithful() && Linked() && model == TurnedOver(old(model)) && currentBuffer in text
      ensures fresh(text.Keys - old(text.Keys)) && fresh(owner.Keys - old(owner.Keys))
    {
      hide AsyncLogging.Faithful, AsyncLogging.Linked;
      NextIsThere();
      if nextBuffer != null {
        Install(nextBuffer);
      } else {
        var made := NewBuffer();
        Install(made);
      }
    }

    method Install(b: FixedBuffer)
      requires Linked() && b in text && text[b] == ""
      requires (nextBuffer != null ==> b == nextBuffer) && (nextBuffer == null ==> b !in spot)
      modifies `currentBuffer, `nextBuffer, `buffers, `spot, `model
      ensures Linked() && model == TurnedOver(old(model)) && currentBuffer in text
    {
      hide FrontHolds, BackHolds;
      InstallHolds(spot, text, FrontEnd(), BackEnd(), model, b);
      spot := spot[currentBuffer := Full(|buffers|)][b := Current];
      buffers := buffers + [currentBuffer];
      currentBuffer, nextBuffer := b, null;
      model := TurnedOver(model);
    }

    lemma NextIsThere()
      requires Linked()
      ensures nextBuffer == null <==> model.next == None
      ensures currentBuffer in text && (nextBuffer != null ==> nextBuffer in text && model.next == Some(text[nextBuffer]))
    {
    }

    method Avail() returns (avail: int)
      requires Faithful() && Linked()
      ensures avail == LARGE_BUFFER_SIZE - |model.current|
      ensures currentBuffer in text
    {
      avail := currentBuffer.Avail();
    }

    method Stop()
      requires Valid()
      modifies `running, `model
      ensures Valid() && model == Step(old(model), Action.Stop)
    {
      hide Inv, FrontHolds, BackHolds, Step, AsyncLogging.Faithful;
      StepKeepsInv(model, Action.Stop);
      OnlyFlags(spot, text, FrontEnd(), BackEnd(), model, Action.Stop);
      running, model := false, Step(model, Action.Stop);
    }

    /** The loop test of the back end. */
    method Test()
      requires Valid() && Enabled(model, Action.Test)
      modifies `place, `model
      ensures Valid() && model == Step(old(model), Action.Test)
    {
      hide Inv, FrontHolds, BackHolds, Step, AsyncLogging.Faithful;
      StepKeepsInv(model, Action.Test);
      OnlyFlags(spot, text, FrontEnd(), BackEnd(), model, Action.Test);
      place := if running then Waiting else Exited;
      model := Step(model, Action.Test);
    }

    /** The locked section of the back end, after its wait. */
    method CollectBuffers()
      requires Valid() && Enabled(model, Collect)
      modifies `currentBuffer, `nextBuffer, `buffers, `newBuffer1, `newBuffer2, `buffersToWrite, `place, `spot, `model
      ensures Valid() && Safe(old(model), Collect) && model == Step(old(model), Collect)
    {
      hide Inv, FrontHolds, BackHolds, CollectedSpots, CollectedFront, CollectedBack, Step, AsyncLogging.Faithful;
      CollectKeepsInv(model);
      CollectMoves(spot, FrontEnd(), BackEnd(), model);
      CollectedFrontHolds(spot, text, FrontEnd(), BackEnd(), model);
      CollectedBackHolds(spot, text, FrontEnd(), BackEnd(), model);
      spot := CollectedSpots(spot, FrontEnd(), BackEnd());
      SwapBuffers();
      model := Step(model, Collect);
    }

    method SwapBuffers()
      requires newBuffer1 != null
      modifies `currentBuffer, `nextBuffer, `buffers, `newBuffer1, `newBuffer2, `buffersToWrite, `place
      ensures place == Writing(0)
      ensures FrontEnd() == CollectedFront(old(FrontEnd()), old(BackEnd()))
      ensures BackEnd() == CollectedBack(old(FrontEnd()), old(BackEnd()))
    {
      buffers := buffers + [currentBuffer];
      currentBuffer, newBuffer1 := newBuffer1, null;
      if nextBuffer == null {
        nextBuffer, newBuffer2 := newBuffer2, null;
      }
      buffersToWrite, buffers := buffers, buffersToWrite;
      place := Writing(0);
    }

    /** One round of the loop over the batch. */
    method WriteOne()
      requires Valid() && Enabled(model, Write)
      modifies `file, `place, `model
      ensures Valid() && model == Step(old(model), Write)
    {
      hide Inv, FrontHolds, BackHolds, Step;
      WriteKeepsInv(model);
      WriteHolds(spot, text, FrontEnd(), BackEnd(), model);
      var buffer := buffersToWrite[place.i];
      file, place := file + buffer.data[..buffer.size], Writing(place.i + 1);
      model := Step(model, Write);
    }

    /** After the batch: two written buffers become the spares, the others are freed. */
    method RecycleBuffers()
      requires Valid() && Enabled(model, Recycle)
      modifies `newBuffer1, `newBuffer2, `buffersToWrite, `place, `spot, `text, `model, text.Keys
      ensures Valid() && text.Keys == old(text.Keys)
      ensures Safe(old(model), Recycle) && model == Step(old(model), Recycle)
      ensures old(newBuffer1) == null ==> newBuffer1 in old(if |buffersToWrite| > 2 then buffersToWrite[..2] else buffersToWrite)
      ensures old(newBuffer2) == null ==> newBuffer2 in old(if |buffersToWrite| > 2 then buffersToWrite[..2] else buffersToWrite)
      ensures old(newBuffer2) != null ==> newBuffer2 == old(newBuffer2)
    {
      hide Inv, Step, Trimmed, Safe, AsyncLogging.Faithful, AsyncLogging.Linked;
      StepKeepsInv(model, Recycle);
      EnoughToRecycle(model);
      RecycleInFour(model);
      SparesAre();
      Trim();
      SparesAre();
      if newBuffer1 == null {
        Reuse1();
        Reset1();
      }
      SparesAre();
      if newBuffer2 == null {
        Reuse2();
        Reset2();
      }
      Clear();
    }

    lemma SparesAre()
      requires Linked()
      ensures (newBuffer1 == null <==> model.spare1 == None) && (newBuffer2 == null <==> model.spare2 == None)
    {
    }

    method Trim()
      requires Linked()
      modifies `buffersToWrite, `model
      ensures Linked() && model == old(model).(batch := Trimmed(old(model).batch))
      ensures buffersToWrite == old(if |buffersToWrite| > 2 then buffersToWrite[..2] else buffersToWrite)
    {
      hide FrontHolds, BackHolds;
      TrimHolds(spot, text, FrontEnd(), BackEnd(), model);
      if |buffersToWrite| > 2 {
        buffersToWrite := buffersToWrite[..2];
      }
      model := model.(batch := Trimmed(model.batch));
    }

    method Reuse1()
      requires Linked() && newBuffer1 == null && model.batch != []
      modifies `newBuffer1, `buffersToWrite, `spot, `model
      ensures Linked() && newBuffer1 != null && model == Reused1(old(model))
      ensures old(buffersToWrite) != [] && newBuffer1 == old(buffersToWrite[|buffersToWrite| - 1])
      ensures buffersToWrite == old(buffersToWrite)[..|old(buffersToWrite)| - 1]
    {
      hide FrontHolds, BackHolds;
      ReuseHolds(spot, text, FrontEnd(), BackEnd(), model);
      newBuffer1 := buffersToWrite[|buffersToWrite| - 1];
      spot := spot[newBuffer1 := Spare1];
      buffersToWrite := buffersToWrite[..|buffersToWrite| - 1];
      model := Reused1(model);
    }

    method Reset1()
      requires Faithful() && Linked() && newBuffer1 != null
      modifies `text, `model, text.Keys
      ensures Faithful() && Linked() && text.Keys == old(text.Keys) && model == old(model).(spare1 := Some(""))
    {
      hide FrontHolds, BackHolds, AsyncLogging.Faithful;
      ResetHolds(spot, text, FrontEnd(), BackEnd(), model);
      ResetBuffer(newBuffer1);
      model := model.(spare1 := Some(""));
    }

    method Reuse2()
      requires Linked() && newBuffer2 == null && model.batch != []
      modifies `newBuffer2, `buffersToWrite, `spot, `model
      ensures Linked() && newBuffer2 != null && model == Reused2(old(model))
      ensures old(buffersToWrite) != [] && newBuffer2 == old(buffersToWrite[|buffersToWrite| - 1])
    {
      hide FrontHolds, BackHolds;
      ReuseHolds(spot, text, FrontEnd(), BackEnd(), model);
      newBuffer2 := buffersToWrite[|buffersToWrite| - 1];
      spot := spot[newBuffer2 := Spare2];
      buffersToWrite := buffersToWrite[..|buffersToWrite| - 1];
      model := Reused2(model);
    }

    method Reset2()
      requires Faithful() && Linked() && newBuffer2 != null
      modifies `text, `model, text.Keys
      ensures Faithful() && Linked() && text.Keys == old(text.Keys) && model == old(model).(spare2 := Some(""))
    {
      hide FrontHolds, BackHolds, AsyncLogging.Faithful;
      ResetHolds(spot, text, FrontEnd(), BackEnd(), model);
      ResetBuffer(newBuffer2);
      model := model.(spare2 := Some(""));
    }

    /** `FixedBuffer::reset`. */
    method ResetBuffer(b: FixedBuffer)
      requires Faithful() && b in text
      modifies `text, b
      ensures Faithful() && text == old(text)[b := ""] && text.Keys == old(text.Keys)
    {
      b.Reset();
      text := text[b := ""];
    }

    method Clear()
      requires Linked()
      modifies `buffersToWrite, `place, `model
      ensures Linked() && model == old(model).(batch := [], place := Testing)
    {
      hide FrontHolds, BackHolds;
      ClearHolds(spot, text, FrontEnd(), BackEnd(), model);
      buffersToWrite, place, model := [], Testing, model.(batch := [], place := Testing);
    }

    /** One round of the back end with no front end in between: every line appended before it is in
        the file after it. */
    method Cycle()
      requires Valid() && model.place == Testing
      modifies this, text.Keys
      ensures Valid() && model.accepted == old(model).accepted
      ensures if old(running) then file == old(model).accepted && place == Testing else place == Exited
    {
      hide Inv, Step, AsyncLogging.Faithful, AsyncLogging.Linked;
      AtTest(model);
      RunningIs();
      Test();
      RunningIs();
      if place == Waiting {
        CollectBuffers();
        RunningIs();
        while place.i < |buffersToWrite|
          invariant Valid() && text.Keys == old(text.Keys) && place == model.place && place.Writing?
          invariant |buffersToWrite| == |model.batch|
          invariant model.buffers == [] && model.current == "" && model.accepted == old(model).accepted
          decreases |buffersToWrite| - place.i
        {
          AtWrite(model);
          WriteOne();
          RunningIs();
        }
        AtRecycle(model);
        RecycleBuffers();
        RunningIs();
      }
    }

    lemma RunningIs()
      requires Linked()
      ensures running == model.running && place == model.place && file == model.file
      ensures |buffersToWrite| == |model.batch|
    {
    }

    method AppendToCurrent(line: string)
      requires Faithful() && Linked() && currentBuffer in text
      modifies `model, `text, currentBuffer, currentBuffer.data
      ensures Faithful() && Linked() && model == Appended(old(model), line)
      ensures text.Keys == old(text.Keys)
    {
      hide FrontHolds, BackHolds, FixedAppend, AsyncLogging.Faithful;
      AppendHolds(spot, text, FrontEnd(), BackEnd(), model, line);
      Fill(currentBuffer, line);
      model := Appended(model, line);
    }
  }

  lemma AtTest(s: State)
    requires Inv(s) && s.place == Testing
    ensures var t := Step(s, Action.Test);
      && t.place == (if s.running then Waiting else Exited) && t.accepted == s.accepted
      && (t.place == Waiting ==>
            Safe(t, Collect) && var u := Step(t, Collect);
            u.place == Writing(0) && u.buffers == [] && u.current == "" && u.accepted == s.accepted)
  {
  }

  lemma AtWrite(s: State)
    requires Enabled(s, Write)
    ensures var t := Step(s, Write);
      && t.place == Writing(s.place.i + 1) && t.batch == s.batch
      && t.buffers == s.buffers && t.current == s.current && t.accepted == s.accepted
  {
  }

  lemma AtRecycle(s: State)
    requires Inv(s) && Enabled(s, Recycle) && s.buffers == [] && s.current == ""
    ensures s.file == s.accepted && Safe(s, Recycle)
    ensures var t := Step(s, Recycle); t.place == Testing && t.file == s.file && t.accepted == s.accepted
  {
    JoinOfNone(s);
  }

  lemma SparesAreEmpty(s: State)
    requires Inv(s)
    ensures Empty(s.next) && |s.current| < LARGE_BUFFER_SIZE
  {
  }
}
