/** A connection's byte stream, delivered in arbitrary chunks to `onMessage`, against one pass
    over the whole stream. */
module HttpStream {
  import opened Options
  import opened Text
  import opened Http
  import opened HttpTheorems

  /** What one call of `onMessage` leaves behind and hands out. */
  datatype Served = Served(context: Context, unread: string, request: Option<Request>, bad: bool)

  /** `reset` swaps every field with a new request except the receive time. */
  function Reset(c: Context): Context {
    Context(ExpectRequestLine, NO_REQUEST.(receiveTime := c.request.receiveTime))
  }

  /** `onMessage`: one parse, at most one request handed to the callback. */
  function Serve(c: Context, bytes: string, time: int): (s: Served)
    requires Live(c)
    ensures Live(s.context) && |s.unread| <= |bytes|
  {
    var r := Parse(c, bytes, time);
    if r.context.phase == GotAll then Served(Reset(r.context), r.unread, Some(r.context.request), !r.ok)
    else Served(r.context, r.unread, None, !r.ok)
  }

  lemma ServeLeavesSuffix(c: Context, bytes: string, time: int)
    requires Live(c)
    ensures var s := Serve(c, bytes, time); s.unread == bytes[|bytes| - |s.unread|..]
  {
    hide Parse;
    ParseLeavesSuffix(c, bytes, time);
  }

  // ----- Receive times are labels

  ghost function Untimed(r: Request): Request {
    r.(receiveTime := 0)
  }

  ghost function UntimedContext(c: Context): Context {
    c.(request := Untimed(c.request))
  }

  lemma TargetIgnoresTime(req: Request, rest: string)
    ensures ProcessTarget(Untimed(req), rest) == (ProcessTarget(req, rest).0, Untimed(ProcessTarget(req, rest).1))
  {
    hide Find;
  }

  lemma RequestLineIgnoresTime(req: Request, line: string)
    ensures ProcessRequestLine(Untimed(req), line) ==
            (ProcessRequestLine(req, line).0, Untimed(ProcessRequestLine(req, line).1))
  {
    hide Find, ProcessTarget;
    var space := Find(line, ' ');
    if space < |line| {
      TargetIgnoresTime(req.(method_ := MethodOf(line[..space])), line[space + 1..]);
    }
  }

  lemma ReadLineIgnoresTime(c: Context, line: string, time: int)
    requires Live(c)
    ensures var (next, verdict) := ReadLine(c, line, time);
            ReadLine(UntimedContext(c), line, 0) == (UntimedContext(next), verdict)
  {
    hide Find, ProcessRequestLine;
    RequestLineIgnoresTime(c.request, line);
  }

  lemma {:induction false} TimeOnlyLabels(c: Context, bytes: string, time: int)
    requires Live(c)
    ensures var r := Parse(c, bytes, time);
            Parse(UntimedContext(c), bytes, 0) == r.(context := UntimedContext(r.context))
    decreases |bytes|
  {
    hide FindCrlf, ReadLine;
    var crlf := FindCrlf(bytes);
    if crlf < |bytes| {
      ReadLineIgnoresTime(c, bytes[..crlf], time);
      var (next, verdict) := ReadLine(c, bytes[..crlf], time);
      if verdict == Continue {
        TimeOnlyLabels(next, bytes[crlf + 2..], time);
      }
    }
  }

  // ----- One pass

  /** The requests of a stream, read sequentially from a parser state. */
  ghost function Extract(c: Context, bytes: string): seq<Request>
    requires Live(c)
    decreases |bytes|
  {
    var r := Parse(c, bytes, 0);
    if r.context.phase == GotAll then [Untimed(r.context.request)] + Extract(NEW_CONTEXT, r.unread) else []
  }

  ghost function Handed(s: Served): seq<Request> {
    if s.request.Some? then [Untimed(s.request.value)] else []
  }

  /** One call takes exactly its share of what one pass over the present and all later bytes
      would extract. */
  lemma ServeConserves(c: Context, bytes: string, more: string, time: int)
    requires Live(c)
    ensures var s := Serve(c, bytes, time);
            Extract(UntimedContext(c), bytes + more) == Handed(s) + Extract(UntimedContext(s.context), s.unread + more)
  {
    hide Parse;
    var u := UntimedContext(c);
    TimeOnlyLabels(c, bytes, time);
    var r := Parse(u, bytes, 0);
    if r.context.phase == GotAll {
      CompleteRequestIsFinal(u, bytes, more, 0);
    } else {
      ChunkIndependence(u, bytes, more, 0, 0);
    }
  }

  /** A call hands out the next request of the stream if the bytes so far hold it, and only then. */
  lemma ServeIsPrompt(c: Context, bytes: string, time: int)
    requires Live(c)
    ensures var s, all := Serve(c, bytes, time), Extract(UntimedContext(c), bytes);
            Handed(s) == if all == [] then [] else [all[0]]
  {
    hide Parse;
    TimeOnlyLabels(c, bytes, time);
  }

  ghost function Concat(chunks: seq<string>): string {
    if chunks == [] then "" else chunks[0] + Concat(chunks[1..])
  }

  datatype Session = Session(context: Context, unread: string, handed: seq<Request>)

  /** A call of `onMessage` for every chunk, each appended to what is still unread. */
  ghost function ServeAll(s: Session, chunks: seq<string>, times: seq<int>): (t: Session)
    requires Live(s.context) && |times| == |chunks|
    ensures Live(t.context)
    decreases |chunks|
  {
    if chunks == [] then s else
      var served := Serve(s.context, s.unread + chunks[0], times[0]);
      ServeAll(Session(served.context, served.unread, s.handed + Handed(served)), chunks[1..], times[1..])
  }

  lemma {:induction false} ServeAllConserves(s: Session, chunks: seq<string>, times: seq<int>)
    requires Live(s.context) && |times| == |chunks|
    ensures var t := ServeAll(s, chunks, times);
            s.handed + Extract(UntimedContext(s.context), s.unread + Concat(chunks)) ==
            t.handed + Extract(UntimedContext(t.context), t.unread)
    decreases |chunks|
  {
    hide Serve, Extract, Handed;
    if chunks == [] {
      assert s.unread + Concat(chunks) == s.unread;
    } else {
      var bytes, rest := s.unread + chunks[0], Concat(chunks[1..]);
      var served := Serve(s.context, bytes, times[0]);
      var next := Session(served.context, served.unread, s.handed + Handed(served));
      assert s.unread + Concat(chunks) == bytes + rest;
      ServeConserves(s.context, bytes, rest, times[0]);
      ServeAllConserves(next, chunks[1..], times[1..]);
      var later := Extract(UntimedContext(next.context), next.unread + rest);
      assert s.handed + (Handed(served) + later) == next.handed + later;
    }
  }

  lemma {:induction false} ServeAllUnread(s: Session, chunks: seq<string>, times: seq<int>)
    requires Live(s.context) && |times| == |chunks|
    ensures var t, all := ServeAll(s, chunks, times), s.unread + Concat(chunks);
            |t.unread| <= |all| && t.unread == all[|all| - |t.unread|..]
    decreases |chunks|
  {
    hide Serve, Handed;
    if chunks == [] {
      assert s.unread + Concat(chunks) == s.unread;
    } else {
      var bytes, rest := s.unread + chunks[0], Concat(chunks[1..]);
      var served := Serve(s.context, bytes, times[0]);
      assert s.unread + Concat(chunks) == bytes + rest;
      ServeLeavesSuffix(s.context, bytes, times[0]);
      ServeAllUnread(Session(served.context, served.unread, s.handed + Handed(served)), chunks[1..], times[1..]);
    }
  }

  /** However a stream is cut, the requests handed to the callback are, in order, the first of
      those that one pass over the whole stream extracts; the others are still to be had from the
      unread bytes, which are the end of the stream. */
  lemma StreamTheorem(chunks: seq<string>, times: seq<int>)
    requires |times| == |chunks|
    ensures var t, stream := ServeAll(Session(NEW_CONTEXT, "", []), chunks, times), Concat(chunks);
            && Extract(NEW_CONTEXT, stream) == t.handed + Extract(UntimedContext(t.context), t.unread)
            && t.handed <= Extract(NEW_CONTEXT, stream)
            && |t.unread| <= |stream| && t.unread == stream[|stream| - |t.unread|..]
  {
    hide Extract, ServeAll, Concat;
    ServeAllConserves(Session(NEW_CONTEXT, "", []), chunks, times);
    ServeAllUnread(Session(NEW_CONTEXT, "", []), chunks, times);
    FreshIsUntimed();
    var t, all := ServeAll(Session(NEW_CONTEXT, "", []), chunks, times), Extract(NEW_CONTEXT, Concat(chunks));
    assert "" + Concat(chunks) == Concat(chunks);
    assert [] + all == all;
    FirstPart(t.handed, Extract(UntimedContext(t.context), t.unread));
  }

  lemma FreshIsUntimed()
    ensures UntimedContext(NEW_CONTEXT) == NEW_CONTEXT
  {
  }

  lemma FirstPart<T>(a: seq<T>, b: seq<T>)
    ensures a <= a + b
  {
  }

  /** A pipelined request waits for another call, even though all its bytes are there. */
  lemma PipelinedRequestWaits(r1: Request, f1: seq<(string, string)>, text2: string, time: int)
    requires IsPrintable(r1, f1)
    ensures var s := Serve(NEW_CONTEXT, PrintRequest(r1, f1) + text2, time);
            s.request == Some(r1.(receiveTime := time)) && s.unread == text2
  {
    RoundTrip(r1, f1, text2, time);
  }

  /** A complete request is left unread exactly when the bytes held two. */
  lemma RequestLeftUnreadIff(c: Context, bytes: string, time: int)
    requires Live(c)
    ensures var s := Serve(c, bytes, time);
            Extract(UntimedContext(s.context), s.unread) != [] <==> |Extract(UntimedContext(c), bytes)| >= 2
  {
    hide Serve, Extract;
    ServeConserves(c, bytes, "", time);
    ServeIsPrompt(c, bytes, time);
    assert bytes + "" == bytes && Serve(c, bytes, time).unread + "" == Serve(c, bytes, time).unread;
  }

  // ----- Bad requests

  /** A call answers 400 exactly when a request line is expected and the first line of the bytes is
      complete and is none. */
  lemma ServedBadIff(c: Context, bytes: string, time: int)
    requires Live(c)
    ensures Serve(c, bytes, time).bad
            <==> c.phase == ExpectRequestLine && exists line, rest :: StartsBadly(bytes, line, rest)
  {
    hide Parse, StartsBadly;
    if c.phase == ExpectRequestLine {
      RejectedIffStartsBadly(c.request, bytes, time);
    } else {
      HeadersAreNeverBad(c.request, bytes, time);
    }
  }

  /** The request handed out carries the time of the call that has read its request line, and so
      does the parser afterwards. */
  lemma ServedTime(c: Context, bytes: string, time: int)
    requires Live(c)
    ensures var s := Serve(c, bytes, time);
      s.request.Some? ==>
        && s.request.value.receiveTime == (if c.phase == ExpectRequestLine then time else c.request.receiveTime)
        && s.context == Context(ExpectRequestLine, NO_REQUEST.(receiveTime := s.request.value.receiveTime))
  {
    hide Parse;
    ReceiveTimeIsOfRequestLine(c, bytes, time);
  }

  lemma {:induction false} BadIsFinal(c: Context, b1: string, b2: string, time: int)
    requires Live(c) && !Parse(c, b1, time).ok
    ensures Parse(c, b1 + b2, time) == Parse(c, b1, time).(unread := Parse(c, b1, time).unread + b2)
    decreases |b1|
  {
    hide FindCrlf, ReadLine;
    SplitAtCrlf(b1, b2);
    var crlf := FindCrlf(b1);
    var (next, verdict) := ReadLine(c, b1[..crlf], time);
    if verdict == Continue {
      BadIsFinal(next, b1[crlf + 2..], b2, time);
    }
  }

  /** After a bad request line every later call rejects it again and hands out nothing. */
  lemma BadForever(c: Context, bytes: string, more: string, t1: int, t2: int)
    requires Live(c) && Serve(c, bytes, t1).bad
    ensures var s := Serve(c, bytes, t1);
            var again := Serve(s.context, s.unread + more, t2);
            again.bad && again.request == None && again.unread == s.unread + more
  {
    hide Parse;
    var u := UntimedContext(c);
    TimeOnlyLabels(c, bytes, t1);
    var s := Serve(c, bytes, t1);
    ChunkIndependence(u, bytes, more, 0, 0);
    BadIsFinal(u, bytes, more, 0);
    TimeOnlyLabels(s.context, s.unread + more, t2);
  }
}
