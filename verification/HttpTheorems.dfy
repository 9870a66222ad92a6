/** The parser does not depend on how its input is cut, stops exactly from a live state, accepts
    exactly its request lines, and reads back what a client prints. */
module HttpTheorems {
  import opened Text
  import opened Http

  // ----- One line at a time

  ghost predicate ParsesTo(c: Context, bytes: string, time: int, o: Outcome) {
    Live(c) && Parse(c, bytes, time) == o
  }

  ghost predicate ParsesLike(c: Context, bytes: string, d: Context, rest: string, time: int) {
    Live(c) && Live(d) && Parse(c, bytes, time) == Parse(d, rest, time)
  }

  lemma ParseOneLine(c: Context, bytes: string, time: int)
    requires Live(c)
    ensures var crlf := FindCrlf(bytes);
      if crlf == |bytes| then ParsesTo(c, bytes, time, Outcome(c, bytes, true))
      else
        && crlf + 2 <= |bytes|
        && var (next, verdict) := ReadLine(c, bytes[..crlf], time);
           match verdict
           case Continue => ParsesLike(c, bytes, next, bytes[crlf + 2..], time)
           case Done => ParsesTo(c, bytes, time, Outcome(next, bytes[crlf + 2..], true))
           case Bad => ParsesTo(c, bytes, time, Outcome(next, bytes, false))
  {
    hide ReadLine, FindCrlf;
  }

  // ----- Chunk independence

  lemma RequestLineIdempotent(req: Request, line: string)
    ensures ProcessRequestLine(ProcessRequestLine(req, line).1, line) == ProcessRequestLine(req, line)
  {
  }

  lemma BadLineStaysBad(c: Context, line: string, t1: int, t2: int)
    requires Live(c) && ReadLine(c, line, t1).1 == Bad
    ensures ReadLine(ReadLine(c, line, t1).0, line, t2) == ReadLine(c, line, t1) == ReadLine(c, line, t2)
  {
    RequestLineIdempotent(c.request, line);
  }

  lemma {:induction false} TimeIsForRequestLines(c: Context, bytes: string, time: int, other: int)
    requires c.phase == ExpectHeaders
    ensures Parse(c, bytes, time) == Parse(c, bytes, other)
    decreases |bytes|
  {
    hide FindCrlf;
    var crlf := FindCrlf(bytes);
    if crlf < |bytes| {
      var (next, verdict) := ReadLine(c, bytes[..crlf], time);
      if verdict == Continue {
        TimeIsForRequestLines(next, bytes[crlf + 2..], time, other);
      }
    }
  }

  lemma SplitAtCrlf(b1: string, b2: string)
    requires FindCrlf(b1) < |b1|
    ensures var crlf := FindCrlf(b1);
            && FindCrlf(b1 + b2) == crlf
            && (b1 + b2)[..crlf] == b1[..crlf] && (b1 + b2)[crlf + 2..] == b1[crlf + 2..] + b2
  {
    FindCrlfExtended(b1, b2);
  }

  /** A complete request is unaffected by what follows it. */
  lemma {:induction false} CompleteRequestIsFinal(c: Context, b1: string, b2: string, time: int)
    requires Live(c) && Parse(c, b1, time).context.phase == GotAll
    ensures Parse(c, b1 + b2, time) == Parse(c, b1, time).(unread := Parse(c, b1, time).unread + b2)
    decreases |b1|
  {
    hide FindCrlf, ReadLine;
    SplitAtCrlf(b1, b2);
    var crlf := FindCrlf(b1);
    var (next, verdict) := ReadLine(c, b1[..crlf], time);
    if verdict == Continue {
      CompleteRequestIsFinal(next, b1[crlf + 2..], b2, time);
    }
  }

  /** The receive time that one parse of both chunks would have to be given. */
  ghost function TimeOfRequestLine(c: Context, first: Outcome, t1: int, t2: int): int {
    if c.phase == ExpectRequestLine && first.context.phase == ExpectRequestLine then t2 else t1
  }

  /** Parsing what has come, and again when more has come, is parsing it all at once: the same
      state, the same request, the same verdict and the same unread bytes. */
  lemma {:induction false} ChunkIndependence(c: Context, b1: string, b2: string, t1: int, t2: int)
    requires Live(c) && Parse(c, b1, t1).context.phase != GotAll
    ensures var first := Parse(c, b1, t1);
            Parse(first.context, first.unread + b2, t2) == Parse(c, b1 + b2, TimeOfRequestLine(c, first, t1, t2))
    decreases |b1|
  {
    hide FindCrlf, ReadLine;
    var crlf := FindCrlf(b1);
    if crlf == |b1| {
      if c.phase == ExpectHeaders {
        TimeIsForRequestLines(c, b1 + b2, t1, t2);
      }
    } else {
      SplitAtCrlf(b1, b2);
      var (next, verdict) := ReadLine(c, b1[..crlf], t1);
      if verdict == Continue {
        ChunkIndependence(next, b1[crlf + 2..], b2, t1, t2);
        StaysInHeaders(next, b1[crlf + 2..], t1);
      } else {
        BadLineStaysBad(c, b1[..crlf], t1, t2);
      }
    }
  }

  lemma {:induction false} StaysInHeaders(c: Context, bytes: string, time: int)
    requires c.phase == ExpectHeaders
    ensures Parse(c, bytes, time).context.phase != ExpectRequestLine
    decreases |bytes|
  {
    hide FindCrlf, ReadLine;
    var crlf := FindCrlf(bytes);
    if crlf < |bytes| {
      var (next, verdict) := ReadLine(c, bytes[..crlf], time);
      if verdict == Continue {
        StaysInHeaders(next, bytes[crlf + 2..], time);
      }
    }
  }

  // ----- Termination of the parser's loop

  datatype Loop = Loop(context: Context, unread: string, ok: bool, hasMore: bool)

  /** One iteration of `while (hasMore)`. */
  ghost function Iterate(l: Loop, time: int): Loop {
    var crlf := FindCrlf(l.unread);
    if !l.hasMore then l
    else match l.context.phase
      case ExpectRequestLine =>
        if crlf == |l.unread| then l.(hasMore := false)
        else
          var (ok, req) := ProcessRequestLine(l.context.request, l.unread[..crlf]);
          if ok then Loop(Context(ExpectHeaders, req.(receiveTime := time)), l.unread[crlf + 2..], ok, true)
          else Loop(Context(ExpectRequestLine, req), l.unread, ok, false)
      case ExpectHeaders =>
        if crlf == |l.unread| then l.(hasMore := false)
        else
          var line, rest := l.unread[..crlf], l.unread[crlf + 2..];
          if Find(line, ':') < |line|
          then l.(context := Context(ExpectHeaders, AddHeader(l.context.request, line, Find(line, ':'))), unread := rest)
          else Loop(Context(GotAll, l.context.request), rest, l.ok, false)
      case ExpectBody => l
      case GotAll => l
  }

  ghost function Iterations(l: Loop, time: int, n: nat): Loop
    decreases n
  {
    if n == 0 then l else Iterations(Iterate(l, time), time, n - 1)
  }

  lemma {:induction false} IdleForever(l: Loop, time: int, n: nat)
    requires l.hasMore && !Live(l.context)
    ensures Iterations(l, time, n) == l
  {
    if n > 0 {
      IdleForever(l, time, n - 1);
    }
  }

  /** From a live state the loop ends, with what `Parse` says; an iteration that continues has
      consumed at least two bytes. */
  lemma {:induction false} LiveLoopEnds(l: Loop, time: int) returns (n: nat)
    requires l.hasMore && Live(l.context) && l.ok
    ensures var r := Parse(l.context, l.unread, time);
            Iterations(l, time, n) == Loop(r.context, r.unread, r.ok, false)
    ensures Iterate(l, time).hasMore ==> |Iterate(l, time).unread| + 2 <= |l.unread|
    decreases |l.unread|
  {
    hide FindCrlf, Find, ProcessRequestLine, AddHeader;
    var next := Iterate(l, time);
    if next.hasMore {
      n := LiveLoopEnds(next, time);
      n := n + 1;
    } else {
      n := 1;
      assert Iterations(l, time, 1) == Iterations(next, time, 0) == next;
    }
  }

  /** `parseRequest` returns if and only if it is entered while expecting a request line or
      headers; in the other two states it loops without changing anything. */
  lemma ReturnsIffLive(c: Context, bytes: string, time: int)
    ensures (exists n: nat :: !Iterations(Loop(c, bytes, true, true), time, n).hasMore) <==> Live(c)
  {
    var l := Loop(c, bytes, true, true);
    if Live(c) {
      var n := LiveLoopEnds(l, time);
    } else {
      forall n: nat
        ensures Iterations(l, time, n).hasMore
      {
        IdleForever(l, time, n);
      }
    }
  }

  // ----- The language of request lines

  ghost predicate IsRequestLine(line: string, m: string, target: string, d: char) {
    MethodOf(m) != Invalid && ' ' !in target && (d == '0' || d == '1') && line == m + " " + target + " HTTP/1." + [d]
  }

  lemma MethodHasNoSpace(m: string)
    requires MethodOf(m) != Invalid
    ensures ' ' !in m && !CrlfIn(m) && '\r' !in m
  {
  }

  ghost predicate CrlfIn(s: string) {
    exists i :: CrlfAt(s, i)
  }

  lemma FindAfter(a: string, c: char, b: string)
    requires c !in a
    ensures Find(a + [c] + b, c) == |a|
  {
    FindIs(a + [c] + b, c, |a|);
  }

  /** What a request line sets. */
  ghost function WithLine(req: Request, m: string, target: string, d: char): Request {
    SetTarget(req.(method_ := MethodOf(m)), target).(version := if d == '1' then Http11 else Http10)
  }

  lemma TargetRead(req: Request, target: string, d: char)
    requires ' ' !in target && (d == '0' || d == '1')
    ensures ProcessTarget(req, target + " HTTP/1." + [d]) ==
            (true, SetTarget(req, target).(version := if d == '1' then Http11 else Http10))
  {
    var version := "HTTP/1." + [d];
    var rest := target + " " + version;
    assert target + " HTTP/1." + [d] == rest;
    FindAfter(target, ' ', version);
    assert rest[..|target|] == target && rest[|target| + 1..] == version;
    assert version[..7] == "HTTP/1.";
  }

  lemma RequestLineRead(req: Request, line: string, m: string, target: string, d: char)
    requires IsRequestLine(line, m, target, d)
    ensures ProcessRequestLine(req, line) == (true, WithLine(req, m, target, d))
  {
    hide ProcessTarget, Find, SetTarget;
    var rest := target + " HTTP/1." + [d];
    assert line == m + " " + rest;
    MethodHasNoSpace(m);
    FindAfter(m, ' ', rest);
    assert line[..|m|] == m && line[|m| + 1..] == rest;
    TargetRead(req.(method_ := MethodOf(m)), target, d);
  }

  lemma AcceptedTarget(req: Request, rest: string) returns (target: string, d: char)
    requires ProcessTarget(req, rest).0
    ensures ' ' !in target && (d == '0' || d == '1') && rest == target + " HTTP/1." + [d]
  {
    hide Find, SetTarget;
    var space := Find(rest, ' ');
    target, d := rest[..space], rest[|rest| - 1];
    var version := rest[space + 1..];
    assert version == "HTTP/1." + [d];
    assert rest == target + " " + version;
    assert target + " " + version == target + " HTTP/1." + [d];
  }

  /** A line is accepted exactly when it is a known method, a target without spaces and one of
      the two versions, each separated by one space. */
  lemma AcceptedIffRequestLine(req: Request, line: string)
    ensures ProcessRequestLine(req, line).0 <==> exists m, target, d :: IsRequestLine(line, m, target, d)
  {
    hide ProcessTarget, Find;
    if ProcessRequestLine(req, line).0 {
      var m := line[..Find(line, ' ')];
      var target, d := AcceptedTarget(req.(method_ := MethodOf(m)), line[|m| + 1..]);
      assert line == m + " " + line[|m| + 1..];
      assert line == m + " " + target + " HTTP/1." + [d];
      assert IsRequestLine(line, m, target, d);
    }
    if exists m, target, d :: IsRequestLine(line, m, target, d) {
      var m, target, d :| IsRequestLine(line, m, target, d);
      RequestLineRead(req, line, m, target, d);
    }
  }

  /** Path and query are the two parts of the target, cut in front of the first question mark. */
  lemma TargetIsPathAndQuery(target: string)
    ensures var req := SetTarget(NO_REQUEST, target);
            req.path + req.query == target && '?' !in req.path && (req.query != "" ==> req.query[0] == '?')
  {
    var question := Find(target, '?');
    assert target[..question] + target[question..] == target;
  }

  /** Exactly these five texts are read as methods, and each is printed as it is read. */
  lemma MethodNames(name: string)
    ensures MethodOf(name) == GET <==> name == "GET"
    ensures MethodOf(name) == POST <==> name == "POST"
    ensures MethodOf(name) == HEAD <==> name == "HEAD"
    ensures MethodOf(name) == PUT <==> name == "PUT"
    ensures MethodOf(name) == DELETE <==> name == "DELETE"
    ensures MethodOf(name) != Invalid ==> MethodString(MethodOf(name)) == name
    ensures MethodString(Invalid) == "UNKNOWN"
  {
  }

  /** What is left behind when the part behind the method is rejected: the target, if a space ends
      it. */
  ghost predicate TargetLeft(req: Request, rest: string, left: Request) {
    if ' ' !in rest then left == req
    else exists target, version :: rest == target + " " + version && ' ' !in target && left == SetTarget(req, target)
  }

  /** And of a whole line: the method, known or not, if a space ends it. */
  ghost predicate LineLeft(req: Request, m: string, rest: string, left: Request) {
    if MethodOf(m) == Invalid then left == req.(method_ := Invalid)
    else TargetLeft(req.(method_ := MethodOf(m)), rest, left)
  }

  lemma RejectedTargetLeaves(req: Request, rest: string)
    requires !ProcessTarget(req, rest).0
    ensures TargetLeft(req, rest, ProcessTarget(req, rest).1)
  {
    hide SetTarget, Find;
    SpaceIsFound(rest);
    var end := Find(rest, ' ');
    if end < |rest| {
      assert rest == rest[..end] + " " + rest[end + 1..];
    }
  }

  lemma RejectedLineLeaves(req: Request, line: string)
    requires !ProcessRequestLine(req, line).0
    ensures var left := ProcessRequestLine(req, line).1;
      if ' ' !in line then left == req
      else exists m, rest :: line == m + " " + rest && ' ' !in m && LineLeft(req, m, rest, left)
  {
    hide ProcessTarget, TargetLeft, Find;
    SpaceIsFound(line);
    var space := Find(line, ' ');
    if space < |line| {
      var m, rest := line[..space], line[space + 1..];
      assert line == m + " " + rest;
      if MethodOf(m) != Invalid {
        RejectedTargetLeaves(req.(method_ := MethodOf(m)), rest);
      }
      assert LineLeft(req, m, rest, ProcessRequestLine(req, line).1);
    }
  }

  lemma SpaceIsFound(s: string)
    ensures ' ' in s <==> Find(s, ' ') < |s|
    ensures ' ' !in s[..Find(s, ' ')]
  {
  }

  // ----- White space around a value

  /** `isspace`: space, tab, line feed, carriage return, vertical tab, form feed. */
  const WHITE: string := " \t\n\r\U{0B}\U{0C}"

  ghost predicate AllWhite(s: string) {
    forall i :: 0 <= i < |s| ==> s[i] in WHITE
  }

  /** `v` is `s` without the white space around it. */
  ghost predicate IsTrimmed(s: string, v: string) {
    && (exists left, right :: s == left + v + right && AllWhite(left) && AllWhite(right))
    && (v != "" ==> v[0] !in WHITE && v[|v| - 1] !in WHITE)
  }

  lemma SpaceIsWhite(c: char)
    ensures IsSpace(c) <==> c in WHITE
  {
  }

  lemma TrimSteps(s: string)
    requires s != ""
    ensures TrimLeft(s) == if s[0] in WHITE then TrimLeft(s[1..]) else s
    ensures TrimRight(s) == if s[|s| - 1] in WHITE then TrimRight(s[..|s| - 1]) else s
  {
    hide *;
    SpaceIsWhite(s[0]);
    SpaceIsWhite(s[|s| - 1]);
    TrimStepsBySpace(s);
  }

  lemma TrimStepsBySpace(s: string)
    requires s != ""
    ensures TrimLeft(s) == if IsSpace(s[0]) then TrimLeft(s[1..]) else s
    ensures TrimRight(s) == if IsSpace(s[|s| - 1]) then TrimRight(s[..|s| - 1]) else s
  {
    hide IsSpace;
  }

  lemma TrimNothing()
    ensures TrimLeft("") == TrimRight("") == ""
  {
  }

  lemma {:induction false} TrimLeftIs(s: string) returns (left: string)
    ensures s == left + TrimLeft(s) && AllWhite(left)
    ensures TrimLeft(s) != "" ==> TrimLeft(s)[0] !in WHITE
    decreases |s|
  {
    left := "";
    if s != "" {
      TrimSteps(s);
      hide TrimLeft, WHITE;
      if s[0] in WHITE {
        left := TrimLeftIs(s[1..]);
        left := [s[0]] + left;
      }
    }
  }

  lemma {:induction false} TrimRightIs(s: string) returns (right: string)
    ensures s == TrimRight(s) + right && AllWhite(right)
    ensures TrimRight(s) != "" ==> TrimRight(s)[|TrimRight(s)| - 1] !in WHITE && TrimRight(s)[0] == s[0]
    decreases |s|
  {
    right := "";
    if s != "" {
      TrimSteps(s);
      hide TrimRight, WHITE;
      var front, last := s[..|s| - 1], s[|s| - 1];
      if last in WHITE {
        right := TrimRightIs(front);
        assert s == front + [last];
        right := right + [last];
      }
    }
  }

  lemma WhiteParts(s: string)
    requires s != "" && AllWhite(s)
    ensures s[0] in WHITE && AllWhite(s[1..])
    ensures s[|s| - 1] in WHITE && AllWhite(s[..|s| - 1])
  {
    hide WHITE;
  }

  lemma {:induction false} TrimLeftDrops(left: string, s: string)
    requires AllWhite(left) && (s != "" ==> s[0] !in WHITE)
    ensures TrimLeft(left + s) == s
    decreases |left|
  {
    hide *;
    if left + s == "" {
      TrimNothing();
    } else if left == "" {
      assert left + s == s;
      TrimSteps(s);
    } else {
      WhiteParts(left);
      TrimLeftDrops(left[1..], s);
      TrimSteps(left + s);
      assert (left + s)[0] == left[0];
      assert (left + s)[1..] == left[1..] + s;
    }
  }

  lemma {:induction false} TrimRightDrops(s: string, right: string)
    requires AllWhite(right) && (s != "" ==> s[|s| - 1] !in WHITE)
    ensures TrimRight(s + right) == s
    decreases |right|
  {
    hide *;
    if s + right == "" {
      TrimNothing();
    } else if right == "" {
      assert s + right == s;
      TrimSteps(s);
    } else {
      var front, n := right[..|right| - 1], |s + right|;
      WhiteParts(right);
      TrimRightDrops(s, front);
      TrimSteps(s + right);
      assert (s + right)[n - 1] == right[|right| - 1];
      assert (s + right)[..n - 1] == s + front;
    }
  }

  lemma TrimmedIff(s: string, v: string)
    ensures TrimRight(TrimLeft(s)) == v <==> IsTrimmed(s, v)
  {
    hide TrimLeft, TrimRight, WHITE;
    var left := TrimLeftIs(s);
    var right := TrimRightIs(TrimLeft(s));
    var t := TrimRight(TrimLeft(s));
    assert s == left + t + right;
    assert IsTrimmed(s, t);
    if IsTrimmed(s, v) {
      TrimmedUnique(s, v);
    }
  }

  lemma TrimmedUnique(s: string, v: string)
    requires IsTrimmed(s, v)
    ensures TrimRight(TrimLeft(s)) == v
  {
    hide TrimLeft, TrimRight, WHITE;
    var left, right :| s == left + v + right && AllWhite(left) && AllWhite(right);
    if v == "" {
      assert s == (left + right) + "";
      TrimLeftDrops(left + right, "");
      TrimRightDrops("", "");
      assert "" + "" == "";
    } else {
      assert s == left + (v + right);
      TrimLeftDrops(left, v + right);
      TrimRightDrops(v, right);
    }
  }

  /** A header line stores, under what is in front of its colon, the one text that is left of what
      is behind it when the white space at both ends is taken away; and nothing else changes. */
  lemma HeaderLineStores(req: Request, line: string, colon: nat, value: string)
    requires colon < |line|
    ensures AddHeader(req, line, colon) == req.(headers := req.headers[line[..colon] := value])
            <==> IsTrimmed(line[colon + 1..], value)
  {
    hide TrimLeft, TrimRight, IsTrimmed;
    var name := line[..colon];
    TrimmedIff(line[colon + 1..], value);
    assert AddHeader(req, line, colon).headers[name] == TrimRight(TrimLeft(line[colon + 1..]));
    assert req.headers[name := value][name] == value;
  }

  // ----- Printing and parsing

  /** A header as a client prints it: a name without colon, a value without surrounding space. */
  ghost predicate IsField(name: string, value: string) {
    && ':' !in name && !CrlfIn(name) && !CrlfIn(value)
    && (value != "" ==> value[0] !in WHITE && value[|value| - 1] !in WHITE)
  }

  ghost predicate AreFields(fields: seq<(string, string)>) {
    forall i :: 0 <= i < |fields| ==> IsField(fields[i].0, fields[i].1)
  }

  ghost function PrintFields(fields: seq<(string, string)>): string {
    if fields == [] then "" else fields[0].0 + ": " + fields[0].1 + "\r\n" + PrintFields(fields[1..])
  }

  ghost function Print(m: string, target: string, d: char, fields: seq<(string, string)>): string {
    m + " " + target + " HTTP/1." + [d] + "\r\n" + PrintFields(fields) + "\r\n"
  }

  /** The header map of a list of fields; a later field of the same name wins. */
  ghost function Fields(headers: map<string, string>, fields: seq<(string, string)>): map<string, string>
    decreases |fields|
  {
    if fields == [] then headers else Fields(headers[fields[0].0 := fields[0].1], fields[1..])
  }

  lemma CrlfFreeJoin(a: string, b: string)
    requires !CrlfIn(a) && !CrlfIn(b) && (a == "" || b == "" || a[|a| - 1] != '\r' || b[0] != '\n')
    ensures !CrlfIn(a + b)
  {
    forall i
      ensures !CrlfAt(a + b, i)
    {
      assert !CrlfAt(a, i) && !CrlfAt(b, i - |a|);
    }
  }

  /** The first line of a text, whatever follows it. */
  lemma FirstLine(line: string, rest: string)
    requires !CrlfIn(line)
    ensures var text := line + "\r\n" + rest;
            FindCrlf(text) == |line| < |text| && text[..|line|] == line && text[|line| + 2..] == rest
  {
    var text := line + "\r\n" + rest;
    assert CrlfAt(text, |line|);
    forall i | 0 <= i < |line|
      ensures !CrlfAt(text, i)
    {
      assert !CrlfAt(line, i);
    }
    FindCrlfIs(text, |line|);
  }

  lemma FieldLineCrlfFree(name: string, value: string)
    requires IsField(name, value)
    ensures !CrlfIn(name + ": " + value)
  {
    assert !CrlfIn(": ");
    CrlfFreeJoin(name, ": ");
    CrlfFreeJoin(name + ": ", value);
  }

  /** A header line gives back the name in front of its first colon and the value, whatever white
      space is around it. */
  lemma FieldRead(req: Request, name: string, left: string, value: string, right: string)
    requires IsField(name, value) && AllWhite(left) && AllWhite(right)
    ensures var line := name + ":" + left + value + right;
            Find(line, ':') == |name| < |line| && AddHeader(req, line, |name|) == req.(headers := req.headers[name := value])
  {
    hide Find, AddHeader, AllWhite, WHITE;
    var line, rest := name + ":" + left + value + right, left + value + right;
    assert line == name + ":" + rest;
    FindAfter(name, ':', rest);
    assert line[..|name|] == name && line[|name| + 1..] == rest;
    assert IsTrimmed(rest, value);
    HeaderLineStores(req, line, |name|, value);
  }

  lemma PrintedFieldRead(req: Request, name: string, value: string)
    requires IsField(name, value)
    ensures var line := name + ": " + value;
            Find(line, ':') == |name| < |line| && AddHeader(req, line, |name|) == req.(headers := req.headers[name := value])
  {
    hide Find, AddHeader, IsField;
    FieldRead(req, name, " ", value, "");
    assert name + ":" + " " + value + "" == name + ": " + value;
  }

  lemma FieldLineRead(req: Request, name: string, value: string, rest: string, time: int)
    requires IsField(name, value)
    ensures Parse(Context(ExpectHeaders, req), name + ": " + value + "\r\n" + rest, time) ==
            Parse(Context(ExpectHeaders, req.(headers := req.headers[name := value])), rest, time)
  {
    hide Find, FindCrlf, AddHeader, IsField;
    FieldLineCrlfFree(name, value);
    FirstLine(name + ": " + value, rest);
    PrintedFieldRead(req, name, value);
  }

  lemma EmptyLineRead(req: Request, tail: string, time: int)
    ensures Parse(Context(ExpectHeaders, req), "\r\n" + tail, time) == Outcome(Context(GotAll, req), tail, true)
  {
    hide FindCrlf;
    assert "" + "\r\n" + tail == "\r\n" + tail;
    FirstLine("", tail);
  }

  lemma FirstFieldPrinted(fields: seq<(string, string)>, tail: string)
    requires fields != []
    ensures PrintFields(fields) + "\r\n" + tail ==
            fields[0].0 + ": " + fields[0].1 + "\r\n" + (PrintFields(fields[1..]) + "\r\n" + tail)
  {
    hide PrintFields;
    FirstFieldIs(fields);
    var line := fields[0].0 + ": " + fields[0].1 + "\r\n";
    assert line + PrintFields(fields[1..]) + "\r\n" + tail == line + (PrintFields(fields[1..]) + "\r\n" + tail);
  }

  lemma FirstFieldIs(fields: seq<(string, string)>)
    requires fields != []
    ensures PrintFields(fields) == fields[0].0 + ": " + fields[0].1 + "\r\n" + PrintFields(fields[1..])
  {
  }

  lemma {:induction false} FieldsRead(req: Request, fields: seq<(string, string)>, tail: string, time: int)
    requires AreFields(fields)
    ensures Parse(Context(ExpectHeaders, req), PrintFields(fields) + "\r\n" + tail, time) ==
            Outcome(Context(GotAll, req.(headers := Fields(req.headers, fields))), tail, true)
    decreases |fields|
  {
    hide Parse, IsField;
    if fields == [] {
      assert PrintFields(fields) + "\r\n" + tail == "\r\n" + tail;
      EmptyLineRead(req, tail, time);
    } else {
      hide PrintFields;
      var name, value := fields[0].0, fields[0].1;
      FirstFieldPrinted(fields, tail);
      FieldLineRead(req, name, value, PrintFields(fields[1..]) + "\r\n" + tail, time);
      FieldsRead(req.(headers := req.headers[name := value]), fields[1..], tail, time);
    }
  }

  /** What a client prints is read back: method, target, version and header fields, with exactly
      the following bytes unread. */
  lemma PrintedRequestIsRead(
    m: string, target: string, d: char, fields: seq<(string, string)>, tail: string, time: int)
    requires MethodOf(m) != Invalid && ' ' !in target && !CrlfIn(target) && (d == '0' || d == '1')
    requires AreFields(fields)
    ensures Parse(NEW_CONTEXT, Print(m, target, d, fields) + tail, time) ==
            Outcome(Context(GotAll, WithLine(NO_REQUEST, m, target, d).(receiveTime := time, headers := Fields(map[], fields))),
                    tail, true)
  {
    hide Find, FindCrlf, IsField, ProcessRequestLine, SetTarget;
    var line := m + " " + target + " HTTP/1." + [d];
    var rest := PrintFields(fields) + "\r\n" + tail;
    var text := Print(m, target, d, fields) + tail;
    assert text == line + "\r\n" + rest;
    RequestLineCrlfFree(m, target, d);
    FirstLine(line, rest);
    RequestLineRead(NO_REQUEST, line, m, target, d);
    WithLineKeepsHeaders(m, target, d);
    FieldsRead(WithLine(NO_REQUEST, m, target, d).(receiveTime := time), fields, tail, time);
  }

  lemma RequestLineCrlfFree(m: string, target: string, d: char)
    requires MethodOf(m) != Invalid && !CrlfIn(target) && (d == '0' || d == '1')
    ensures !CrlfIn(m + " " + target + " HTTP/1." + [d])
  {
    MethodHasNoSpace(m);
    assert !CrlfIn(" ") && !CrlfIn(" HTTP/1.") && !CrlfIn([d]);
    CrlfFreeJoin(m, " ");
    CrlfFreeJoin(m + " ", target);
    CrlfFreeJoin(m + " " + target, " HTTP/1.");
    CrlfFreeJoin(m + " " + target + " HTTP/1.", [d]);
  }

  lemma WithLineKeepsHeaders(m: string, target: string, d: char)
    ensures WithLine(NO_REQUEST, m, target, d).headers == map[]
  {
  }

  /** `fields` lists the entries of `h`, each once. */
  ghost predicate Lists(fields: seq<(string, string)>, h: map<string, string>) {
    && (forall i, j :: 0 <= i < j < |fields| ==> fields[i].0 != fields[j].0)
    && (forall i :: 0 <= i < |fields| ==> fields[i].0 in h && h[fields[i].0] == fields[i].1)
    && (forall k :: k in h ==> exists i :: 0 <= i < |fields| && fields[i].0 == k)
  }

  /** A request a client can print: its parts have no byte that would end them early. */
  ghost predicate IsPrintable(r: Request, fields: seq<(string, string)>) {
    && r.method_ != Invalid && r.version != Unknown
    && ' ' !in r.path + r.query && !CrlfIn(r.path + r.query)
    && '?' !in r.path && (r.query != "" ==> r.query[0] == '?')
    && Lists(fields, r.headers) && AreFields(fields)
  }

  ghost function PrintRequest(r: Request, fields: seq<(string, string)>): string {
    Print(MethodString(r.method_), r.path + r.query, if r.version == Http11 then '1' else '0', fields)
  }

  /** Printing and parsing gives the request back, whatever the order of the header lines and
      whatever bytes follow. */
  lemma RoundTrip(r: Request, fields: seq<(string, string)>, tail: string, time: int)
    requires IsPrintable(r, fields)
    ensures Parse(NEW_CONTEXT, PrintRequest(r, fields) + tail, time) ==
            Outcome(Context(GotAll, r.(receiveTime := time)), tail, true)
  {
    hide Parse, Print, AreFields, Lists, Fields;
    var m, target, d := MethodString(r.method_), r.path + r.query, if r.version == Http11 then '1' else '0';
    PrintedRequestIsRead(m, target, d, fields, tail, time);
    FieldsOfMap(fields, r.headers);
    PathAndQueryRead(NO_REQUEST, r.path, r.query);
  }

  lemma PathAndQueryRead(req: Request, path: string, query: string)
    requires '?' !in path && (query != "" ==> query[0] == '?')
    ensures SetTarget(req, path + query) == if query != "" then req.(path := path, query := query) else req.(path := path)
  {
    FindIs(path + query, '?', |path|);
    assert (path + query)[..|path|] == path && (path + query)[|path|..] == query;
  }

  lemma FieldsOfMap(fields: seq<(string, string)>, h: map<string, string>)
    requires Lists(fields, h)
    ensures Fields(map[], fields) == h
  {
    FieldsOfRest(map[], fields, h);
  }

  /** The fields still to be added complete the map. */
  lemma {:induction false} FieldsOfRest(headers: map<string, string>, fields: seq<(string, string)>, h: map<string, string>)
    requires forall i, j :: 0 <= i < j < |fields| ==> fields[i].0 != fields[j].0
    requires forall k :: k in h <==> k in headers || exists i :: 0 <= i < |fields| && fields[i].0 == k
    requires forall i :: 0 <= i < |fields| ==> fields[i].0 in h && h[fields[i].0] == fields[i].1
    requires forall k :: k in headers ==> h[k] == headers[k]
    ensures Fields(headers, fields) == h
    decreases |fields|
  {
    if fields == [] {
      assert headers.Keys == h.Keys;
    } else {
      var more := headers[fields[0].0 := fields[0].1];
      forall k
        ensures k in h <==> k in more || exists i :: 0 <= i < |fields[1..]| && fields[1..][i].0 == k
      {
        if k in h && k !in more {
          var i :| 0 <= i < |fields| && fields[i].0 == k;
          assert fields[1..][i - 1].0 == k;
        }
      }
      FieldsOfRest(more, fields[1..], h);
    }
  }

  /** `fields[i]` is the last field of that name. */
  ghost predicate IsLastField(fields: seq<(string, string)>, i: nat, name: string) {
    i < |fields| && fields[i].0 == name && forall j :: i < j < |fields| ==> fields[j].0 != name
  }

  lemma {:induction false} LastFieldWins(headers: map<string, string>, fields: seq<(string, string)>, name: string)
    ensures forall i: nat :: IsLastField(fields, i, name) ==>
              name in Fields(headers, fields) && Fields(headers, fields)[name] == fields[i].1
    ensures (forall i :: 0 <= i < |fields| ==> fields[i].0 != name) ==>
              (name in Fields(headers, fields) <==> name in headers) &&
              (name in headers ==> Fields(headers, fields)[name] == headers[name])
    decreases |fields|
  {
    if fields != [] {
      var rest := fields[1..];
      LastFieldWins(headers[fields[0].0 := fields[0].1], rest, name);
      forall i: nat | IsLastField(fields, i, name) && i > 0
        ensures IsLastField(rest, i - 1, name)
      {
        assert forall j :: i - 1 < j < |rest| ==> rest[j] == fields[j + 1];
      }
    }
  }

  /** What a client prints is what `getHeader` answers: the value of the last header line of that
      name, and the empty text if there is none. */
  lemma HeaderIsLastPrinted(
    m: string, target: string, d: char, fields: seq<(string, string)>, tail: string, time: int, name: string)
    requires MethodOf(m) != Invalid && ' ' !in target && !CrlfIn(target) && (d == '0' || d == '1')
    requires AreFields(fields)
    ensures var req := Parse(NEW_CONTEXT, Print(m, target, d, fields) + tail, time).context.request;
            && (forall i: nat :: IsLastField(fields, i, name) ==> HeaderOf(req, name) == fields[i].1)
            && ((forall i :: 0 <= i < |fields| ==> fields[i].0 != name) ==> HeaderOf(req, name) == "")
  {
    hide Parse, Print, AreFields, Fields, IsLastField;
    PrintedRequestIsRead(m, target, d, fields, tail, time);
    LastFieldWins(map[], fields, name);
  }

  // ----- The language of whole requests

  ghost predicate IsHeaderLine(line: string) {
    !CrlfIn(line) && ':' in line
  }

  ghost function JoinLines(lines: seq<string>): string {
    if lines == [] then "" else lines[0] + "\r\n" + JoinLines(lines[1..])
  }

  ghost predicate AreHeaderLines(lines: seq<string>) {
    forall i :: 0 <= i < |lines| ==> IsHeaderLine(lines[i])
  }

  /** Lines with a colon, one without, and whatever follows. */
  ghost predicate IsHeaderSection(bytes: string, lines: seq<string>, last: string, rest: string) {
    AreHeaderLines(lines) && !CrlfIn(last) && ':' !in last && bytes == JoinLines(lines) + last + "\r\n" + rest
  }

  /** A request line first. */
  ghost predicate IsRequestText(bytes: string, line: string, lines: seq<string>, last: string, rest: string) {
    && !CrlfIn(line) && (exists m, target, d :: IsRequestLine(line, m, target, d))
    && exists section :: IsHeaderSection(section, lines, last, rest) && bytes == line + "\r\n" + section
  }

  /** The request with the fields of these lines added, in order. */
  ghost function WithHeaders(req: Request, lines: seq<string>): Request
    requires AreHeaderLines(lines)
    decreases |lines|
  {
    if lines == [] then req
    else
      assert IsHeaderLine(lines[0]);
      ColonIsFound(lines[0]);
      WithHeaders(AddHeader(req, lines[0], Find(lines[0], ':')), lines[1..])
  }

  lemma ColonIsFound(line: string)
    ensures ':' in line <==> Find(line, ':') < |line|
  {
  }

  lemma CutAtCrlf(bytes: string, i: nat)
    requires CrlfAt(bytes, i)
    ensures bytes == bytes[..i] + "\r\n" + bytes[i + 2..]
  {
    assert bytes[i..i + 2] == "\r\n";
    assert bytes == bytes[..i] + bytes[i..i + 2] + bytes[i + 2..];
  }

  lemma CrlfFreeFront(bytes: string, n: nat)
    requires n <= |bytes| && forall j :: 0 <= j < n ==> !CrlfAt(bytes, j)
    ensures !CrlfIn(bytes[..n])
  {
    forall i
      ensures !CrlfAt(bytes[..n], i)
    {
      assert CrlfAt(bytes[..n], i) ==> CrlfAt(bytes, i);
    }
  }

  /** A CR LF that has been found cuts the bytes into a line and the rest. */
  lemma LineFound(bytes: string)
    requires FindCrlf(bytes) < |bytes|
    ensures var crlf := FindCrlf(bytes);
            crlf + 2 <= |bytes| && !CrlfIn(bytes[..crlf]) && bytes == bytes[..crlf] + "\r\n" + bytes[crlf + 2..]
  {
    hide FindCrlf, CrlfIn;
    CutAtCrlf(bytes, FindCrlf(bytes));
    CrlfFreeFront(bytes, FindCrlf(bytes));
  }

  lemma HeaderLineRead(req: Request, line: string, rest: string, time: int)
    requires IsHeaderLine(line)
    ensures Find(line, ':') < |line|
    ensures Parse(Context(ExpectHeaders, req), line + "\r\n" + rest, time) ==
            Parse(Context(ExpectHeaders, AddHeader(req, line, Find(line, ':'))), rest, time)
  {
    hide Find, FindCrlf, AddHeader;
    ColonIsFound(line);
    FirstLine(line, rest);
  }

  lemma LastLineRead(req: Request, last: string, rest: string, time: int)
    requires !CrlfIn(last) && ':' !in last
    ensures Parse(Context(ExpectHeaders, req), last + "\r\n" + rest, time) == Outcome(Context(GotAll, req), rest, true)
  {
    hide Find, FindCrlf;
    ColonIsFound(last);
    FirstLine(last, rest);
  }

  lemma FirstOfLines(lines: seq<string>, last: string, rest: string)
    requires lines != []
    ensures JoinLines(lines) + last + "\r\n" + rest == lines[0] + "\r\n" + (JoinLines(lines[1..]) + last + "\r\n" + rest)
  {
    hide JoinLines;
    FirstLineJoined(lines);
    Regroup(lines[0] + "\r\n", JoinLines(lines[1..]), last, rest);
  }

  lemma FirstLineJoined(lines: seq<string>)
    requires lines != []
    ensures JoinLines(lines) == lines[0] + "\r\n" + JoinLines(lines[1..])
  {
  }

  lemma Regroup(line: string, more: string, last: string, rest: string)
    ensures line + more + last + "\r\n" + rest == line + (more + last + "\r\n" + rest)
  {
    var tail := last + "\r\n" + rest;
    assert line + more + last + "\r\n" + rest == line + more + tail;
    assert more + last + "\r\n" + rest == more + tail;
  }

  lemma {:induction false} HeaderSectionRead(req: Request, lines: seq<string>, last: string, rest: string, time: int)
    requires AreHeaderLines(lines) && !CrlfIn(last) && ':' !in last
    ensures Parse(Context(ExpectHeaders, req), JoinLines(lines) + last + "\r\n" + rest, time) ==
            Outcome(Context(GotAll, WithHeaders(req, lines)), rest, true)
    decreases |lines|
  {
    hide Parse, CrlfIn, IsHeaderLine;
    if lines == [] {
      assert JoinLines(lines) + last + "\r\n" + rest == last + "\r\n" + rest;
      LastLineRead(req, last, rest, time);
    } else {
      hide JoinLines;
      assert IsHeaderLine(lines[0]);
      FirstOfLines(lines, last, rest);
      HeaderLineRead(req, lines[0], JoinLines(lines[1..]) + last + "\r\n" + rest, time);
      HeaderSectionRead(AddHeader(req, lines[0], Find(lines[0], ':')), lines[1..], last, rest, time);
    }
  }

  lemma {:induction false} HeaderSectionFound(req: Request, bytes: string, time: int)
    returns (lines: seq<string>, last: string, rest: string)
    requires Parse(Context(ExpectHeaders, req), bytes, time).context.phase == GotAll
    ensures IsHeaderSection(bytes, lines, last, rest)
    decreases |bytes|
  {
    hide Parse, CrlfIn, FindCrlf, Find, AddHeader, IsHeaderSection;
    var c := Context(ExpectHeaders, req);
    ParseOneLine(c, bytes, time);
    LineFound(bytes);
    var crlf := FindCrlf(bytes);
    var line, section := bytes[..crlf], bytes[crlf + 2..];
    ColonIsFound(line);
    if ':' in line {
      lines, last, rest := HeaderSectionFound(AddHeader(req, line, Find(line, ':')), section, time);
      OneMoreLine(line, section, lines, last, rest);
      lines := [line] + lines;
    } else {
      lines, last, rest := [], line, section;
      NoLines(last, rest);
    }
  }

  lemma NoLines(last: string, rest: string)
    requires !CrlfIn(last) && ':' !in last
    ensures IsHeaderSection(last + "\r\n" + rest, [], last, rest)
  {
    assert "" + last + "\r\n" + rest == last + "\r\n" + rest;
  }

  lemma OneMoreLine(line: string, section: string, lines: seq<string>, last: string, rest: string)
    requires IsHeaderSection(section, lines, last, rest) && IsHeaderLine(line)
    ensures IsHeaderSection(line + "\r\n" + section, [line] + lines, last, rest)
  {
    hide CrlfIn, IsHeaderLine, JoinLines;
    FirstOfLines([line] + lines, last, rest);
    assert ([line] + lines)[1..] == lines;
  }

  /** The request that a text of this form spells. */
  ghost function RequestOf(line: string, lines: seq<string>, time: int): Request
    requires AreHeaderLines(lines)
  {
    WithHeaders(ProcessRequestLine(NO_REQUEST, line).1.(receiveTime := time), lines)
  }

  lemma RequestTextRead(bytes: string, line: string, lines: seq<string>, last: string, rest: string, time: int)
    requires IsRequestText(bytes, line, lines, last, rest)
    ensures Parse(NEW_CONTEXT, bytes, time) == Outcome(Context(GotAll, RequestOf(line, lines, time)), rest, true)
  {
    hide CrlfIn, FindCrlf, ProcessRequestLine, IsRequestLine, JoinLines, WithHeaders;
    var section :| IsHeaderSection(section, lines, last, rest) && bytes == line + "\r\n" + section;
    FirstLine(line, section);
    AcceptedIffRequestLine(NO_REQUEST, line);
    HeaderSectionRead(ProcessRequestLine(NO_REQUEST, line).1.(receiveTime := time), lines, last, rest, time);
  }

  lemma RequestTextFound(bytes: string, time: int) returns (line: string, lines: seq<string>, last: string, rest: string)
    requires Parse(NEW_CONTEXT, bytes, time).context.phase == GotAll
    ensures IsRequestText(bytes, line, lines, last, rest)
  {
    hide CrlfIn, ProcessRequestLine, IsHeaderSection;
    var crlf := FindCrlf(bytes);
    LineFound(bytes);
    line := bytes[..crlf];
    var section := bytes[crlf + 2..];
    AcceptedIffRequestLine(NO_REQUEST, line);
    lines, last, rest := HeaderSectionFound(ProcessRequestLine(NO_REQUEST, line).1.(receiveTime := time), section, time);
  }

  /** A request is complete exactly when the bytes are a request line, lines with a colon, one line
      without, and anything, each line ended by CR LF; and then it is the request these lines
      spell, with that anything unread. */
  lemma CompleteIffRequestText(bytes: string, time: int)
    ensures Parse(NEW_CONTEXT, bytes, time).context.phase == GotAll
            <==> exists line, lines, last, rest :: IsRequestText(bytes, line, lines, last, rest)
    ensures forall line, lines, last, rest :: IsRequestText(bytes, line, lines, last, rest) ==>
              Parse(NEW_CONTEXT, bytes, time) == Outcome(Context(GotAll, RequestOf(line, lines, time)), rest, true)
  {
    hide Parse, IsRequestText, RequestOf;
    forall line, lines, last, rest | IsRequestText(bytes, line, lines, last, rest)
      ensures AreHeaderLines(lines)
      ensures Parse(NEW_CONTEXT, bytes, time) == Outcome(Context(GotAll, RequestOf(line, lines, time)), rest, true)
    {
      TextHasHeaderLines(bytes, line, lines, last, rest);
      RequestTextRead(bytes, line, lines, last, rest, time);
    }
    if Parse(NEW_CONTEXT, bytes, time).context.phase == GotAll {
      var line, lines, last, rest := RequestTextFound(bytes, time);
    }
  }

  lemma TextHasHeaderLines(bytes: string, line: string, lines: seq<string>, last: string, rest: string)
    requires IsRequestText(bytes, line, lines, last, rest)
    ensures AreHeaderLines(lines)
  {
  }

  /** A first line that is complete and is no request line. */
  ghost predicate StartsBadly(bytes: string, line: string, rest: string) {
    !CrlfIn(line) && bytes == line + "\r\n" + rest && !exists m, target, d :: IsRequestLine(line, m, target, d)
  }

  lemma {:induction false} HeadersAreNeverBad(req: Request, bytes: string, time: int)
    ensures Parse(Context(ExpectHeaders, req), bytes, time).ok
    decreases |bytes|
  {
    hide Parse, FindCrlf, Find, AddHeader;
    var c := Context(ExpectHeaders, req);
    ParseOneLine(c, bytes, time);
    var crlf := FindCrlf(bytes);
    if crlf < |bytes| {
      var line := bytes[..crlf];
      if Find(line, ':') < |line| {
        HeadersAreNeverBad(AddHeader(req, line, Find(line, ':')), bytes[crlf + 2..], time);
      }
    }
  }

  /** Bytes are rejected exactly when their first line is complete and is no request line; they
      then all stay unread. */
  lemma RejectedIffStartsBadly(req: Request, bytes: string, time: int)
    ensures !Parse(Context(ExpectRequestLine, req), bytes, time).ok <==> exists line, rest :: StartsBadly(bytes, line, rest)
    ensures forall line, rest :: StartsBadly(bytes, line, rest) ==>
              Parse(Context(ExpectRequestLine, req), bytes, time) ==
              Outcome(Context(ExpectRequestLine, ProcessRequestLine(req, line).1), bytes, false)
  {
    hide Parse, ProcessRequestLine, FindCrlf, CrlfIn, IsRequestLine;
    ParseOneLine(Context(ExpectRequestLine, req), bytes, time);
    forall line, rest | StartsBadly(bytes, line, rest)
      ensures Parse(Context(ExpectRequestLine, req), bytes, time) ==
              Outcome(Context(ExpectRequestLine, ProcessRequestLine(req, line).1), bytes, false)
    {
      FirstLine(line, rest);
      AcceptedIffRequestLine(req, line);
    }
    var crlf := FindCrlf(bytes);
    if crlf < |bytes| {
      LineFound(bytes);
      var line := bytes[..crlf];
      AcceptedIffRequestLine(req, line);
      if ProcessRequestLine(req, line).0 {
        HeadersAreNeverBad(ProcessRequestLine(req, line).1.(receiveTime := time), bytes[crlf + 2..], time);
      } else {
        assert StartsBadly(bytes, line, bytes[crlf + 2..]);
      }
    }
  }

  lemma {:induction false} HeadersKeepTime(req: Request, bytes: string, time: int)
    ensures Parse(Context(ExpectHeaders, req), bytes, time).context.request.receiveTime == req.receiveTime
    decreases |bytes|
  {
    hide Parse, FindCrlf, Find;
    var c := Context(ExpectHeaders, req);
    ParseOneLine(c, bytes, time);
    var crlf := FindCrlf(bytes);
    if crlf < |bytes| {
      var line := bytes[..crlf];
      if Find(line, ':') < |line| {
        HeadersKeepTime(AddHeader(req, line, Find(line, ':')), bytes[crlf + 2..], time);
      }
    }
  }

  /** A request carries the time of the call that has read its request line. */
  lemma ReceiveTimeIsOfRequestLine(c: Context, bytes: string, time: int)
    requires Live(c)
    ensures var r := Parse(c, bytes, time).context;
            r.request.receiveTime ==
            if c.phase == ExpectRequestLine && r.phase != ExpectRequestLine then time else c.request.receiveTime
  {
    hide Parse, FindCrlf, ProcessRequestLine;
    if c.phase == ExpectHeaders {
      HeadersKeepTime(c.request, bytes, time);
    } else {
      ParseOneLine(c, bytes, time);
      var crlf := FindCrlf(bytes);
      if crlf < |bytes| {
        RequestLineKeepsTime(c.request, bytes[..crlf]);
        var (ok, req) := ProcessRequestLine(c.request, bytes[..crlf]);
        if ok {
          HeadersKeepTime(req.(receiveTime := time), bytes[crlf + 2..], time);
          StaysInHeaders(Context(ExpectHeaders, req.(receiveTime := time)), bytes[crlf + 2..], time);
        }
      }
    }
  }

  lemma RequestLineKeepsTime(req: Request, line: string)
    ensures ProcessRequestLine(req, line).1.receiveTime == req.receiveTime
  {
    hide Find;
  }

  // ----- Whether the connection is to be closed

  lemma {:induction false} LastFieldExists(fields: seq<(string, string)>, name: string)
    ensures (exists i: nat :: IsLastField(fields, i, name)) || forall i :: 0 <= i < |fields| ==> fields[i].0 != name
    decreases |fields|
  {
    if fields != [] {
      var front := fields[..|fields| - 1];
      LastFieldExists(front, name);
      if fields[|fields| - 1].0 == name {
        assert IsLastField(fields, |fields| - 1, name);
      } else if exists i: nat :: IsLastField(front, i, name) {
        var i: nat :| IsLastField(front, i, name);
        assert IsLastField(fields, i, name);
      }
    }
  }

  /** The last field of that name has that value. */
  ghost predicate LastFieldSays(fields: seq<(string, string)>, name: string, value: string) {
    exists i: nat :: IsLastField(fields, i, name) && fields[i].1 == value
  }

  /** A printed request closes the connection exactly when its last Connection line says so, or
      its version is 1.0 and that line does not ask to keep it. */
  lemma ClosesIff(m: string, target: string, d: char, fields: seq<(string, string)>, tail: string, time: int)
    requires MethodOf(m) != Invalid && ' ' !in target && !CrlfIn(target) && (d == '0' || d == '1')
    requires AreFields(fields)
    ensures Closes(Parse(NEW_CONTEXT, Print(m, target, d, fields) + tail, time).context.request)
            <==> (LastFieldSays(fields, "Connection", "close")
                  || (d == '0' && !LastFieldSays(fields, "Connection", "Keep-Alive")))
  {
    hide Parse, Print, AreFields, Fields, SetTarget;
    PrintedRequestIsRead(m, target, d, fields, tail, time);
    HeaderIsLastPrinted(m, target, d, fields, tail, time, "Connection");
    LastFieldExists(fields, "Connection");
    LastFieldIsOne(fields, "Connection");
  }

  lemma LastFieldIsOne(fields: seq<(string, string)>, name: string)
    ensures forall i: nat, j: nat :: IsLastField(fields, i, name) && IsLastField(fields, j, name) ==> i == j
  {
  }
}
