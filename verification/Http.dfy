/** What the incremental HTTP parser computes, as a function of its state and of the bytes that
    are waiting.  The grammar is the program's own: a header section ends at the first line
    without a colon, and there are no bodies. */
module Http {
  import opened Text

  datatype Method = Invalid | GET | POST | HEAD | PUT | DELETE
  datatype Version = Unknown | Http10 | Http11

  datatype Request = Request(
    method_: Method, version: Version, path: string, query: string,
    receiveTime: int, headers: map<string, string>)

  const NO_REQUEST := Request(Invalid, Unknown, "", "", 0, map[])

  datatype Phase = ExpectRequestLine | ExpectHeaders | ExpectBody | GotAll

  datatype Context = Context(phase: Phase, request: Request)

  const NEW_CONTEXT := Context(ExpectRequestLine, NO_REQUEST)

  // ----- The request line

  function MethodOf(m: string): Method {
    if m == "GET" then GET
    else if m == "POST" then POST
    else if m == "HEAD" then HEAD
    else if m == "PUT" then PUT
    else if m == "DELETE" then DELETE
    else Invalid
  }

  /** `methodString` */
  function MethodString(m: Method): string {
    match m
    case GET => "GET"
    case POST => "POST"
    case HEAD => "HEAD"
    case PUT => "PUT"
    case DELETE => "DELETE"
    case Invalid => "UNKNOWN"
  }

  /** `processRequestLine`: whether it succeeds, and the request fields it leaves behind, which
      it sets as it goes even if it fails later. */
  function ProcessRequestLine(req: Request, line: string): (r: (bool, Request)) {
    var space := Find(line, ' ');
    if space == |line| then (false, req)
    else
      var req1 := req.(method_ := MethodOf(line[..space]));
      if req1.method_ == Invalid then (false, req1)
      else ProcessTarget(req1, line[space + 1..])
  }

  /** The part behind the method: target, space, version. */
  function ProcessTarget(req: Request, rest: string): (r: (bool, Request)) {
    var space := Find(rest, ' ');
    if space == |rest| then (false, req)
    else
      var req1 := SetTarget(req, rest[..space]);
      var version := rest[space + 1..];
      if |version| == 8 && version[..7] == "HTTP/1." && version[7] == '1' then (true, req1.(version := Http11))
      else if |version| == 8 && version[..7] == "HTTP/1." && version[7] == '0' then (true, req1.(version := Http10))
      else (false, req1)
  }

  /** The query keeps its question mark; without one it is not touched. */
  function SetTarget(req: Request, target: string): Request {
    var question := Find(target, '?');
    if question < |target| then req.(path := target[..question], query := target[question..])
    else req.(path := target)
  }

  // ----- Header lines

  predicate IsSpace(c: char) {
    c == ' ' || c == '\t' || c == '\n' || c == 11 as char || c == 12 as char || c == '\r'
  }

  function TrimLeft(s: string): string {
    if s != [] && IsSpace(s[0]) then TrimLeft(s[1..]) else s
  }

  function TrimRight(s: string): string {
    if s != [] && IsSpace(s[|s| - 1]) then TrimRight(s[..|s| - 1]) else s
  }

  /** `addHeader` on a line whose first colon is at `colon`. */
  function AddHeader(req: Request, line: string, colon: nat): Request
    requires colon < |line|
  {
    req.(headers := req.headers[line[..colon] := TrimRight(TrimLeft(line[colon + 1..]))])
  }

  /** `getHeader` */
  function HeaderOf(req: Request, field: string): string {
    if field in req.headers then req.headers[field] else ""
  }

  /** `onRequest`: what the response is created with. */
  function Closes(req: Request): bool {
    var connection := HeaderOf(req, "Connection");
    connection == "close" || (req.version == Http10 && connection != "Keep-Alive")
  }

  // ----- The parser

  /** The states in which `parseRequest` makes progress or returns. */
  predicate Live(c: Context) {
    c.phase == ExpectRequestLine || c.phase == ExpectHeaders
  }

  datatype Verdict = Continue | Done | Bad

  /** What one complete line does: the parser goes on, has the request, or gives up. */
  function ReadLine(c: Context, line: string, time: int): (r: (Context, Verdict))
    requires Live(c)
    ensures r.1 == Continue ==> r.0.phase == ExpectHeaders
    ensures r.1 == Done ==> c.phase == ExpectHeaders && r.0.phase == GotAll
    ensures r.1 == Bad ==> c.phase == ExpectRequestLine && r.0.phase == ExpectRequestLine
  {
    if c.phase == ExpectRequestLine then
      var (ok, req) := ProcessRequestLine(c.request, line);
      if ok then (Context(ExpectHeaders, req.(receiveTime := time)), Continue)
      else (Context(ExpectRequestLine, req), Bad)
    else
      var colon := Find(line, ':');
      if colon < |line| then (Context(ExpectHeaders, AddHeader(c.request, line, colon)), Continue)
      else (Context(GotAll, c.request), Done)
  }

  datatype Outcome = Outcome(context: Context, unread: string, ok: bool)

  /** `parseRequest`: consumes complete lines until the request is complete, a request line is
      bad (and stays unread), or there is no complete line. */
  function Parse(c: Context, bytes: string, time: int): (r: Outcome)
    requires Live(c)
    ensures r.context.phase != ExpectBody && |r.unread| <= |bytes|
    ensures r.context.phase == GotAll ==> r.ok && |r.unread| + 2 <= |bytes|
    ensures !r.ok ==> r.context.phase == ExpectRequestLine
    decreases |bytes|
  {
    var crlf := FindCrlf(bytes);
    if crlf == |bytes| then Outcome(c, bytes, true)
    else
      var rest := bytes[crlf + 2..];
      var (next, verdict) := ReadLine(c, bytes[..crlf], time);
      match verdict
      case Continue => Parse(next, rest, time)
      case Done => Outcome(next, rest, true)
      case Bad => Outcome(next, bytes, false)
  }

  /** What is unread is the end of the input, a complete request has taken at least two bytes, and
      after a bad line the parser still expects a request line. */
  lemma {:induction false} ParseLeavesSuffix(c: Context, bytes: string, time: int)
    requires Live(c)
    ensures var r := Parse(c, bytes, time);
            && |r.unread| <= |bytes| && r.unread == bytes[|bytes| - |r.unread|..]
            && (r.context.phase == GotAll ==> r.ok && |r.unread| + 2 <= |bytes|)
            && (!r.ok ==> r.context.phase == ExpectRequestLine)
    decreases |bytes|
  {
    var crlf := FindCrlf(bytes);
    if crlf < |bytes| {
      var (next, verdict) := ReadLine(c, bytes[..crlf], time);
      if verdict == Continue {
        var rest := bytes[crlf + 2..];
        ParseLeavesSuffix(next, rest, time);
        assert Parse(c, bytes, time) == Parse(next, rest, time) by {
          hide FindCrlf, ReadLine;
        }
        hide *;
        SuffixOfSuffix(bytes, crlf + 2, |Parse(next, rest, time).unread|);
      } else {
        assert Parse(c, bytes, time).unread == if verdict == Done then bytes[crlf + 2..] else bytes by {
          hide FindCrlf, ReadLine;
        }
        hide *;
      }
    } else {
      assert Parse(c, bytes, time).unread == bytes by {
        hide FindCrlf, ReadLine;
      }
      hide *;
    }
  }

  lemma SuffixOfSuffix(bytes: string, from: nat, n: nat)
    requires from + n <= |bytes|
    ensures bytes[from..][|bytes| - from - n..] == bytes[|bytes| - n..]
  {
  }
}
