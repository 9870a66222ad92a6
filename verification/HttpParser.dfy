/** The parser as the program runs it: a request whose fields are set one by one, a context that
    consumes the connection's buffer line by line, and the server's message callback.  Every
    method is proved to compute what Http and HttpStream say. */
module HttpParser {
  import opened Options
  import opened Text
  import opened Http
  import opened HttpStream
  import opened HttpTheorems
  import opened ByteBuffer

  class HttpRequest {
    var method_: Method
    var version: Version
    var path: string
    var query: string
    var receiveTime: int
    var headers: map<string, string>

    ghost function Value(): Request
      reads this
    {
      Request(method_, version, path, query, receiveTime, headers)
    }

    constructor ()
      ensures Value() == NO_REQUEST
    {
      method_, version, path, query, receiveTime, headers := Invalid, Unknown, "", "", 0, map[];
    }

    method SetMethod(m: string) returns (known: bool)
      modifies `method_
      ensures Value() == old(Value()).(method_ := MethodOf(m)) && known == (MethodOf(m) != Invalid)
    {
      method_ := MethodOf(m);
      known := method_ != Invalid;
    }

    /** Stores a header line: the name in front of the colon, and the value without the white
        space around it. */
    method AddHeader(line: string, colon: nat)
      requires colon < |line|
      modifies `headers
      ensures Value() == Http.AddHeader(old(Value()), line, colon)
      ensures var field := line[..colon];
              field in headers && headers == old(headers)[field := headers[field]] && IsTrimmed(line[colon + 1..], headers[field])
    {
      var field := line[..colon];
      var start := colon + 1;
      while start < |line| && IsSpace(line[start])
        invariant start <= |line|
        invariant TrimLeft(line[colon + 1..]) == TrimLeft(line[start..])
      {
        start := start + 1;
      }
      var value := line[start..];
      while value != "" && IsSpace(value[|value| - 1])
        invariant TrimRight(TrimLeft(line[colon + 1..])) == TrimRight(value)
        decreases |value|
      {
        value := value[..|value| - 1];
      }
      HeaderLineStores(Value(), line, colon, value);
      headers := headers[field := value];
    }

    /** The value of a header, or the empty string. */
    method GetHeader(field: string) returns (result: string)
      ensures result == HeaderOf(Value(), field)
    {
      result := if field in headers then headers[field] else "";
    }

    method Copy() returns (copy: Request)
      ensures copy == Value()
    {
      copy := Request(method_, version, path, query, receiveTime, headers);
    }

    /** Exchanges all fields but the receive time. */
    method Swap(that: HttpRequest)
      requires this != that
      modifies this, that
      ensures Value() == old(that.Value()).(receiveTime := old(receiveTime))
      ensures that.Value() == old(Value()).(receiveTime := old(that.receiveTime))
    {
      method_, that.method_ := that.method_, method_;
      version, that.version := that.version, version;
      path, that.path := that.path, path;
      query, that.query := that.query, query;
      headers, that.headers := that.headers, headers;
    }
  }

  class HttpContext {
    var phase: Phase
    const request: HttpRequest

    ghost function Value(): Context
      reads this, request
    {
      Context(phase, request.Value())
    }

    constructor ()
      ensures Value() == NEW_CONTEXT && fresh(request)
    {
      phase := ExpectRequestLine;
      request := new HttpRequest();
    }

    method Reset()
      modifies this, request
      ensures Value() == HttpStream.Reset(old(Value()))
    {
      phase := ExpectRequestLine;
      var dummy := new HttpRequest();
      request.Swap(dummy);
    }

    method ProcessRequestLine(line: string) returns (succeed: bool)
      modifies request
      ensures Http.ProcessRequestLine(old(request.Value()), line) == (succeed, request.Value())
    {
      hide Find, Http.ProcessTarget;
      succeed := false;
      var space := Find(line, ' ');
      if space != |line| {
        var known := request.SetMethod(line[..space]);
        if known {
          succeed := ProcessTarget(line[space + 1..]);
        }
      }
    }

    /** The target and the version, behind the method. */
    method ProcessTarget(rest: string) returns (succeed: bool)
      modifies request
      ensures Http.ProcessTarget(old(request.Value()), rest) == (succeed, request.Value())
    {
      hide Find, Http.SetTarget;
      succeed := false;
      var space := Find(rest, ' ');
      if space != |rest| {
        SetTarget(rest[..space]);
        var version := rest[space + 1..];
        succeed := |version| == 8 && version[..7] == "HTTP/1.";
        if succeed {
          if version[7] == '1' {
            request.version := Http11;
          } else if version[7] == '0' {
            request.version := Http10;
          } else {
            succeed := false;
          }
        }
      }
    }

    method SetTarget(target: string)
      modifies request
      ensures request.Value() == Http.SetTarget(old(request.Value()), target)
    {
      hide Find;
      var question := Find(target, '?');
      request.path := target[..question];
      if question != |target| {
        request.query := target[question..];
      }
    }

    /** A complete line in the state that waits for the request line. */
    method ReadRequestLine(line: string, receiveTime: int) returns (ok: bool)
      requires phase == ExpectRequestLine
      modifies this, request
      ensures ReadLine(old(Value()), line, receiveTime) == (Value(), if ok then Continue else Bad)
    {
      hide Http.ProcessRequestLine;
      ok := ProcessRequestLine(line);
      if ok {
        request.receiveTime := receiveTime;
        phase := ExpectHeaders;
      }
    }

    /** A complete line in the state that waits for headers. */
    method ReadHeaderLine(line: string, ghost receiveTime: int) returns (hasMore: bool)
      requires phase == ExpectHeaders
      modifies this, request
      ensures ReadLine(old(Value()), line, receiveTime) == (Value(), if hasMore then Continue else Done)
    {
      hide Http.AddHeader;
      var colon := Find(line, ':');
      if colon != |line| {
        request.AddHeader(line, colon);
        hasMore := true;
      } else {
        phase := GotAll;
        hasMore := false;
      }
    }

    /** One iteration of the loop below. */
    method ReadNextLine(buf: Buffer, receiveTime: int) returns (ok: bool, hasMore: bool)
      requires Live(Value()) && buf.Valid()
      modifies this, request, buf`readerIndex, buf`writerIndex
      ensures buf.Valid() && buf.ReadableBytes() <= old(buf.ReadableBytes())
      ensures hasMore ==> ok && Live(Value()) && buf.ReadableBytes() + 2 <= old(buf.ReadableBytes())
      ensures hasMore ==> ParsesLike(old(Value()), old(buf.Readable()), Value(), buf.Readable(), receiveTime)
      ensures !hasMore ==> ParsesTo(old(Value()), old(buf.Readable()), receiveTime, Outcome(Value(), buf.Readable(), ok))
    {
      hide ParsesTo, ParsesLike, ReadLine, FindCrlf, CrlfAt;
      ParseOneLine(Value(), buf.Readable(), receiveTime);
      ok, hasMore := true, true;
      var crlf := buf.SearchCrlf();
      if crlf == buf.ReadableBytes() {
        hasMore := false;
      } else if phase == ExpectRequestLine {
        ok := TakeRequestLine(buf, crlf, receiveTime);
        hasMore := ok;
      } else {
        hasMore := TakeHeaderLine(buf, crlf, receiveTime);
      }
    }

    /** A bad request line is left in the buffer. */
    method TakeRequestLine(buf: Buffer, crlf: nat, receiveTime: int) returns (ok: bool)
      requires phase == ExpectRequestLine && buf.Valid() && crlf + 2 <= buf.ReadableBytes()
      modifies this, request, buf`readerIndex, buf`writerIndex
      ensures buf.Valid() && buf.Readable() == if ok then old(buf.Readable())[crlf + 2..] else old(buf.Readable())
      ensures ReadLine(old(Value()), old(buf.Readable())[..crlf], receiveTime) == (Value(), if ok then Continue else Bad)
    {
      hide ReadLine;
      var line := buf.Peek(crlf);
      ok := ReadRequestLine(line, receiveTime);
      if ok {
        buf.Retrieve(crlf + 2);
      }
    }

    method TakeHeaderLine(buf: Buffer, crlf: nat, receiveTime: int) returns (hasMore: bool)
      requires phase == ExpectHeaders && buf.Valid() && crlf + 2 <= buf.ReadableBytes()
      modifies this, request, buf`readerIndex, buf`writerIndex
      ensures buf.Valid() && buf.Readable() == old(buf.Readable())[crlf + 2..]
      ensures ReadLine(old(Value()), old(buf.Readable())[..crlf], receiveTime) == (Value(), if hasMore then Continue else Done)
    {
      hide ReadLine;
      var line := buf.Peek(crlf);
      hasMore := ReadHeaderLine(line, receiveTime);
      buf.Retrieve(crlf + 2);
    }

    /** Reads all complete lines; entered in another state than these two it would not return. */
    method ParseRequest(buf: Buffer, receiveTime: int) returns (ok: bool)
      requires Live(Value()) && buf.Valid()
      modifies this, request, buf`readerIndex, buf`writerIndex
      ensures buf.Valid()
      ensures Outcome(Value(), buf.Readable(), ok) == Parse(old(Value()), old(buf.Readable()), receiveTime)
    {
      hide Parse;
      ok := true;
      var hasMore := true;
      while hasMore
        invariant buf.Valid()
        invariant hasMore ==> Live(Value()) && Parse(Value(), buf.Readable(), receiveTime) ==
                                               Parse(old(Value()), old(buf.Readable()), receiveTime)
        invariant !hasMore ==> Outcome(Value(), buf.Readable(), ok) ==
                               Parse(old(Value()), old(buf.Readable()), receiveTime)
        decreases if hasMore then buf.ReadableBytes() + 1 else 0
      {
        ok, hasMore := ReadNextLine(buf, receiveTime);
      }
    }
  }

  /** The HTTP side of one connection: `events` is what the callback and the peer are told. */
  datatype Event = Handled(request: Request, close: bool) | BadRequest | PeerClosed | SocketError

  class HttpConnection {
    const context: HttpContext
    const input: Buffer
    var events: seq<Event>

    ghost predicate Valid()
      reads this, context, context.request, input
    {
      input.Valid() && Live(context.Value())
    }

    constructor (bufferSize: nat)
      ensures Valid() && context.Value() == NEW_CONTEXT && input.Readable() == "" && events == []
      ensures fresh(context) && fresh(context.request) && fresh(input) && fresh(input.storage)
    {
      context := new HttpContext();
      input := new Buffer(bufferSize);
      events := [];
    }

    /** The callback for bytes that have arrived. */
    method OnMessage(receiveTime: int)
      requires Valid()
      modifies `events, context, context.request, input`readerIndex, input`writerIndex
      ensures Valid()
      ensures var s := Serve(old(context.Value()), old(input.Readable()), receiveTime);
              && context.Value() == s.context && input.Readable() == s.unread
              && events == old(events) + (if s.bad then [BadRequest] else [])
                                       + (if s.request.Some? then [Handled(s.request.value, Closes(s.request.value))] else [])
    {
      hide Parse, Serve, FindCrlf, CrlfAt, ReadLine;
      ServeIs(context.Value(), input.Readable(), receiveTime);
      var ok := context.ParseRequest(input, receiveTime);
      if !ok {
        events := events + [BadRequest];
      }
      if context.phase == GotAll {
        OnRequest();
        context.Reset();
      }
    }

    /** The callback for a complete request, with the response it is given to fill. */
    method OnRequest()
      modifies `events
      ensures events == old(events) + [Handled(context.request.Value(), Closes(context.request.Value()))]
    {
      var connection := context.request.GetHeader("Connection");
      var close := connection == "close" || (context.request.version == Http10 && connection != "Keep-Alive");
      var request := context.request.Copy();
      events := events + [Handled(request, close)];
    }

    /** `handleRead`: the socket is read into the buffer; the message callback is called if that
        brought anything, and the close or the error handler if it did not. */
    method HandleRead(result: ReadResult, receiveTime: int) returns (n: int)
      requires Valid() && (result.Received? ==> |result.bytes| <= input.Offered())
      modifies `events, context, context.request, input, input.storage
      ensures Valid() && (input.storage != old(input.storage) ==> fresh(input.storage))
      ensures n == if result.Received? then |result.bytes| else -1
      ensures n <= 0 ==>
                && context.Value() == old(context.Value()) && input.Readable() == old(input.Readable())
                && events == old(events) + [if n == 0 then PeerClosed else SocketError]
      ensures n > 0 ==>
                var s := Serve(old(context.Value()), old(input.Readable()) + result.bytes, receiveTime);
                && context.Value() == s.context && input.Readable() == s.unread
                && events == old(events) + (if s.bad then [BadRequest] else [])
                                         + (if s.request.Some? then [Handled(s.request.value, Closes(s.request.value))] else [])
    {
      n := input.ReadFd(result);
      if n > 0 {
        OnMessage(receiveTime);
      } else if n == 0 {
        events := events + [PeerClosed];
      } else {
        events := events + [SocketError];
      }
    }
  }

  lemma ServeIs(c: Context, bytes: string, time: int)
    requires Live(c)
    ensures var r, s := Parse(c, bytes, time), Serve(c, bytes, time);
      && Live(s.context) && s.unread == r.unread && s.bad == !r.ok
      && (r.context.phase == GotAll ==> s.context == HttpStream.Reset(r.context) && s.request == Some(r.context.request))
      && (r.context.phase != GotAll ==> s.context == r.context && s.request == None)
  {
    hide Parse;
  }
}
