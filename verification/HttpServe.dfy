/** The keep-alive loop of native/linux-host/http-transport.cpp and the request stream it
    must serve, whatever chunks the socket delivers. */
module HttpServe {
  import opened ConnBuf

  const MAX_BODY := 64 * 1024 * 1024
  const MAX_FRAME_DIM := 4096

  // ---- strings --------------------------------------------------------------------------------

  /** Index of `c` in s from `start` on, or -1. */
  function Find(s: string, c: char, start: nat): (i: int)
    requires start <= |s|
    ensures i == -1 || (start <= i < |s| && s[i] == c)
    ensures forall k :: start <= k < (if i == -1 then |s| else i) ==> s[k] != c
    decreases |s| - start
  {
    if start == |s| then -1 else if s[start] == c then start else Find(s, c, start + 1)
  }

  function Lower(c: char): char { if 'A' <= c <= 'Z' then c + ('a' - 'A') else c }

  function LowerCase(s: string): string { seq(|s|, i requires 0 <= i < |s| => Lower(s[i])) }

  predicate IsDigit(c: char) { '0' <= c <= '9' }

  predicate IsSpace(c: char) { c == ' ' || ('\t' <= c <= '\r') }

  function Digits(s: string, acc: nat): nat {
    if s == "" || !IsDigit(s[0]) then acc else Digits(s[1..], acc * 10 + (s[0] as int - '0' as int))
  }

  /** C's atoi and atoll without their overflow. */
  function Atoi(s: string): int
    decreases |s|
  {
    if s == "" then 0
    else if IsSpace(s[0]) then Atoi(s[1..])
    else if s[0] == '-' then -(Digits(s[1..], 0) as int)
    else if s[0] == '+' then Digits(s[1..], 0)
    else Digits(s, 0)
  }

  function SkipBlanks(s: string): string {
    if s != "" && s[0] == ' ' then SkipBlanks(s[1..]) else s
  }

  /** Does `needle` occur in s? */
  predicate Contains(s: string, needle: string) {
    |needle| <= |s| && (s[..|needle|] == needle || (s != "" && Contains(s[1..], needle)))
  }

  // ---- the query --------------------------------------------------------------------------------

  datatype Fields = Fields(token: string, w: int, h: int, tw: int, th: int, engine: string)

  const NO_FIELDS := Fields("", 0, 0, 0, 0, "")

  function ApplyPair(pair: string, f: Fields): Fields {
    var eq := Find(pair, '=', 0);
    if eq == -1 then f
    else
      var key, value := pair[..eq], pair[eq + 1..];
      if key == "token" then f.(token := value)
      else if key == "w" then f.(w := Atoi(value))
      else if key == "h" then f.(h := Atoi(value))
      else if key == "tw" then f.(tw := Atoi(value))
      else if key == "th" then f.(th := Atoi(value))
      else if key == "engine" then f.(engine := value)
      else f
  }

  /** The '&'-separated pairs applied left to right: later keys win. */
  function QueryFields(query: string, f: Fields): Fields
    decreases |query|
  {
    var amp := Find(query, '&', 0);
    if amp == -1 then ApplyPair(query, f) else QueryFields(query[amp + 1..], ApplyPair(query[..amp], f))
  }

  lemma {:induction false} FindSuffix(s: string, c: char, start: nat, k: nat)
    requires start <= k <= |s|
    ensures Find(s, c, k) == (var i := Find(s[start..], c, k - start); if i == -1 then -1 else i + start)
    decreases |s| - k
  {
    if k < |s| && s[k] != c { FindSuffix(s, c, start, k + 1); }
  }

  lemma QueryStep(query: string, start: nat, f: Fields)
    requires start <= |query|
    ensures var amp := Find(query, '&', start);
      QueryFields(query[start..], f) ==
      if amp == -1 then ApplyPair(query[start..], f)
      else QueryFields(query[amp + 1..], ApplyPair(query[start..amp], f))
  {
    hide ApplyPair, Find;
    FindSuffix(query, '&', start, start);
    var amp := Find(query, '&', start);
    if amp != -1 {
      var rest := query[start..];
      assert rest[..amp - start] == query[start..amp] && rest[amp - start + 1..] == query[amp + 1..];
    }
  }

  method ParseQuery(query: string, f0: Fields) returns (f: Fields)
    ensures f == QueryFields(query, f0)
  {
    hide *;
    f := f0;
    var start := 0;
    assert query[0..] == query;
    while start <= |query|
      invariant 0 <= start <= |query|
      invariant QueryFields(query[start..], f) == QueryFields(query, f0)
      decreases |query| - start
    {
      var amp := Find(query, '&', start);
      var pair := if amp == -1 then query[start..] else query[start..amp];
      QueryStep(query, start, f);
      f := ApplyPair(pair, f);
      if amp == -1 { return f; }
      start := amp + 1;
    }
  }

  // ---- the head ---------------------------------------------------------------------------------

  datatype RequestLine = Malformed | RequestLine(verb: string, path: string, query: string)

  function ParseRequestLine(line: string): RequestLine {
    var sp1 := Find(line, ' ', 0);
    if sp1 == -1 then Malformed else
    var sp2 := Find(line, ' ', sp1 + 1);
    if sp2 == -1 then Malformed else
    var target := line[sp1 + 1..sp2];
    var qmark := Find(target, '?', 0);
    if qmark == -1 then RequestLine(line[..sp1], target, "")
    else RequestLine(line[..sp1], target[..qmark], target[qmark + 1..])
  }

  datatype Head = Head(contentLength: int, width: int, height: int, keepAlive: bool)

  function ApplyHeader(line: string, h: Head): Head {
    var colon := Find(line, ':', 0);
    if colon == -1 then h
    else
      var key, value := LowerCase(line[..colon]), SkipBlanks(line[colon + 1..]);
      if key == "content-length" then h.(contentLength := Atoi(value))
      else if key == "x-frame-width" && h.width == 0 then h.(width := Atoi(value))
      else if key == "x-frame-height" && h.height == 0 then h.(height := Atoi(value))
      else if key == "connection" then h.(keepAlive := !Contains(LowerCase(value), "close"))
      else h
  }

  datatype Call = Call(body: string, width: int, height: int, tw: int, th: int, engine: string)

  datatype Event = Handle(call: Call) | Respond(status: int, keepAlive: bool)

  /** What a complete head asks for. */
  datatype Verdict = Preflight | Reject(status: int) | Accept(length: nat)

  function Judge(line: RequestLine, f: Fields, h: Head, token: string): Verdict
    requires line.RequestLine?
  {
    if line.verb == "OPTIONS" then Preflight
    else if line.verb != "POST" || line.path != "/upscale" then Reject(404)
    else if f.token != token then Reject(403)
    else if h.width <= 0 || h.height <= 0 || h.width > MAX_FRAME_DIM || h.height > MAX_FRAME_DIM
            || h.contentLength != h.width * h.height * 4 then Reject(400)
    else if h.contentLength > MAX_BODY then Reject(413)
    else
      assert h.contentLength >= 0;
      Accept(h.contentLength)
  }

  // ---- the unbuffered server -------------------------------------------------------------------

  function LineOf(s: string): string
    requires HasLine(s)
  {
    StripCR(s[..FirstLF(s)])
  }

  function AfterLine(s: string): (r: string)
    requires HasLine(s)
    ensures |r| < |s|
  {
    s[FirstLF(s) + 1..]
  }

  /** Headers up to the blank line; a stream that ends or overflows a line ends them too. */
  function ReadHeaders(s: string, h: Head): (r: (Head, string))
    ensures |r.1| <= |s|
    decreases |s|
  {
    if !HasLine(s) then (h, s)
    else if LineOf(s) == "" then (h, AfterLine(s))
    else ReadHeaders(AfterLine(s), ApplyHeader(LineOf(s), h))
  }

  /** The handler's outcome for the n-th call it receives. */
  type Handler = (nat, Call) -> bool

  /** One request: its events, and the stream and call count to go on with, if any. */
  datatype Step = Stop(events: seq<Event>) | Next(events: seq<Event>, rest: string, n: nat)

  function Answer(events: seq<Event>, keepAlive: bool, rest: string, n: nat): Step {
    if keepAlive then Next(events, rest, n) else Stop(events)
  }

  /** The request whose head has been read. */
  function ServeBody(line: RequestLine, f: Fields, h: Head, rest: string, token: string, n: nat, accepts: Handler): Step
    requires line.RequestLine?
  {
    match Judge(line, f, h, token)
    case Preflight => Answer([Respond(204, h.keepAlive)], h.keepAlive, rest, n)
    case Reject(status) => Stop([Respond(status, false)])
    case Accept(length) =>
      if length > |rest| then Stop([])
      else
        var call := Call(rest[..length], h.width, h.height, f.tw, f.th, f.engine);
        if !accepts(n, call) then Stop([Handle(call), Respond(500, false)])
        else Answer([Handle(call), Respond(200, h.keepAlive)], h.keepAlive, rest[length..], n + 1)
  }

  function ServeOne(s: string, token: string, n: nat, accepts: Handler): (r: Step)
    ensures r.Next? ==> |r.rest| < |s|
  {
    if !HasLine(s) then Stop([])
    else
      var line := ParseRequestLine(LineOf(s));
      if line.Malformed? then Stop([Respond(400, false)])
      else
        var f := QueryFields(line.query, NO_FIELDS);
        var (h, rest) := ReadHeaders(AfterLine(s), Head(-1, f.w, f.h, true));
        ServeBody(line, f, h, rest, token, n, accepts)
  }

  /** Everything the connection does with a byte stream, read without any buffer. */
  function Serve(s: string, token: string, n: nat, accepts: Handler): seq<Event>
    decreases |s|
  {
    match ServeOne(s, token, n, accepts)
    case Stop(events) => events
    case Next(events, rest, m) => events + Serve(rest, token, m, accepts)
  }

  // ---- the buffered server ------------------------------------------------------------------------

  method ReadHead(conn: ConnBuf, h0: Head) returns (h: Head)
    requires conn.Valid()
    modifies conn, conn.buf, conn.sock
    ensures conn.Valid() && |conn.Pending()| <= |old(conn.Pending())|
    ensures conn.sock.healthy ==> (h, conn.Pending()) == ReadHeaders(old(conn.Pending()), h0)
  {
    h := h0;
    ghost var s0 := conn.Pending();
    while true
      invariant conn.Valid() && |conn.Pending()| <= |s0|
      invariant conn.sock.healthy ==> ReadHeaders(conn.Pending(), h) == ReadHeaders(s0, h0)
      decreases |conn.Pending()|
    {
      var ok, line := conn.ReadLine();
      if !ok || line == "" {
        return h;
      }
      h := ApplyHeader(line, h);
    }
  }

  /** One turn of the keep-alive loop. */
  method HandleOne(conn: ConnBuf, token: string, n: nat, accepts: Handler)
    returns (events: seq<Event>, again: bool, m: nat)
    requires conn.Valid()
    modifies conn, conn.buf, conn.sock
    ensures conn.Valid()
    ensures again ==> |conn.Pending()| < |old(conn.Pending())|
    ensures conn.sock.healthy ==>
      ServeOne(old(conn.Pending()), token, n, accepts) ==
      if again then Next(events, conn.Pending(), m) else Stop(events)
  {
    hide Judge, ParseRequestLine, QueryFields, ReadHeaders, HasLine;
    events, again, m := [], false, n;
    var ok, text := conn.ReadLine();
    if !ok { return; }
    var line := ParseRequestLine(text);
    if line.Malformed? {
      return [Respond(400, false)], false, n;
    }
    var f := ParseQuery(line.query, NO_FIELDS);
    var h := ReadHead(conn, Head(-1, f.w, f.h, true));
    ghost var rest := conn.Pending();
    match Judge(line, f, h, token) {
      case Preflight =>
        return [Respond(204, h.keepAlive)], h.keepAlive, n;
      case Reject(status) =>
        return [Respond(status, false)], false, n;
      case Accept(length) =>
        var got, body := conn.ReadExact("", length);
        if !got { return; }
        assert body == rest[..length];
        var call := Call(body, h.width, h.height, f.tw, f.th, f.engine);
        events := [Handle(call)];
        if !accepts(n, call) {
          return events + [Respond(500, false)], false, n;
        }
        return events + [Respond(200, h.keepAlive)], h.keepAlive, n + 1;
    }
  }

  /** handle_conn: on a healthy connection the events are those of the unbuffered server, so
      they do not depend on how the bytes were split between receives. */
  method HandleConn(conn: ConnBuf, token: string, accepts: Handler) returns (events: seq<Event>)
    requires conn.Valid()
    modifies conn, conn.buf, conn.sock
    ensures conn.sock.healthy ==> events == Serve(old(conn.Pending()), token, 0, accepts)
  {
    hide ServeOne;
    events := [];
    ghost var s0 := conn.Pending();
    var n, again := 0, true;
    while again
      invariant conn.Valid()
      invariant conn.sock.healthy ==>
                  Serve(s0, token, 0, accepts) ==
                  if again then events + Serve(conn.Pending(), token, n, accepts) else events
      decreases again, |conn.Pending()|
    {
      ghost var s, before, k := conn.Pending(), events, n;
      var more;
      more, again, n := HandleOne(conn, token, n, accepts);
      events := events + more;
      if again { Appended(before, more, Serve(conn.Pending(), token, n, accepts)); }
    }
  }

  lemma Appended(a: seq<Event>, b: seq<Event>, c: seq<Event>)
    ensures (a + b) + c == a + (b + c)
  {
  }
}
