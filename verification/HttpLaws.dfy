/** Request streams: what a connection carrying well-formed requests makes the host do. */
module HttpLaws {
  import opened ConnBuf
  import opened HttpServe

  /** A request as sent: raw lines (an optional CR belongs to the line), the last one blank,
      then the body. */
  datatype Request = Request(first: string, headers: seq<string>, blank: string, body: string)

  ghost predicate IsLine(l: string) { |l| < BUFFER_SIZE && forall k :: 0 <= k < |l| ==> l[k] != '\n' }

  /** A raw line, its terminator, and the rest of the stream. */
  function Line(l: string, rest: string): string { l + ['\n'] + rest }

  function HeaderLines(headers: seq<string>, rest: string): string {
    if headers == [] then rest else Line(headers[0], HeaderLines(headers[1..], rest))
  }

  /** The request's bytes followed by the rest of the stream. */
  function Bytes(p: Request, rest: string): string {
    Line(p.first, HeaderLines(p.headers, Line(p.blank, p.body + rest)))
  }

  function StreamOf(requests: seq<Request>, rest: string): string {
    if requests == [] then rest else Bytes(requests[0], StreamOf(requests[1..], rest))
  }

  // ---- the head as the parser sees it -----------------------------------------------------------

  function HeadOf(headers: seq<string>, h: Head): Head {
    if headers == [] then h else HeadOf(headers[1..], ApplyHeader(StripCR(headers[0]), h))
  }

  function LineIn(p: Request): RequestLine { ParseRequestLine(StripCR(p.first)) }

  function FieldsOf(p: Request): Fields
    requires LineIn(p).RequestLine?
  {
    QueryFields(LineIn(p).query, NO_FIELDS)
  }

  function HeadIn(p: Request): Head
    requires LineIn(p).RequestLine?
  {
    HeadOf(p.headers, Head(-1, FieldsOf(p).w, FieldsOf(p).h, true))
  }

  function VerdictOn(p: Request, token: string): Verdict
    requires LineIn(p).RequestLine?
  {
    Judge(LineIn(p), FieldsOf(p), HeadIn(p), token)
  }

  function CallOf(p: Request): Call
    requires LineIn(p).RequestLine?
  {
    Call(p.body, HeadIn(p).width, HeadIn(p).height, FieldsOf(p).tw, FieldsOf(p).th, FieldsOf(p).engine)
  }

  ghost predicate IsHeaders(headers: seq<string>) {
    forall k :: 0 <= k < |headers| ==> IsLine(headers[k]) && StripCR(headers[k]) != ""
  }

  predicate IsPreflight(p: Request, token: string) { LineIn(p).RequestLine? && VerdictOn(p, token).Preflight? }

  /** A keep-alive request the host must serve, framed correctly: a POST judged acceptable, or an OPTIONS
      preflight without a body. */
  ghost predicate ValidRequest(p: Request, token: string) {
    && IsLine(p.first) && IsHeaders(p.headers) && IsLine(p.blank) && StripCR(p.blank) == ""
    && LineIn(p).RequestLine?
    && (VerdictOn(p, token) == Accept(|p.body|) || (IsPreflight(p, token) && p.body == ""))
    && HeadIn(p).keepAlive
  }

  ghost predicate AllValid(requests: seq<Request>, token: string) {
    requests == [] || (ValidRequest(requests[0], token) && AllValid(requests[1..], token))
  }

  // ---- reading ---------------------------------------------------------------------------------

  lemma LineThenRest(l: string, rest: string)
    requires IsLine(l)
    ensures HasLine(Line(l, rest))
    ensures LineOf(Line(l, rest)) == StripCR(l) && AfterLine(Line(l, rest)) == rest
  {
    var s := Line(l, rest);
    FirstLFIs(s, |l|);
    assert s[..|l|] == l && s[|l| + 1..] == rest;
  }

  lemma HeaderStep(l: string, rest: string, h: Head)
    requires IsLine(l)
    ensures ReadHeaders(Line(l, rest), h) ==
            if StripCR(l) == "" then (h, rest) else ReadHeaders(rest, ApplyHeader(StripCR(l), h))
  {
    hide ApplyHeader, StripCR, IsLine, Line, HasLine;
    LineThenRest(l, rest);
  }

  /** Headers in a row are applied in order; the reader then stands right behind them. */
  lemma {:induction false} HeadersRead(headers: seq<string>, rest: string, h: Head)
    requires IsHeaders(headers)
    ensures ReadHeaders(HeaderLines(headers, rest), h) == ReadHeaders(rest, HeadOf(headers, h))
  {
    hide ApplyHeader, StripCR, IsLine, Line, ReadHeaders;
    if headers != [] {
      HeaderStep(headers[0], HeaderLines(headers[1..], rest), h);
      HeadersRead(headers[1..], rest, ApplyHeader(StripCR(headers[0]), h));
    }
  }

  /** A request whose head ends is judged on that head, with the stream behind it. */
  lemma HeadIsRead(p: Request, rest: string, token: string, n: nat, accepts: Handler)
    requires IsLine(p.first) && IsHeaders(p.headers) && IsLine(p.blank) && StripCR(p.blank) == ""
    requires LineIn(p).RequestLine?
    ensures ServeOne(Bytes(p, rest), token, n, accepts)
            == ServeBody(LineIn(p), FieldsOf(p), HeadIn(p), p.body + rest, token, n, accepts)
  {
    hide Judge, ApplyHeader, HasLine, StripCR, IsLine, ParseRequestLine, QueryFields, ReadHeaders, HeadOf, Line, ServeBody;
    var end := Line(p.blank, p.body + rest);
    var h := Head(-1, FieldsOf(p).w, FieldsOf(p).h, true);
    LineThenRest(p.first, HeaderLines(p.headers, end));
    HeadersRead(p.headers, end, h);
    HeaderStep(p.blank, p.body + rest, HeadOf(p.headers, h));
  }

  /** A valid request is served whole, a POST with exactly its body, and leaves the stream at the first
      byte after it. */
  lemma RequestServed(p: Request, rest: string, token: string, n: nat, accepts: Handler)
    requires ValidRequest(p, token)
    ensures ServeOne(Bytes(p, rest), token, n, accepts) ==
            if IsPreflight(p, token) then Next([Respond(204, true)], rest, n)
            else if accepts(n, CallOf(p)) then Next([Handle(CallOf(p)), Respond(200, true)], rest, n + 1)
            else Stop([Handle(CallOf(p)), Respond(500, false)])
  {
    hide Judge, ApplyHeader, HasLine, StripCR, IsLine, ParseRequestLine, QueryFields, ReadHeaders, HeadOf, Line;
    var end := Line(p.blank, p.body + rest);
    var h := Head(-1, FieldsOf(p).w, FieldsOf(p).h, true);
    LineThenRest(p.first, HeaderLines(p.headers, end));
    HeadersRead(p.headers, end, h);
    HeaderStep(p.blank, p.body + rest, HeadOf(p.headers, h));
    assert (p.body + rest)[..|p.body|] == p.body && (p.body + rest)[|p.body|..] == rest;
  }

  /** One call and one 200 per POST and one 204 per preflight, in order, until the handler first fails;
      the calls are numbered from n. */
  function Expected(requests: seq<Request>, rest: string, token: string, n: nat, accepts: Handler): seq<Event>
    requires AllValid(requests, token)
  {
    if requests == [] then Serve(rest, token, n, accepts)
    else
      var p := requests[0];
      if IsPreflight(p, token) then [Respond(204, true)] + Expected(requests[1..], rest, token, n, accepts)
      else if !accepts(n, CallOf(p)) then [Handle(CallOf(p)), Respond(500, false)]
      else [Handle(CallOf(p)), Respond(200, true)] + Expected(requests[1..], rest, token, n + 1, accepts)
  }

  /** Pipelined keep-alive requests (sections 6.3 and 9.3 of RFC 9112): valid POSTs, with preflights
      anywhere between them, cause one call each with exactly their bodies, in order, and whatever follows
      is then served as if the connection had just begun. */
  lemma {:induction false} KeepAliveStream(requests: seq<Request>, rest: string, token: string, n: nat, accepts: Handler)
    requires AllValid(requests, token)
    ensures Serve(StreamOf(requests, rest), token, n, accepts) == Expected(requests, rest, token, n, accepts)
  {
    hide ServeOne, Bytes, CallOf, ValidRequest, LineIn, HasLine, IsPreflight;
    if requests != [] {
      var p := requests[0];
      assert ValidRequest(p, token);
      RequestServed(p, StreamOf(requests[1..], rest), token, n, accepts);
      KeepAliveStream(requests[1..], rest, token, if IsPreflight(p, token) then n else n + 1, accepts);
    }
  }

  /** The frame-size limit already bounds the body, so the 413 answer is never given. */
  lemma NoPayloadTooLarge(line: RequestLine, f: Fields, h: Head, token: string)
    requires line.RequestLine?
    ensures Judge(line, f, h, token) != Reject(413)
    ensures Judge(line, f, h, token).Accept? ==> Judge(line, f, h, token).length <= MAX_BODY
  {
    if 0 < h.width <= MAX_FRAME_DIM && 0 < h.height <= MAX_FRAME_DIM {
      assert h.width * h.height <= MAX_FRAME_DIM * h.height;
    }
  }

  /** A head that never ends: the stream stops inside a header line, or that line is 64 KiB or longer. The
      request reaches the handler all the same, exactly if the headers so far are acceptable and what was
      to be a header holds enough bytes for a body. */
  lemma UnfinishedHeadServedIff(p: Request, tail: string, token: string, n: nat, accepts: Handler)
    requires IsLine(p.first) && IsHeaders(p.headers) && LineIn(p).RequestLine? && !HasLine(tail)
    ensures var events := ServeOne(Line(p.first, HeaderLines(p.headers, tail)), token, n, accepts).events;
      var served := VerdictOn(p, token).Accept? && VerdictOn(p, token).length <= |tail|;
      && ((exists call :: Handle(call) in events) <==> served)
      && (served ==> |events| == 2 && events[0] == Handle(CallOf(p.(body := tail[..VerdictOn(p, token).length]))))
  {
    hide Judge, ApplyHeader, HasLine, StripCR, IsLine, ParseRequestLine, QueryFields, HeadOf, Line;
    LineThenRest(p.first, HeaderLines(p.headers, tail));
    HeadersRead(p.headers, tail, Head(-1, FieldsOf(p).w, FieldsOf(p).h, true));
    var events := ServeOne(Line(p.first, HeaderLines(p.headers, tail)), token, n, accepts).events;
    assert VerdictOn(p, token).Accept? && VerdictOn(p, token).length <= |tail| ==> events[0] in events;
  }

  /** Both kinds of unfinished head occur: no line feed at all, and one that comes too late. */
  lemma TailsWithoutLine(tail: string)
    ensures !HasLine(tail) <==> (forall k :: 0 <= k < |tail| && k < BUFFER_SIZE ==> tail[k] != '\n')
  {
  }
}
