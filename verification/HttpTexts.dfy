/** What the server does with requests written out character by character. */
module HttpTexts {
  import opened Arith
  import opened ConnBuf
  import opened HttpServe
  import opened HttpLaws

  // ---- numbers ------------------------------------------------------------------------------------------

  function DigitChar(d: nat): char
    requires d < 10
  {
    '0' + d as char
  }

  function Decimal(n: nat): string {
    if n < 10 then [DigitChar(n)] else Decimal(n / 10) + [DigitChar(n % 10)]
  }

  ghost predicate AllDigits(s: string) { forall k :: 0 <= k < |s| ==> IsDigit(s[k]) }

  lemma {:induction false} DigitsAppend(s: string, c: char, acc: nat)
    requires AllDigits(s) && IsDigit(c)
    ensures Digits(s + [c], acc) == Digits(s, acc) * 10 + (c as int - '0' as int)
  {
    if s == "" {
      assert s + [c] == [c] && [c][1..] == "";
    } else {
      assert (s + [c])[0] == s[0] && (s + [c])[1..] == s[1..] + [c];
      DigitsAppend(s[1..], c, acc * 10 + (s[0] as int - '0' as int));
    }
  }

  lemma {:induction false} DecimalIsRead(n: nat)
    ensures Decimal(n) != "" && AllDigits(Decimal(n)) && Digits(Decimal(n), 0) == n
  {
    if n < 10 {
      assert Decimal(n)[1..] == "";
    } else {
      DecimalIsRead(n / 10);
      DigitsAppend(Decimal(n / 10), DigitChar(n % 10), 0);
    }
  }

  lemma AtoiDecimal(n: nat)
    ensures Atoi(Decimal(n)) == n
  {
    DecimalIsRead(n);
  }

  lemma {:induction false} DigitsStop(s: string, rest: string, acc: nat)
    requires AllDigits(s) && (rest == "" || !IsDigit(rest[0]))
    ensures Digits(s + rest, acc) == Digits(s, acc)
  {
    if s == "" {
      assert s + rest == rest;
    } else {
      assert (s + rest)[0] == s[0] && (s + rest)[1..] == s[1..] + rest;
      DigitsStop(s[1..], rest, acc * 10 + (s[0] as int - '0' as int));
    }
  }

  ghost predicate AllSpace(s: string) {
    forall k :: 0 <= k < |s| ==> s[k] == ' ' || (9 <= s[k] as int <= 13)
  }

  lemma {:induction false} AtoiSkipsSpace(blanks: string, s: string)
    requires AllSpace(blanks)
    ensures Atoi(blanks + s) == Atoi(s)
  {
    hide Digits;
    if blanks == "" {
      assert blanks + s == s;
    } else {
      assert (blanks + s)[0] == blanks[0] && (blanks + s)[1..] == blanks[1..] + s;
      AtoiSkipsSpace(blanks[1..], s);
    }
  }

  /** A number is read behind white space, under its sign, up to the first character that is no digit. */
  lemma AtoiText(blanks: string, sign: string, n: nat, rest: string)
    requires AllSpace(blanks) && (sign == "" || sign == "+" || sign == "-")
    requires rest == "" || !('0' <= rest[0] <= '9')
    ensures Atoi(blanks + (sign + (Decimal(n) + rest))) == if sign == "-" then -(n as int) else n
  {
    AtoiSkipsSpace(blanks, sign + (Decimal(n) + rest));
    DecimalIsRead(n);
    DigitsStop(Decimal(n), rest, 0);
    SignedIs(sign, Decimal(n) + rest);
    hide Decimal, Atoi, Digits;
  }

  /** A text without one is 0. */
  lemma AtoiNoNumber(blanks: string, sign: string, rest: string)
    requires AllSpace(blanks) && (sign == "" || sign == "+" || sign == "-")
    requires rest == "" || !('0' <= rest[0] <= '9')
    requires sign != "" || rest == "" || (!AllSpace([rest[0]]) && rest[0] != '+' && rest[0] != '-')
    ensures Atoi(blanks + (sign + rest)) == 0
  {
    AtoiSkipsSpace(blanks, sign + rest);
    if sign == "" && rest != "" { assert [rest[0]][0] == rest[0]; }
    SignedIs(sign, rest);
  }

  lemma SignedIs(sign: string, s: string)
    requires sign == "" || sign == "+" || sign == "-"
    ensures sign == "+" ==> Atoi(sign + s) == Digits(s, 0)
    ensures sign == "-" ==> Atoi(sign + s) == -(Digits(s, 0) as int)
    ensures sign == "" && s == "" ==> Atoi(sign + s) == 0
    ensures sign == "" && s != "" && !IsSpace(s[0]) && s[0] != '+' && s[0] != '-' ==> Atoi(sign + s) == Digits(s, 0)
  {
    hide Digits;
    if sign == "" { assert sign + s == s; } else { assert (sign + s)[1..] == s; }
  }

  // ---- finding -------------------------------------------------------------------------------------------

  lemma FindIs(s: string, c: char, start: nat, k: nat)
    requires start <= k < |s| && s[k] == c && forall j :: start <= j < k ==> s[j] != c
    ensures Find(s, c, start) == k
  {
  }

  lemma FindNone(s: string, c: char)
    requires c !in s
    ensures Find(s, c, 0) == -1
  {
  }

  // ---- the query -----------------------------------------------------------------------------------------

  lemma QueryPair(pair: string, rest: string, f: Fields)
    requires '&' !in pair
    ensures QueryFields(pair + "&" + rest, f) == QueryFields(rest, ApplyPair(pair, f))
  {
    hide ApplyPair;
    var s := pair + "&" + rest;
    FindIs(s, '&', 0, |pair|);
    assert s[..|pair|] == pair && s[|pair| + 1..] == rest;
  }

  lemma LastPair(pair: string, f: Fields)
    requires '&' !in pair
    ensures QueryFields(pair, f) == ApplyPair(pair, f)
  {
    hide ApplyPair;
    FindNone(pair, '&');
  }

  lemma PairIs(key: string, value: string, f: Fields)
    requires '=' !in key
    ensures var pair := key + "=" + value;
      Find(pair, '=', 0) == |key| && pair[..|key|] == key && pair[|key| + 1..] == value
  {
    FindIs(key + "=" + value, '=', 0, |key|);
  }

  lemma PairsSet(value: string, f: Fields)
    ensures ApplyPair("token" + "=" + value, f) == f.(token := value)
    ensures ApplyPair("w" + "=" + value, f) == f.(w := Atoi(value))
    ensures ApplyPair("h" + "=" + value, f) == f.(h := Atoi(value))
    ensures ApplyPair("tw" + "=" + value, f) == f.(tw := Atoi(value))
    ensures ApplyPair("th" + "=" + value, f) == f.(th := Atoi(value))
    ensures ApplyPair("engine" + "=" + value, f) == f.(engine := value)
  {
    hide Atoi;
    PairIs("token", value, f);
    PairIs("w", value, f);
    PairIs("h", value, f);
    PairIs("tw", value, f);
    PairIs("th", value, f);
    PairIs("engine", value, f);
    hide Find;
  }

  function SizedQuery(token: string, w: nat, h: nat, tw: nat, th: nat, engine: string): string {
    "token=" + token + "&w=" + Decimal(w) + "&h=" + Decimal(h) + "&tw=" + Decimal(tw) + "&th=" + Decimal(th)
    + "&engine=" + engine
  }

  function BareQuery(token: string, tw: nat, th: nat, engine: string): string {
    "token=" + token + "&tw=" + Decimal(tw) + "&th=" + Decimal(th) + "&engine=" + engine
  }

  lemma DecimalHasNo(n: nat, c: char)
    requires !IsDigit(c)
    ensures c !in Decimal(n)
  {
    DecimalIsRead(n);
  }

  lemma NumberPair(key: string, n: nat, rest: string, f: Fields)
    requires '&' !in key
    ensures QueryFields(key + "=" + Decimal(n) + "&" + rest, f) == QueryFields(rest, ApplyPair(key + "=" + Decimal(n), f))
  {
    DecimalHasNo(n, '&');
    QueryPair(key + "=" + Decimal(n), rest, f);
  }

  lemma SizedQueryIs(token: string, w: nat, h: nat, tw: nat, th: nat, engine: string)
    requires '&' !in token && '&' !in engine
    ensures QueryFields(SizedQuery(token, w, h, tw, th, engine), NO_FIELDS) == Fields(token, w, h, tw, th, engine)
  {
    hide QueryFields, ApplyPair, Decimal, Atoi;
    var q6 := "engine" + "=" + engine;
    var q5 := "th" + "=" + Decimal(th) + "&" + q6;
    var q4 := "tw" + "=" + Decimal(tw) + "&" + q5;
    var q3 := "h" + "=" + Decimal(h) + "&" + q4;
    var q2 := "w" + "=" + Decimal(w) + "&" + q3;
    assert SizedQuery(token, w, h, tw, th, engine) == "token" + "=" + token + "&" + q2;
    QueryPair("token" + "=" + token, q2, NO_FIELDS);
    var f1 := NO_FIELDS.(token := token);
    PairsSet(token, NO_FIELDS);
    NumberPair("w", w, q3, f1);
    PairsSet(Decimal(w), f1);
    AtoiDecimal(w);
    var f2 := f1.(w := w);
    NumberPair("h", h, q4, f2);
    PairsSet(Decimal(h), f2);
    AtoiDecimal(h);
    TargetsAndEngine(f2.(h := h), tw, th, engine);
  }

  lemma TargetsAndEngine(f: Fields, tw: nat, th: nat, engine: string)
    requires '&' !in engine
    ensures QueryFields("tw" + "=" + Decimal(tw) + "&" + ("th" + "=" + Decimal(th) + "&" + ("engine" + "=" + engine)), f)
            == f.(tw := tw, th := th, engine := engine)
  {
    hide QueryFields, ApplyPair, Decimal, Atoi;
    var q6 := "engine" + "=" + engine;
    var q5 := "th" + "=" + Decimal(th) + "&" + q6;
    NumberPair("tw", tw, q5, f);
    PairsSet(Decimal(tw), f);
    AtoiDecimal(tw);
    var g := f.(tw := tw);
    NumberPair("th", th, q6, g);
    PairsSet(Decimal(th), g);
    AtoiDecimal(th);
    LastPair(q6, g.(th := th));
    PairsSet(engine, g.(th := th));
  }

  lemma BareQueryIs(token: string, tw: nat, th: nat, engine: string)
    requires '&' !in token && '&' !in engine
    ensures QueryFields(BareQuery(token, tw, th, engine), NO_FIELDS) == Fields(token, 0, 0, tw, th, engine)
  {
    hide QueryFields, ApplyPair, Decimal;
    var q4 := "tw" + "=" + Decimal(tw) + "&" + ("th" + "=" + Decimal(th) + "&" + ("engine" + "=" + engine));
    assert BareQuery(token, tw, th, engine) == "token" + "=" + token + "&" + q4;
    QueryPair("token" + "=" + token, q4, NO_FIELDS);
    PairsSet(token, NO_FIELDS);
    TargetsAndEngine(NO_FIELDS.(token := token), tw, th, engine);
  }

  // ---- the request line ----------------------------------------------------------------------------------

  /** The first line of a request. */
  function FirstLine(verb: string, target: string): string { verb + " " + target + " HTTP/1.1" }

  lemma LineParts(verb: string, target: string)
    requires ' ' !in verb && ' ' !in target
    ensures var line, v := FirstLine(verb, target), |verb|;
      && Find(line, ' ', 0) == v && line[..v] == verb
      && Find(line, ' ', v + 1) == v + 1 + |target| && line[v + 1..v + 1 + |target|] == target
  {
    var line, v := FirstLine(verb, target), |verb|;
    forall k | 0 <= k < v ensures line[k] == verb[k] {
    }
    forall k | v + 1 <= k < v + 1 + |target| ensures line[k] == target[k - v - 1] {
    }
    FindIs(line, ' ', 0, v);
    FindIs(line, ' ', v + 1, v + 1 + |target|);
  }

  lemma TargetParts(path: string, query: string)
    requires '?' !in path
    ensures var target := path + "?" + query;
      Find(target, '?', 0) == |path| && target[..|path|] == path && target[|path| + 1..] == query
  {
    FindIs(path + "?" + query, '?', 0, |path|);
  }

  lemma ParsedAs(line: string, sp1: nat, sp2: nat, target: string, qmark: nat, path: string, query: string)
    requires Find(line, ' ', 0) == sp1 && sp1 < |line| && Find(line, ' ', sp1 + 1) == sp2
    requires line[sp1 + 1..sp2] == target && Find(target, '?', 0) == qmark
    requires target[..qmark] == path && target[qmark + 1..] == query
    ensures ParseRequestLine(line) == RequestLine(line[..sp1], path, query)
  {
    hide Find;
  }

  lemma FirstLineIs(verb: string, path: string, query: string)
    requires ' ' !in verb && ' ' !in path && '?' !in path && ' ' !in query
    ensures ParseRequestLine(FirstLine(verb, path + "?" + query)) == RequestLine(verb, path, query)
  {
    hide Find, ParseRequestLine, FirstLine;
    var target := path + "?" + query;
    LineParts(verb, target);
    TargetParts(path, query);
    ParsedAs(FirstLine(verb, target), |verb|, |verb| + 1 + |target|, target, |path|, path, query);
  }

  // ---- headers -------------------------------------------------------------------------------------------

  lemma NamesLower()
    ensures LowerCase("Content-Length") == "content-length"
    ensures LowerCase("X-Frame-Width") == "x-frame-width"
    ensures LowerCase("X-Frame-Height") == "x-frame-height"
  {
    var a, b, c := "Content-Length", "X-Frame-Width", "X-Frame-Height";
    assert LowerCase(a) == "content-length";
    assert LowerCase(b) == "x-frame-width";
    assert LowerCase(c) == "x-frame-height";
  }

  lemma HeaderIs(name: string, n: nat)
    requires ':' !in name
    ensures var line := name + ": " + Decimal(n);
      Find(line, ':', 0) == |name| && line[..|name|] == name && SkipBlanks(line[|name| + 1..]) == Decimal(n)
  {
    var line := name + ": " + Decimal(n);
    FindIs(line, ':', 0, |name|);
    var value := line[|name| + 1..];
    assert value == " " + Decimal(n) && value[1..] == Decimal(n);
    DecimalIsRead(n);
  }

  lemma LengthSet(n: nat, h: Head)
    ensures ApplyHeader("Content-Length" + ": " + Decimal(n), h) == h.(contentLength := n)
  {
    HeaderIs("Content-Length", n);
    NamesLower();
    AtoiDecimal(n);
    hide Find, Atoi, LowerCase, SkipBlanks, Decimal;
  }

  lemma WidthSet(n: nat, h: Head)
    ensures h.width == 0 ==> ApplyHeader("X-Frame-Width" + ": " + Decimal(n), h) == h.(width := n)
  {
    HeaderIs("X-Frame-Width", n);
    NamesLower();
    AtoiDecimal(n);
    hide Find, Atoi, LowerCase, SkipBlanks, Decimal;
  }

  lemma HeightSet(n: nat, h: Head)
    ensures h.height == 0 ==> ApplyHeader("X-Frame-Height" + ": " + Decimal(n), h) == h.(height := n)
  {
    HeaderIs("X-Frame-Height", n);
    NamesLower();
    AtoiDecimal(n);
    hide Find, Atoi, LowerCase, SkipBlanks, Decimal;
  }

  lemma HeadersSet(n: nat, h: Head)
    ensures ApplyHeader("Content-Length" + ": " + Decimal(n), h) == h.(contentLength := n)
    ensures h.width == 0 ==> ApplyHeader("X-Frame-Width" + ": " + Decimal(n), h) == h.(width := n)
    ensures h.height == 0 ==> ApplyHeader("X-Frame-Height" + ": " + Decimal(n), h) == h.(height := n)
  {
    hide ApplyHeader, Decimal;
    LengthSet(n, h);
    WidthSet(n, h);
    HeightSet(n, h);
  }

  lemma CloseParts()
    ensures var line := "Connection: close";
      Find(line, ':', 0) == 10 && LowerCase(line[..10]) == "connection" && SkipBlanks(line[11..]) == "close"
    ensures Contains(LowerCase("close"), "close")
  {
    var line := "Connection: close";
    FindIs(line, ':', 0, 10);
    assert line[..10] == "Connection" && line[11..] == " close" && " close"[1..] == "close";
    hide Find;
    assert LowerCase("close") == "close" && "close"[..5] == "close";
  }

  lemma ConnectionSet(h: Head)
    ensures ApplyHeader("Connection: close", h) == h.(keepAlive := false)
  {
    hide Find, LowerCase, SkipBlanks, Contains, Atoi;
    CloseParts();
  }

  // ---- whole requests --------------------------------------------------------------------------------

  /** A text that fits in a line of the protocol. */
  ghost predicate Fits(s: string) { |s| <= 65000 && '\n' !in s }

  ghost predicate IsPath(path: string) { ' ' !in path && '?' !in path && '\n' !in path }

  ghost predicate IsValue(s: string) { ' ' !in s && '&' !in s && '\n' !in s }

  /** Lines as sent, each with CR LF, an empty one, and what follows. */
  function HeadText(first: string, headers: seq<string>, tail: string): string {
    first + "\r\n" + HeadersText(headers) + "\r\n" + tail
  }

  function HeadersText(headers: seq<string>): string {
    if headers == [] then "" else headers[0] + "\r\n" + HeadersText(headers[1..])
  }

  function Raw(headers: seq<string>): seq<string> { seq(|headers|, i requires 0 <= i < |headers| => headers[i] + "\r") }

  lemma {:induction false} HeadersTextIs(headers: seq<string>, rest: string)
    ensures HeadersText(headers) + rest == HeaderLines(Raw(headers), rest)
  {
    if headers == [] {
      assert HeadersText(headers) + rest == rest;
    } else {
      HeadersTextIs(headers[1..], rest);
      assert Raw(headers)[1..] == Raw(headers[1..]) && Raw(headers)[0] == headers[0] + "\r";
      assert headers[0] + "\r\n" + HeadersText(headers[1..]) + rest
          == (headers[0] + "\r") + ['\n'] + (HeadersText(headers[1..]) + rest);
    }
  }

  lemma TextIsBytes(first: string, headers: seq<string>, tail: string)
    ensures HeadText(first, headers, tail) == Bytes(Request(first + "\r", Raw(headers), "\r", ""), tail)
  {
    var blank := Line("\r", "" + tail);
    HeadersTextIs(headers, blank);
    assert blank == "\r\n" + tail;
    assert HeadText(first, headers, tail) == (first + "\r") + ['\n'] + (HeadersText(headers) + blank);
  }

  ghost predicate HeadersFit(headers: seq<string>) {
    forall i :: 0 <= i < |headers| ==> headers[i] != "" && Fits(headers[i])
  }

  function FoldHeaders(headers: seq<string>, h: Head): Head {
    if headers == [] then h else FoldHeaders(headers[1..], ApplyHeader(headers[0], h))
  }

  lemma {:induction false} RawHead(headers: seq<string>, h: Head)
    ensures HeadOf(Raw(headers), h) == FoldHeaders(headers, h)
  {
    hide ApplyHeader;
    if headers != [] {
      RawHead(headers[1..], ApplyHeader(headers[0], h));
      assert Raw(headers)[1..] == Raw(headers[1..]) && StripCR(Raw(headers)[0]) == headers[0];
    }
  }

  /** The request reaches the judgement with the fields its text writes. */
  lemma TextIsJudged(verb: string, path: string, query: string, headers: seq<string>, tail: string, token: string,
                     n: nat, accepts: Handler)
    requires ' ' !in verb && IsPath(path) && ' ' !in query
    requires Fits(FirstLine(verb, path + "?" + query)) && HeadersFit(headers)
    ensures var f := QueryFields(query, NO_FIELDS);
      ServeOne(HeadText(FirstLine(verb, path + "?" + query), headers, tail), token, n, accepts)
      == ServeBody(RequestLine(verb, path, query), f, FoldHeaders(headers, Head(-1, f.w, f.h, true)), tail, token, n, accepts)
  {
    hide ParseRequestLine, QueryFields, ServeOne, ServeBody, FoldHeaders, HeadOf, Bytes, HeadText, FirstLine;
    var first := FirstLine(verb, path + "?" + query);
    var p := Request(first + "\r", Raw(headers), "\r", "");
    TextIsBytes(first, headers, tail);
    assert StripCR(p.first) == first && StripCR(p.blank) == "";
    FirstLineIs(verb, path, query);
    assert IsHeaders(p.headers) by {
      forall k | 0 <= k < |p.headers| ensures IsLine(p.headers[k]) && StripCR(p.headers[k]) != "" {
        assert p.headers[k] == headers[k] + "\r" && Fits(headers[k]);
      }
    }
    HeadIsRead(p, tail, token, n, accepts);
    var f := QueryFields(query, NO_FIELDS);
    RawHead(headers, Head(-1, f.w, f.h, true));
    assert "" + tail == tail;
  }

  /** A request with its size in the query, character by character. */
  function SizedText(path: string, t: string, w: nat, h: nat, tw: nat, th: nat, engine: string, length: nat, tail: string): string {
    "POST " + (path + "?" + ("token=" + t + "&w=" + Decimal(w) + "&h=" + Decimal(h) + "&tw=" + Decimal(tw)
                             + "&th=" + Decimal(th) + "&engine=" + engine)) + " HTTP/1.1"
    + "\r\n" + ("Content-Length: " + Decimal(length) + "\r\n") + "\r\n" + tail
  }

  lemma SizedTextIs(path: string, t: string, w: nat, h: nat, tw: nat, th: nat, engine: string, length: nat, tail: string)
    ensures SizedText(path, t, w, h, tw, th, engine, length, tail)
            == HeadText(FirstLine("POST", path + "?" + SizedQuery(t, w, h, tw, th, engine)),
                        ["Content-Length" + ": " + Decimal(length)], tail)
  {
    hide Decimal;
    LengthHeader(length);
    hide HeadersText;
  }

  lemma LengthHeader(length: nat)
    ensures HeadersText(["Content-Length" + ": " + Decimal(length)]) == "Content-Length: " + Decimal(length) + "\r\n"
    ensures forall h: Head ::
              FoldHeaders(["Content-Length" + ": " + Decimal(length)], h) == ApplyHeader("Content-Length" + ": " + Decimal(length), h)
  {
    hide Decimal, ApplyHeader;
  }

  /** Which call it causes, or which status answers it. The first line and the number must fit in lines. */
  lemma SizedRequest(path: string, t: string, w: nat, h: nat, tw: nat, th: nat, engine: string, length: nat,
                     tail: string, token: string, n: nat, accepts: Handler)
    requires IsPath(path) && IsValue(t) && IsValue(engine)
    requires |path| + |t| + |engine| + |Decimal(w)| + |Decimal(h)| + |Decimal(tw)| + |Decimal(th)| <= 64000
    requires |Decimal(length)| <= 64000
    ensures ServeOne(SizedText(path, t, w, h, tw, th, engine, length, tail), token, n, accepts) ==
      if path != "/upscale" then Stop([Respond(404, false)])
      else if t != token then Stop([Respond(403, false)])
      else if !(1 <= w <= 4096 && 1 <= h <= 4096 && length == 4 * w * h) then Stop([Respond(400, false)])
      else if |tail| < length then Stop([])
      else
        var call := Call(tail[..length], w, h, tw, th, engine);
        if accepts(n, call) then Next([Handle(call), Respond(200, true)], tail[length..], n + 1)
        else Stop([Handle(call), Respond(500, false)])
  {
    var header := "Content-Length" + ": " + Decimal(length);
    hide QueryFields, ServeOne, Decimal, ApplyHeader, SizedQuery, SizedText, Fits, FirstLine, HeadText, FoldHeaders, ServeBody;
    var query := SizedQuery(t, w, h, tw, th, engine);
    SizedTextIs(path, t, w, h, tw, th, engine, length, tail);
    SizedQueryFits(path, t, w, h, tw, th, engine);
    HeaderFits("Content-Length", length);
    TextIsJudged("POST", path, query, [header], tail, token, n, accepts);
    SizedQueryIs(t, w, h, tw, th, engine);
    LengthHeader(length);
    HeadersSet(length, Head(-1, w, h, true));
    Outcome(path, query, Fields(t, w, h, tw, th, engine), w, h, length, true, tail, token, n, accepts);
  }

  lemma SizedQueryFits(path: string, t: string, w: nat, h: nat, tw: nat, th: nat, engine: string)
    requires IsPath(path) && IsValue(t) && IsValue(engine)
    requires |path| + |t| + |engine| + |Decimal(w)| + |Decimal(h)| + |Decimal(tw)| + |Decimal(th)| <= 64000
    ensures var query := SizedQuery(t, w, h, tw, th, engine);
      ' ' !in query && Fits(FirstLine("POST", path + "?" + query))
  {
    NumbersAreClean(w);
    NumbersAreClean(h);
    NumbersAreClean(tw);
    NumbersAreClean(th);
    hide Decimal;
  }

  lemma NumbersAreClean(n: nat)
    ensures ' ' !in Decimal(n) && '\n' !in Decimal(n)
  {
    DecimalHasNo(n, ' ');
    DecimalHasNo(n, '\n');
  }

  lemma HeaderFits(name: string, n: nat)
    requires '\n' !in name && |name| <= 100 && |Decimal(n)| <= 64000
    ensures name + ": " + Decimal(n) != "" && Fits(name + ": " + Decimal(n))
  {
    NumbersAreClean(n);
    hide Decimal;
  }

  /** The judgement, on the fields themselves. */
  lemma Outcome(path: string, query: string, f: Fields, w: nat, h: nat, length: nat, keepAlive: bool, tail: string,
                token: string, n: nat, accepts: Handler)
    ensures ServeBody(RequestLine("POST", path, query), f, Head(length, w, h, keepAlive), tail, token, n, accepts) ==
      if path != "/upscale" then Stop([Respond(404, false)])
      else if f.token != token then Stop([Respond(403, false)])
      else if !(1 <= w <= 4096 && 1 <= h <= 4096 && length == 4 * w * h) then Stop([Respond(400, false)])
      else if |tail| < length then Stop([])
      else
        var call := Call(tail[..length], w, h, f.tw, f.th, f.engine);
        if !accepts(n, call) then Stop([Handle(call), Respond(500, false)])
        else if keepAlive then Next([Handle(call), Respond(200, true)], tail[length..], n + 1)
        else Stop([Handle(call), Respond(200, false)])
  {
    assert w * h * 4 == 4 * w * h;
    if 1 <= w <= 4096 && 1 <= h <= 4096 { assert w * h <= 4096 * h; }
  }

  function SizeHeaders(w: nat, h: nat, length: nat): seq<string> {
    ["X-Frame-Width" + ": " + Decimal(w), "X-Frame-Height" + ": " + Decimal(h), "Content-Length" + ": " + Decimal(length),
     "Connection: close"]
  }

  /** A request with its size in two headers and none in the query, and the connection closed behind it. */
  function HeaderSizedText(path: string, t: string, w: nat, h: nat, tw: nat, th: nat, engine: string, length: nat, tail: string): string {
    "POST " + (path + "?" + ("token=" + t + "&tw=" + Decimal(tw) + "&th=" + Decimal(th) + "&engine=" + engine)) + " HTTP/1.1"
    + "\r\n" + ("X-Frame-Width" + ": " + Decimal(w) + "\r\n" + ("X-Frame-Height" + ": " + Decimal(h)) + "\r\n"
                + ("Content-Length" + ": " + Decimal(length)) + "\r\n" + "Connection: close" + "\r\n")
    + "\r\n" + tail
  }

  lemma SizeHeadersText(w: nat, h: nat, length: nat)
    ensures HeadersText(SizeHeaders(w, h, length))
            == "X-Frame-Width" + ": " + Decimal(w) + "\r\n" + ("X-Frame-Height" + ": " + Decimal(h)) + "\r\n"
               + ("Content-Length" + ": " + Decimal(length)) + "\r\n" + "Connection: close" + "\r\n"
  {
    hide Decimal, HeadersText;
    FourHeaders(SizeHeaders(w, h, length));
  }

  lemma HeaderSizedTextIs(path: string, t: string, w: nat, h: nat, tw: nat, th: nat, engine: string, length: nat, tail: string)
    ensures HeaderSizedText(path, t, w, h, tw, th, engine, length, tail)
            == HeadText(FirstLine("POST", path + "?" + BareQuery(t, tw, th, engine)), SizeHeaders(w, h, length), tail)
  {
    hide Decimal, HeadersText, SizeHeaders;
    SizeHeadersText(w, h, length);
  }

  lemma SizeHeadersFit(w: nat, h: nat, length: nat)
    requires |Decimal(w)| + |Decimal(h)| <= 64000 && |Decimal(length)| <= 64000
    ensures HeadersFit(SizeHeaders(w, h, length))
  {
    HeaderFits("X-Frame-Width", w);
    HeaderFits("X-Frame-Height", h);
    HeaderFits("Content-Length", length);
    assert Fits("Connection: close");
    hide Fits, Decimal;
  }

  lemma SizeHeadersSet(w: nat, h: nat, length: nat)
    ensures FoldHeaders(SizeHeaders(w, h, length), Head(-1, 0, 0, true)) == Head(length, w, h, false)
  {
    hide Decimal, ApplyHeader, FoldHeaders;
    FourApplied(SizeHeaders(w, h, length), Head(-1, 0, 0, true));
    HeadersSet(w, Head(-1, 0, 0, true));
    HeadersSet(h, Head(-1, w, 0, true));
    HeadersSet(length, Head(-1, w, h, true));
    ConnectionSet(Head(length, w, h, true));
  }

  /** The same outcomes for it. */
  lemma HeaderSizedRequest(path: string, t: string, w: nat, h: nat, tw: nat, th: nat, engine: string, length: nat,
                           tail: string, token: string, n: nat, accepts: Handler)
    requires IsPath(path) && IsValue(t) && IsValue(engine)
    requires |path| + |t| + |engine| + |Decimal(w)| + |Decimal(h)| + |Decimal(tw)| + |Decimal(th)| <= 64000
    requires |Decimal(length)| <= 64000
    ensures ServeOne(HeaderSizedText(path, t, w, h, tw, th, engine, length, tail), token, n, accepts) ==
      if path != "/upscale" then Stop([Respond(404, false)])
      else if t != token then Stop([Respond(403, false)])
      else if !(1 <= w <= 4096 && 1 <= h <= 4096 && length == 4 * w * h) then Stop([Respond(400, false)])
      else if |tail| < length then Stop([])
      else
        var call := Call(tail[..length], w, h, tw, th, engine);
        Stop([Handle(call), if accepts(n, call) then Respond(200, false) else Respond(500, false)])
  {
    hide QueryFields, ServeOne, Decimal, BareQuery, HeaderSizedText, Fits, FirstLine, HeadText, FoldHeaders, ServeBody,
      SizeHeaders, HeadersFit;
    var query := BareQuery(t, tw, th, engine);
    HeaderSizedTextIs(path, t, w, h, tw, th, engine, length, tail);
    BareQueryFits(path, t, tw, th, engine);
    SizeHeadersFit(w, h, length);
    TextIsJudged("POST", path, query, SizeHeaders(w, h, length), tail, token, n, accepts);
    BareQueryIs(t, tw, th, engine);
    SizeHeadersSet(w, h, length);
    Outcome(path, query, Fields(t, 0, 0, tw, th, engine), w, h, length, false, tail, token, n, accepts);
  }

  lemma FourHeaders(headers: seq<string>)
    requires |headers| == 4
    ensures HeadersText(headers)
            == headers[0] + "\r\n" + headers[1] + "\r\n" + headers[2] + "\r\n" + headers[3] + "\r\n"
  {
    var t1, t2, t3 := headers[1..], headers[2..], headers[3..];
    assert t1[1..] == t2 && t2[1..] == t3 && t3[1..] == [] && t1[0] == headers[1] && t2[0] == headers[2] && t3[0] == headers[3];
    assert HeadersText(t3) == headers[3] + "\r\n" + HeadersText([]) == headers[3] + "\r\n";
    assert HeadersText(t2) == headers[2] + "\r\n" + HeadersText(t3);
    assert HeadersText(t1) == headers[1] + "\r\n" + HeadersText(t2);
  }

  lemma FourApplied(headers: seq<string>, h: Head)
    requires |headers| == 4
    ensures FoldHeaders(headers, h)
            == ApplyHeader(headers[3], ApplyHeader(headers[2], ApplyHeader(headers[1], ApplyHeader(headers[0], h))))
  {
    hide ApplyHeader;
    var t1, t2, t3 := headers[1..], headers[2..], headers[3..];
    var h1 := ApplyHeader(headers[0], h);
    var h2 := ApplyHeader(headers[1], h1);
    var h3 := ApplyHeader(headers[2], h2);
    assert t1[1..] == t2 && t2[1..] == t3 && t3[1..] == [];
    assert FoldHeaders(headers, h) == FoldHeaders(t1, h1) == FoldHeaders(t2, h2) == FoldHeaders(t3, h3);
    assert FoldHeaders(t3, h3) == FoldHeaders([], ApplyHeader(headers[3], h3));
  }

  lemma BareQueryFits(path: string, t: string, tw: nat, th: nat, engine: string)
    requires IsPath(path) && IsValue(t) && IsValue(engine)
    requires |path| + |t| + |engine| + |Decimal(tw)| + |Decimal(th)| <= 64000
    ensures var query := BareQuery(t, tw, th, engine);
      ' ' !in query && Fits(FirstLine("POST", path + "?" + query))
  {
    NumbersAreClean(tw);
    NumbersAreClean(th);
    hide Decimal;
  }

  /** A preflight is answered without a call, and whatever follows is the next request. */
  lemma PreflightRequest(path: string, query: string, tail: string, token: string, n: nat, accepts: Handler)
    requires IsPath(path) && ' ' !in query && '\n' !in query && |path| + |query| <= 64000
    ensures ServeOne("OPTIONS " + (path + "?" + query) + " HTTP/1.1" + "\r\n" + "" + "\r\n" + tail, token, n, accepts)
            == Next([Respond(204, true)], tail, n)
  {
    assert Fits(FirstLine("OPTIONS", path + "?" + query));
    assert HeadText(FirstLine("OPTIONS", path + "?" + query), [], tail)
        == "OPTIONS " + (path + "?" + query) + " HTTP/1.1" + "\r\n" + "" + "\r\n" + tail;
    hide ServeOne, QueryFields, Fits, FirstLine, HeadText;
    TextIsJudged("OPTIONS", path, query, [], tail, token, n, accepts);
  }

  /** The request the extension sends for a frame without a target size. */
  function BriefText(t: string, w: nat, h: nat, length: nat, tail: string): string {
    "POST " + ("/upscale" + "?" + ("token=" + t + "&w=" + Decimal(w) + "&h=" + Decimal(h))) + " HTTP/1.1"
    + "\r\n" + ("Content-Length: " + Decimal(length) + "\r\n") + "\r\n" + tail
  }

  function BriefQuery(t: string, w: nat, h: nat): string { "token=" + t + "&w=" + Decimal(w) + "&h=" + Decimal(h) }

  lemma BriefQueryIs(t: string, w: nat, h: nat)
    requires '&' !in t
    ensures QueryFields(BriefQuery(t, w, h), NO_FIELDS) == Fields(t, w, h, 0, 0, "")
  {
    hide QueryFields, ApplyPair, Decimal, Atoi;
    var q3 := "h" + "=" + Decimal(h);
    var q2 := "w" + "=" + Decimal(w) + "&" + q3;
    assert BriefQuery(t, w, h) == "token" + "=" + t + "&" + q2;
    QueryPair("token" + "=" + t, q2, NO_FIELDS);
    PairsSet(t, NO_FIELDS);
    var f := NO_FIELDS.(token := t);
    NumberPair("w", w, q3, f);
    PairsSet(Decimal(w), f);
    AtoiDecimal(w);
    DecimalHasNo(h, '&');
    LastPair(q3, f.(w := w));
    PairsSet(Decimal(h), f.(w := w));
    AtoiDecimal(h);
  }

  lemma BriefTextIs(t: string, w: nat, h: nat, length: nat, tail: string)
    ensures BriefText(t, w, h, length, tail)
            == HeadText(FirstLine("POST", "/upscale" + "?" + BriefQuery(t, w, h)), ["Content-Length" + ": " + Decimal(length)], tail)
  {
    hide Decimal;
    LengthHeader(length);
    hide HeadersText;
  }

  lemma BriefQueryFits(t: string, w: nat, h: nat)
    requires IsValue(t) && |t| + |Decimal(w)| + |Decimal(h)| <= 64000
    ensures ' ' !in BriefQuery(t, w, h) && Fits(FirstLine("POST", "/upscale" + "?" + BriefQuery(t, w, h)))
  {
    NumbersAreClean(w);
    NumbersAreClean(h);
    hide Decimal;
  }

  /** It is judged with its own size and length. */
  lemma BriefIsJudged(t: string, w: nat, h: nat, length: nat, tail: string, n: nat, accepts: Handler)
    requires IsValue(t) && |t| + |Decimal(w)| + |Decimal(h)| <= 64000 && |Decimal(length)| <= 64000
    ensures ServeOne(BriefText(t, w, h, length, tail), t, n, accepts)
            == ServeBody(RequestLine("POST", "/upscale", BriefQuery(t, w, h)), Fields(t, w, h, 0, 0, ""),
                         Head(length, w, h, true), tail, t, n, accepts)
  {
    var header := "Content-Length" + ": " + Decimal(length);
    hide QueryFields, ServeOne, Decimal, ApplyHeader, BriefQuery, BriefText, Fits, FirstLine, HeadText, ServeBody;
    BriefTextIs(t, w, h, length, tail);
    BriefQueryFits(t, w, h);
    HeaderFits("Content-Length", length);
    TextIsJudged("POST", "/upscale", BriefQuery(t, w, h), [header], tail, t, n, accepts);
    BriefQueryIs(t, w, h);
    HeadersSet(length, Head(-1, w, h, true));
    OneHeader(header, Head(-1, w, h, true));
  }

  lemma OneHeader(header: string, h: Head)
    ensures FoldHeaders([header], h) == ApplyHeader(header, h)
  {
    hide ApplyHeader;
    assert [header][1..] == [];
  }

  lemma BriefRequest(t: string, w: nat, h: nat, body: string, n: nat, accepts: Handler)
    requires IsValue(t) && |t| + |Decimal(w)| + |Decimal(h)| <= 64000 && |Decimal(|body|)| <= 64000
    requires 1 <= w <= 4096 && 1 <= h <= 4096 && |body| == 4 * w * h
    ensures var call := Call(body, w, h, 0, 0, "");
      ServeOne(BriefText(t, w, h, |body|, body), t, n, accepts)
      == if accepts(n, call) then Next([Handle(call), Respond(200, true)], "", n + 1)
         else Stop([Handle(call), Respond(500, false)])
  {
    hide ServeOne, Decimal, BriefQuery, BriefText, ServeBody;
    BriefIsJudged(t, w, h, |body|, body, n, accepts);
    Outcome("/upscale", BriefQuery(t, w, h), Fields(t, w, h, 0, 0, ""), w, h, |body|, true, body, t, n, accepts);
    assert body[..|body|] == body && body[|body|..] == "";
  }

  /** A frame sent that way reaches the handler with its own size, its own bytes and nothing else, and is
      answered with 200 if the handler succeeds. */
  lemma FrameReachesHandler(t: string, w: nat, h: nat, body: string, n: nat, accepts: Handler)
    requires IsValue(t) && |t| + |Decimal(w)| + |Decimal(h)| <= 64000 && |Decimal(|body|)| <= 64000
    requires 1 <= w <= 4096 && 1 <= h <= 4096 && |body| == 4 * w * h
    ensures var call := Call(body, w, h, 0, 0, "");
      Serve(BriefText(t, w, h, |body|, body), t, n, accepts)
      == [Handle(call), if accepts(n, call) then Respond(200, true) else Respond(500, false)]
  {
    hide BriefText, ServeOne, Decimal;
    BriefRequest(t, w, h, body, n, accepts);
    EmptyStream(t, n + 1, accepts);
  }

  lemma EmptyStream(token: string, n: nat, accepts: Handler)
    ensures Serve("", token, n, accepts) == []
  {
  }

  /** Any verb but these two is answered 404 and ends the connection. */
  lemma OtherVerb(verb: string, path: string, query: string, tail: string, token: string, n: nat, accepts: Handler)
    requires ' ' !in verb && '\n' !in verb && verb != "OPTIONS" && verb != "POST"
    requires IsPath(path) && ' ' !in query && '\n' !in query && |verb| + |path| + |query| <= 64000
    ensures ServeOne(verb + " " + (path + "?" + query) + " HTTP/1.1" + "\r\n" + "" + "\r\n" + tail, token, n, accepts)
            == Stop([Respond(404, false)])
  {
    assert Fits(FirstLine(verb, path + "?" + query));
    assert HeadText(FirstLine(verb, path + "?" + query), [], tail)
        == verb + " " + (path + "?" + query) + " HTTP/1.1" + "\r\n" + "" + "\r\n" + tail;
    hide ServeOne, QueryFields, Fits, FirstLine, HeadText;
    TextIsJudged(verb, path, query, [], tail, token, n, accepts);
  }

  /** A first line with fewer than two blanks is answered 400, whatever follows. */
  lemma MalformedLine(a: string, b: string, two: bool, tail: string, token: string, n: nat, accepts: Handler)
    requires ' ' !in a && ' ' !in b && '\n' !in a && '\n' !in b && |a| + |b| <= 64000
    ensures ServeOne((if two then a + " " + b else a) + "\r" + "\n" + tail, token, n, accepts) == Stop([Respond(400, false)])
  {
    var line := if two then a + " " + b else a;
    LineIsRead(line + "\r", tail);
    LineIsRead(line, tail);
    FewBlanks(a, b, two);
    hide ParseRequestLine, HasLine;
  }

  lemma FewBlanks(a: string, b: string, two: bool)
    requires ' ' !in a && ' ' !in b
    ensures ParseRequestLine(if two then a + " " + b else a) == Malformed
  {
    var line := if two then a + " " + b else a;
    if two {
      FindIs(line, ' ', 0, |a|);
      assert forall k :: |a| < k < |line| ==> line[k] == b[k - |a| - 1];
    } else {
      FindNone(line, ' ');
    }
  }

  // ---- the connection header --------------------------------------------------------------------------

  ghost predicate OccursAt(s: string, needle: string, i: int) {
    0 <= i && i + |needle| <= |s| && s[i..i + |needle|] == needle
  }

  lemma {:induction false} ContainsIff(s: string, needle: string)
    ensures Contains(s, needle) <==> exists i :: OccursAt(s, needle, i)
    decreases |s|
  {
    var n := |needle|;
    if n <= |s| && s[..n] == needle {
      assert OccursAt(s, needle, 0);
    } else if s != "" && n <= |s| {
      ContainsIff(s[1..], needle);
      if i :| OccursAt(s[1..], needle, i) {
        assert s[1..][i..i + n] == s[i + 1..i + 1 + n];
        assert OccursAt(s, needle, i + 1);
      }
      if i :| OccursAt(s, needle, i) {
        assert i != 0;
        assert s[1..][i - 1..i - 1 + n] == s[i..i + n];
        assert OccursAt(s[1..], needle, i - 1);
      }
    }
  }

  /** A connection header ends the connection after its request exactly if "close" occurs in its value. */
  lemma ConnectionIs(value: string, h: Head)
    requires forall k :: 0 <= k < |value| ==> 'a' <= value[k] <= 'z'
    ensures ApplyHeader("Connection" + ": " + value, h) == h.(keepAlive := !exists i :: OccursAt(value, "close", i))
  {
    var line := "Connection" + ": " + value;
    FindIs(line, ':', 0, 10);
    assert line[..10] == "Connection" && line[11..] == " " + value && (" " + value)[1..] == value;
    assert SkipBlanks(line[11..]) == value;
    assert LowerCase(value) == value;
    assert LowerCase("Connection") == "connection";
    ContainsIff(value, "close");
    hide Find, Contains, LowerCase, SkipBlanks, OccursAt;
  }
}
