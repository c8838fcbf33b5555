/** The length-prefixed stdio protocol of native/linux-host/main.cpp. */
module Framing {
  import opened Wrappers
  import opened ConnBuf

  const MAX_FRAME := 100 * 1024 * 1024
  const SINK := 65536
  const WORD := 0x1_0000_0000

  // ---- the protocol on a whole stream ---------------------------------------------------------------

  /** A 32-bit length, little endian. */
  function Word(n: nat): (w: string)
    requires n < WORD
    ensures |w| == 4
  {
    [(n % 256) as char, (n / 256 % 256) as char, (n / 65536 % 256) as char, (n / 16777216) as char]
  }

  function Value(w: string): nat
    requires |w| == 4
  {
    w[0] as int + w[1] as int * 256 + w[2] as int * 65536 + w[3] as int * 16777216
  }

  lemma WordValue(n: nat)
    requires n < WORD
    ensures Value(Word(n)) == n
  {
    assert n / 256 / 256 == n / 65536 && n / 65536 / 256 == n / 16777216;
  }

  /** What write_framed emits: the size as a 32-bit integer, and so many bytes of the payload. */
  function Emitted(payload: string): string {
    var len := |payload| % WORD;
    Word(len) + payload[..len]
  }

  datatype Message = Payload(bytes: string) | Oversize

  /** One read_framed: the message and the rest of the stream, or None where the stream ends first. */
  function NextMessage(s: string): Option<(Message, string)> {
    if |s| < 4 then None
    else
      var len, body := Value(s[..4]), s[4..];
      if |body| < len then None
      else Some((if len > MAX_FRAME then Oversize else Payload(body[..len]), body[len..]))
  }

  // ---- the reader --------------------------------------------------------------------------------------

  method ReadExactly(sock: Socket, n: nat) returns (ok: bool, r: string)
    modifies sock
    ensures ok ==> n <= old(|sock.incoming|) && r == old(sock.incoming)[..n] && sock.incoming == old(sock.incoming)[n..]
    ensures sock.healthy ==> (ok <==> n <= old(|sock.incoming|))
  {
    ghost var s := sock.incoming;
    r := "";
    while |r| < n
      invariant |r| <= n && s == r + sock.incoming
      decreases n - |r|
    {
      var chunk := sock.Recv(n - |r|);
      if chunk == "" {
        return false, r;
      }
      assert s == (r + chunk) + sock.incoming;
      r := r + chunk;
    }
    assert r == s[..n] && sock.incoming == s[n..];
    return true, r;
  }

  /** Drains `n` bytes in pieces that fit the sink. */
  method Discard(sock: Socket, n: nat) returns (ok: bool)
    modifies sock
    ensures ok ==> n <= old(|sock.incoming|) && sock.incoming == old(sock.incoming)[n..]
    ensures sock.healthy ==> (ok <==> n <= old(|sock.incoming|))
  {
    ghost var s := sock.incoming;
    var left := n;
    while left > 0
      invariant 0 <= left <= n && n - left <= |s| && sock.incoming == s[n - left..]
    {
      var want := if left > SINK then SINK else left;
      var got, sunk := ReadExactly(sock, want);
      if !got {
        return false;
      }
      left := left - want;
    }
    return true;
  }

  /** However the bytes arrive, the next message; an oversize one is drained, so that the stream is at
      the next frame's first byte again. */
  method ReadFramed(sock: Socket) returns (r: Option<Message>)
    requires sock.healthy
    modifies sock
    ensures r.Some? <==> NextMessage(old(sock.incoming)).Some?
    ensures r.Some? ==> NextMessage(old(sock.incoming)) == Some((r.value, sock.incoming))
  {
    var ok, word := ReadExactly(sock, 4);
    if !ok {
      return None;
    }
    var len := Value(word);
    if len > MAX_FRAME {
      ok := Discard(sock, len);
      return if ok then Some(Oversize) else None;
    }
    var payload := "";
    if len > 0 {
      ok, payload := ReadExactly(sock, len);
    }
    return if ok then Some(Payload(payload)) else None;
  }

  // ---- laws ------------------------------------------------------------------------------------------------

  /** What the peer makes of a payload. */
  function Seen(payload: string): Message {
    var len := |payload| % WORD;
    if len > MAX_FRAME then Oversize else Payload(payload[..len])
  }

  lemma EmittedIsRead(payload: string, rest: string)
    ensures NextMessage(Emitted(payload) + rest) == Some((Seen(payload), rest))
  {
    var len := |payload| % WORD;
    var s := Emitted(payload) + rest;
    WordValue(len);
    assert s[..4] == Word(len) && s[4..] == payload[..len] + rest;
    assert (payload[..len] + rest)[..len] == payload[..len] && (payload[..len] + rest)[len..] == rest;
  }

  /** A payload comes back as it was written exactly up to the frame limit. */
  lemma RoundTripIff(payload: string, rest: string)
    ensures NextMessage(Emitted(payload) + rest) == Some((Payload(payload), rest)) <==> |payload| <= MAX_FRAME
  {
    hide NextMessage, Emitted;
    EmittedIsRead(payload, rest);
    var len := |payload| % WORD;
    assert payload[..len] == payload <==> len == |payload|;
  }

  function EmittedAll(payloads: seq<string>): string {
    if payloads == [] then "" else Emitted(payloads[0]) + EmittedAll(payloads[1..])
  }

  /** The messages of a whole stream, up to where it ends. */
  function Messages(s: string): seq<Message>
    decreases |s|
  {
    match NextMessage(s)
    case None => []
    case Some((m, rest)) => [m] + Messages(rest)
  }

  function SeenAll(payloads: seq<string>): seq<Message> {
    if payloads == [] then [] else [Seen(payloads[0])] + SeenAll(payloads[1..])
  }

  /** Every payload of a stream is seen, in order: an oversize one costs itself and nothing after it. */
  lemma {:induction false} StreamStaysInStep(payloads: seq<string>)
    ensures Messages(EmittedAll(payloads)) == SeenAll(payloads)
    decreases |payloads|
  {
    if payloads != [] {
      EmittedIsRead(payloads[0], EmittedAll(payloads[1..]));
      StreamStaysInStep(payloads[1..]);
    }
  }

  /** The frame as its bytes stand on the wire, both ways: four length bytes from the lowest on, then the
      payload. Up to 100 MiB it is delivered, above that reported as oversize; either way the stream goes
      on behind it. */
  lemma FrameOnTheWire(b0: nat, b1: nat, b2: nat, b3: nat, payload: string, rest: string)
    requires b0 <= 255 && b1 <= 255 && b2 <= 255 && b3 <= 255
    requires |payload| == b0 + 256 * b1 + 65536 * b2 + 16777216 * b3
    ensures var frame := [b0 as char, b1 as char, b2 as char, b3 as char] + payload;
      && Emitted(payload) == frame
      && NextMessage(frame + rest) == Some((if |payload| <= 104857600 then Payload(payload) else Oversize, rest))
  {
    hide NextMessage, Emitted, Seen;
    EmitsWord(b0, b1, b2, b3, payload);
    EmittedIsRead(payload, rest);
    SeenIs(payload);
  }

  lemma SeenIs(payload: string)
    requires |payload| < WORD
    ensures Seen(payload) == if |payload| <= 104857600 then Payload(payload) else Oversize
  {
    assert payload[..|payload|] == payload;
  }

  lemma EmitsWord(b0: nat, b1: nat, b2: nat, b3: nat, payload: string)
    requires b0 <= 255 && b1 <= 255 && b2 <= 255 && b3 <= 255
    requires |payload| == b0 + 256 * b1 + 65536 * b2 + 16777216 * b3
    ensures |payload| < WORD && Emitted(payload) == [b0 as char, b1 as char, b2 as char, b3 as char] + payload
  {
    hide Word;
    WordIs(b0, b1, b2, b3);
    assert payload[..|payload|] == payload;
  }

  lemma WordIs(b0: nat, b1: nat, b2: nat, b3: nat)
    requires b0 <= 255 && b1 <= 255 && b2 <= 255 && b3 <= 255
    ensures var n := b0 + 256 * b1 + 65536 * b2 + 16777216 * b3;
      n < WORD && Word(n) == [b0 as char, b1 as char, b2 as char, b3 as char]
  {
    var n := b0 + 256 * b1 + 65536 * b2 + 16777216 * b3;
    assert n / 256 == b1 + 256 * b2 + 65536 * b3;
    assert n / 65536 == b2 + 256 * b3;
    assert n / 16777216 == b3;
  }
}
