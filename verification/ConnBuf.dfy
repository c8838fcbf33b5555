/** The buffered socket reader of native/linux-host/http-transport.cpp, against an
    unbuffered reader over the whole byte stream. */
module ConnBuf {

  const BUFFER_SIZE := 64 * 1024

  // ---- the unbuffered reader ----------------------------------------------------------------

  /** Index of the first line feed, or the length. */
  function FirstLF(s: string): (i: nat)
    ensures i <= |s|
    ensures i < |s| ==> s[i] == '\n'
    ensures forall k :: 0 <= k < i ==> s[k] != '\n'
  {
    if s == "" || s[0] == '\n' then 0 else 1 + FirstLF(s[1..])
  }

  lemma FirstLFIs(s: string, i: nat)
    requires i <= |s| && (i < |s| ==> s[i] == '\n') && forall k :: 0 <= k < i ==> s[k] != '\n'
    ensures FirstLF(s) == i
  {
  }

  function StripCR(line: string): string {
    if |line| > 0 && line[|line| - 1] == '\r' then line[..|line| - 1] else line
  }

  /** A line fits when its terminator is among the first 64 KiB. */
  predicate HasLine(s: string) { FirstLF(s) < |s| && FirstLF(s) < BUFFER_SIZE }

  // ---- the buffered reader --------------------------------------------------------------------

  /** The peer's byte stream. `healthy` excludes poll errors, deadlines and the stop flag, so
      that only the end of the stream makes recv fail; how much each recv returns stays open. */
  class Socket {
    const healthy: bool
    var incoming: string

    constructor (stream: string, healthy: bool)
      ensures incoming == stream && this.healthy == healthy
    {
      this.healthy := healthy;
      incoming := stream;
    }

    method Recv(space: nat) returns (chunk: string)
      requires 0 < space
      modifies this
      ensures |chunk| <= space && old(incoming) == chunk + incoming
      ensures healthy ==> (chunk == "" <==> old(incoming) == "")
    {
      var n: nat :| n <= space && n <= |incoming| && (healthy && incoming != "" ==> 0 < n);
      chunk := incoming[..n];
      incoming := incoming[n..];
    }
  }

  class ConnBuf {
    const sock: Socket
    const buf: array<char>
    var pos: nat
    var len: nat

    ghost predicate Valid()
      reads this
    {
      buf.Length == BUFFER_SIZE && pos <= len <= BUFFER_SIZE
    }

    /** Received but unconsumed bytes. */
    ghost function Unread(): string
      requires Valid()
      reads this, buf
    {
      buf[pos..len]
    }

    /** Everything the connection still has to say. */
    ghost function Pending(): string
      requires Valid()
      reads this, buf, sock
    {
      Unread() + sock.incoming
    }

    constructor (sock: Socket)
      ensures Valid() && fresh(buf) && this.sock == sock
      ensures Pending() == sock.incoming
    {
      this.sock := sock;
      buf := new char[BUFFER_SIZE](_ => ' ');
      pos, len := 0, 0;
    }

    /** memmove of the unread bytes to the front of the buffer. */
    method Compact()
      requires Valid()
      modifies this, buf
      ensures Valid() && Unread() == old(Unread())
      ensures pos == 0
    {
      if pos > 0 && len > pos {
        forall i | 0 <= i < len - pos {
          buf[i] := buf[pos + i];
        }
        len := len - pos;
        pos := 0;
      } else if pos == len {
        pos := 0;
        len := 0;
      }
    }

    method Append(chunk: string)
      requires Valid() && len + |chunk| <= BUFFER_SIZE
      modifies this, buf
      ensures Valid() && Unread() == old(Unread()) + chunk
    {
      forall i | 0 <= i < |chunk| {
        buf[len + i] := chunk[i];
      }
      len := len + |chunk|;
    }

    /** Compacts, then receives once. The unread bytes survive whatever happens. */
    method Fill() returns (ok: bool)
      requires Valid()
      modifies this, buf, sock
      ensures Valid()
      ensures Pending() == old(Pending())
      ensures old(Unread()) <= Unread()
      ensures ok ==> |sock.incoming| < old(|sock.incoming|)
      ensures !ok ==> Unread() == old(Unread())
      ensures sock.healthy ==> (ok <==> old(sock.incoming) != "" && |old(Unread())| < BUFFER_SIZE)
    {
      ghost var unread := Unread();
      Compact();
      assert |Unread()| == len - pos;
      if len == buf.Length {
        return false;
      }
      var chunk := sock.Recv(buf.Length - len);
      if chunk == "" {
        return false;
      }
      Append(chunk);
      assert unread + (chunk + sock.incoming) == (unread + chunk) + sock.incoming;
      return true;
    }

    /** The next `take` unread bytes leave the buffer. */
    method Consume(take: nat) returns (bytes: string)
      requires Valid() && take <= len - pos
      modifies `pos
      ensures Valid()
      ensures bytes == old(Pending())[..take] && Pending() == old(Pending())[take..]
    {
      bytes := buf[pos..pos + take];
      ghost var unread := Unread();
      assert bytes == unread[..take];
      pos := pos + take;
      assert Unread() == unread[take..];
      SplitConcat(unread, sock.incoming, take);
    }

    /** Scans the unread bytes for a line feed. */
    method FindLF() returns (n: nat)
      requires Valid()
      ensures n == FirstLF(Unread())
    {
      var i := pos;
      while i < len
        invariant pos <= i <= len
        invariant forall k :: 0 <= k < i - pos ==> Unread()[k] != '\n'
      {
        if buf[i] == '\n' {
          FirstLFIs(Unread(), i - pos);
          return i - pos;
        }
        i := i + 1;
      }
      FirstLFIs(Unread(), len - pos);
      return len - pos;
    }

    /** One line, terminator stripped: the unbuffered reader's line, however the bytes came. */
    method ReadLine() returns (ok: bool, line: string)
      requires Valid()
      modifies this, buf, sock
      ensures Valid()
      ensures ok ==>
        var s := old(Pending());
        HasLine(s) && line == StripCR(s[..FirstLF(s)]) && Pending() == s[FirstLF(s) + 1..]
      ensures !ok ==> Pending() == old(Pending())
      ensures sock.healthy ==> (ok <==> HasLine(old(Pending())))
    {
      ghost var s := Pending();
      line := "";
      while true
        invariant Valid() && Pending() == s
        decreases |sock.incoming|
      {
        var n := FindLF();
        ghost var unread := Unread();
        assert |unread| == len - pos;
        BufferedLine(unread, sock.incoming);
        if n < len - pos {
          var bytes := Consume(n + 1);
          line := StripCR(bytes[..n]);
          assert bytes[..n] == s[..n];
          return true, line;
        }
        var more := Fill();
        if !more {
          return false, line;
        }
      }
    }

    /** Up to `left` of the unread bytes, after one fill if there are none. */
    method ReadSome(left: nat) returns (ok: bool, bytes: string)
      requires Valid() && 0 < left
      modifies this, buf, sock
      ensures Valid()
      ensures ok ==>
        var s := old(Pending());
        0 < |bytes| <= left && |bytes| <= |s| && bytes == s[..|bytes|] && Pending() == s[|bytes|..]
      ensures !ok && sock.healthy ==> old(Pending()) == ""
    {
      bytes := "";
      if pos == len {
        var more := Fill();
        if !more {
          return false, bytes;
        }
      }
      var take := if left < len - pos then left else len - pos;
      bytes := Consume(take);
      return true, bytes;
    }

    /** Exactly n bytes appended to out. */
    method ReadExact(out: string, n: nat) returns (ok: bool, r: string)
      requires Valid()
      modifies this, buf, sock
      ensures Valid()
      ensures ok ==>
        var s := old(Pending());
        n <= |s| && r == out + s[..n] && Pending() == s[n..]
      ensures sock.healthy ==> (ok <==> n <= |old(Pending())|)
    {
      ghost var s := Pending();
      r := out;
      var left := n;
      while left > 0
        invariant Valid() && 0 <= left <= n && n - left <= |s|
        invariant r == out + s[..n - left] && Pending() == s[n - left..]
      {
        var more, bytes := ReadSome(left);
        if !more {
          return false, r;
        }
        var done := n - left;
        SplitTwice(s, done, |bytes|);
        Longer(out, s[..done], bytes);
        r := r + bytes;
        left := left - |bytes|;
        assert n - left == done + |bytes|;
      }
      return true, r;
    }
  }

  /** A line feed among the unread bytes is the stream's first; without one there, the
      stream has a line only if bytes are still missing and would fit. */
  lemma BufferedLine(u: string, rest: string)
    requires |u| <= BUFFER_SIZE
    ensures FirstLF(u) < |u| ==> FirstLF(u + rest) == FirstLF(u) && HasLine(u + rest)
    ensures FirstLF(u) == |u| && (rest == "" || |u| == BUFFER_SIZE) ==> !HasLine(u + rest)
  {
    UnreadPrefix(u, rest);
    if FirstLF(u) < |u| {
      FirstLFIs(u + rest, FirstLF(u));
    }
  }

  lemma UnreadPrefix(u: string, rest: string)
    ensures forall k :: 0 <= k < |u| ==> (u + rest)[k] == u[k]
  {
  }

  lemma SplitConcat(u: string, rest: string, n: nat)
    requires n <= |u|
    ensures (u + rest)[..n] == u[..n] && (u + rest)[n..] == u[n..] + rest
  {
  }

  lemma Longer(out: string, a: string, b: string)
    ensures (out + a) + b == out + (a + b)
  {
  }

  lemma SplitTwice(s: string, a: nat, b: nat)
    requires a + b <= |s|
    ensures s[..a] + s[a..][..b] == s[..a + b] && s[a..][b..] == s[a + b..]
  {
  }

  // ---- lines in numbers -------------------------------------------------------------------------------

  /** A line of up to 65535 characters is a line, with or without a carriage return at its end, and what
      follows it stays; a longer one, or one whose end is missing, is none. */
  lemma LineIsRead(line: string, rest: string)
    requires '\n' !in line
    ensures var s := line + "\n" + rest;
      && (HasLine(s) <==> |line| <= 65535) && FirstLF(s) == |line|
      && s[..|line|] == line && s[|line| + 1..] == rest
      && !HasLine(line)
      && StripCR(line + "\r") == line
      && (line == "" || line[|line| - 1] != '\r' ==> StripCR(line) == line)
  {
    var s := line + "\n" + rest;
    FirstLFIs(s, |line|);
    FirstLFIs(line, |line|);
  }
}
