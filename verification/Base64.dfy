/** The host's Base64 codec (native/linux-host/main.cpp): table-driven encoder, and a decoder
    that skips whitespace without consuming a slot of the 4-symbol quantum. */
module Base64 {
  import opened Arith
  import opened Wrappers

  type Byte = b: int | 0 <= b <= 255

  type Sextet = d: int | 0 <= d <= 63

  predicate IsWhitespace(c: char) { c == '\n' || c == '\r' || c == ' ' || c == '\t' }

  /** The decoding table: a sextet, or -1. */
  function DecTable(c: char): int {
    if c == '+' then 62
    else if c == '/' then 63
    else if '0' <= c <= '9' then c as int - '0' as int + 52
    else if 'A' <= c <= 'Z' then c as int - 'A' as int
    else if 'a' <= c <= 'z' then c as int - 'a' as int + 26
    else -1
  }

  predicate IsSymbol(c: char) { DecTable(c) >= 0 }

  /** The encoding table. */
  function Symbol(d: Sextet): char {
    if d < 26 then 'A' + d as char
    else if d < 52 then 'a' + (d - 26) as char
    else if d < 62 then '0' + (d - 52) as char
    else if d == 62 then '+'
    else '/'
  }

  /** Every table entry reads back as its own index, and no symbol is padding or whitespace. */
  lemma TablesAgree(d: Sextet)
    ensures DecTable(Symbol(d)) == d && Symbol(d) != '=' && !IsWhitespace(Symbol(d))
  {
  }

  lemma SymbolInTable(c: char)
    requires IsSymbol(c)
    ensures DecTable(c) <= 63 && Symbol(DecTable(c)) == c && c != '=' && !IsWhitespace(c)
  {
  }

  // ---- encoding -----------------------------------------------------------------------------

  function Triple(a: Byte, b: Byte, c: Byte): int { a * 0x10000 + b * 0x100 + c }

  /** The four 6-bit groups of a 24-bit word, as symbols. */
  function Quad(triple: int): (q: seq<char>)
    requires 0 <= triple < 0x1000000
    ensures |q| == 4
  {
    [Symbol(triple / 0x40000 % 64), Symbol(triple / 0x1000 % 64),
     Symbol(triple / 0x40 % 64), Symbol(triple % 64)]
  }

  function Encoded(data: seq<Byte>): string {
    if |data| == 0 then ""
    else if |data| == 1 then Quad(Triple(data[0], 0, 0))[..2] + "=="
    else if |data| == 2 then Quad(Triple(data[0], data[1], 0))[..3] + "="
    else Quad(Triple(data[0], data[1], data[2])) + Encoded(data[3..])
  }

  method Encode(data: seq<Byte>) returns (out: string)
    ensures out == Encoded(data)
  {
    out := "";
    var i := 0;
    while i + 2 < |data|
      invariant 0 <= i <= |data|
      invariant out + Encoded(data[i..]) == Encoded(data)
    {
      var quad := Quad(Triple(data[i], data[i + 1], data[i + 2]));
      assert data[i..][3..] == data[i + 3..];
      out := out + quad;
      i := i + 3;
    }
    var rem := |data| - i;
    if rem == 1 {
      out := out + Quad(Triple(data[i], 0, 0))[..2] + "==";
    } else if rem == 2 {
      out := out + Quad(Triple(data[i], data[i + 1], 0))[..3] + "=";
    }
  }

  // ---- decoding -----------------------------------------------------------------------------

  function Strip(s: string): string {
    if s == "" then ""
    else if IsWhitespace(s[0]) then Strip(s[1..])
    else [s[0]] + Strip(s[1..])
  }

  function Bytes(triple: int): (b: seq<Byte>)
    requires 0 <= triple < 0x1000000
    ensures |b| == 3
  {
    [triple / 0x10000 % 256, triple / 0x100 % 256, triple % 256]
  }

  function Word(d0: Sextet, d1: Sextet, d2: Sextet, d3: Sextet): (t: int)
    ensures 0 <= t < 0x1000000
  {
    d0 * 0x40000 + d1 * 0x1000 + d2 * 0x40 + d3
  }

  /** What one quantum of four symbols means. */
  datatype Quantum = Bad | Final(bytes: seq<Byte>) | Full(bytes: seq<Byte>)

  function ReadQuantum(q: seq<char>): Quantum
    requires |q| == 4
  {
    if !IsSymbol(q[0]) || !IsSymbol(q[1]) || !(IsSymbol(q[2]) || q[2] == '=') || !(IsSymbol(q[3]) || q[3] == '=') then Bad
    else if q[2] == '=' then
      if q[3] != '=' then Bad else Final(Bytes(Word(DecTable(q[0]), DecTable(q[1]), 0, 0))[..1])
    else if q[3] == '=' then Final(Bytes(Word(DecTable(q[0]), DecTable(q[1]), DecTable(q[2]), 0))[..2])
    else Full(Bytes(Word(DecTable(q[0]), DecTable(q[1]), DecTable(q[2]), DecTable(q[3]))))
  }

  /** Decoding a whitespace-free symbol string: padding only in the last quantum. */
  function DecodeSymbols(t: string): Option<seq<Byte>> {
    if t == "" then Some([])
    else if |t| < 4 then None
    else match ReadQuantum(t[..4])
      case Bad => None
      case Final(b) => if |t| == 4 then Some(b) else None
      case Full(b) =>
        match DecodeSymbols(t[4..])
        case None => None
        case Some(rest) => Some(b + rest)
  }

  function Decoded(s: string): Option<seq<Byte>> { DecodeSymbols(Strip(s)) }

  lemma StripStep(s: string, i: int)
    requires 0 <= i < |s|
    ensures Strip(s[i..]) == if IsWhitespace(s[i]) then Strip(s[i + 1..]) else [s[i]] + Strip(s[i + 1..])
  {
    assert s[i..][1..] == s[i + 1..];
  }

  /** Prefixing already decoded bytes to what the rest decodes to. */
  function Prefixed(out: seq<Byte>, rest: Option<seq<Byte>>): Option<seq<Byte>> {
    match rest case None => None case Some(b) => Some(out + b)
  }

  /** How decoding goes on after a quantum. */
  function Continued(quantum: Quantum, rest: string): Option<seq<Byte>> {
    match quantum
    case Bad => None
    case Final(b) => if rest == "" then Some(b) else None
    case Full(b) => Prefixed(b, DecodeSymbols(rest))
  }

  lemma DecodeStep(out: seq<Byte>, q: string, rest: string)
    requires |q| == 4
    ensures DecodeSymbols(q + rest) == Continued(ReadQuantum(q), rest)
    ensures ReadQuantum(q).Full? ==>
      Prefixed(out, DecodeSymbols(q + rest)) == Prefixed(out + ReadQuantum(q).bytes, DecodeSymbols(rest))
  {
    hide ReadQuantum;
    assert (q + rest)[..4] == q && (q + rest)[4..] == rest;
    if ReadQuantum(q).Full? && DecodeSymbols(rest).Some? {
      var b, r := ReadQuantum(q).bytes, DecodeSymbols(rest).value;
      assert out + (b + r) == (out + b) + r;
    }
  }

  method Decode(s: string) returns (ok: bool, out: seq<Byte>)
    ensures ok <==> Decoded(s).Some?
    ensures ok ==> out == Decoded(s).value
  {
    hide Strip, ReadQuantum, IsWhitespace;
    out := [];
    var i := 0;
    assert s[0..] == s;
    assert Decoded(s).Some? ==> [] + Decoded(s).value == Decoded(s).value;
    while true
      invariant 0 <= i <= |s|
      invariant Decoded(s) == Prefixed(out, DecodeSymbols(Strip(s[i..])))
      decreases |s| - i
    {
      hide DecodeSymbols;
      var q: seq<char> := [];
      ghost var i0 := i;
      while |q| < 4 && i < |s|
        invariant i0 <= i <= |s| && |q| <= 4 && (|q| > 0 ==> i0 < i)
        invariant Strip(s[i0..]) == q + Strip(s[i..])
      {
        var c := s[i];
        StripStep(s, i);
        i := i + 1;
        if !IsWhitespace(c) { q := q + [c]; }
      }
      ghost var tail := Strip(s[i..]);
      if |q| < 4 { ShortText(s, i, q); }
      if |q| == 0 {
        return true, out;
      }
      if |q| < 4 {
        return false, out;
      }
      DecodeStep(out, q, tail);
      match ReadQuantum(q)
      case Bad =>
        return false, out;
      case Final(b) =>
        out := out + b;
        while i < |s|
          invariant i0 < i <= |s| && Strip(s[i..]) == tail
        {
          StripStep(s, i);
          if !IsWhitespace(s[i]) {
            return false, out;
          }
          i := i + 1;
        }
        ShortText(s, i, "");
        return true, out;
      case Full(b) =>
        out := out + b;
    }
  }

  lemma ShortText(s: string, i: int, q: string)
    requires i == |s| && |q| < 4
    ensures Strip(s[i..]) == "" && q + Strip(s[i..]) == q
    ensures DecodeSymbols(q) == if q == "" then Some([]) else None
  {
  }

  // ---- laws -----------------------------------------------------------------------------------

  /** The sextets of three bytes, and the bytes back. */
  lemma TripleDigits(a: Byte, b: Byte, c: Byte)
    ensures var t := Triple(a, b, c);
      && 0 <= t < 0x1000000
      && t / 0x40000 % 64 == a / 4
      && t / 0x1000 % 64 == a % 4 * 16 + b / 16
      && t / 0x40 % 64 == b % 16 * 4 + c / 64
      && t % 64 == c % 64
      && Bytes(t) == [a, b, c]
  {
    var t := Triple(a, b, c);
    TripleBytes(a, b, c);
    hide Bytes;
    DivModUnique(t, 0x40000, a / 4, a % 4 * 0x10000 + b * 0x100 + c);
    DivModUnique(t, 0x1000, a * 16 + b / 16, b % 16 * 0x100 + c);
    DivModUnique(a * 16 + b / 16, 64, a / 4, a % 4 * 16 + b / 16);
    DivModUnique(t, 0x40, a * 0x400 + b * 4 + c / 64, c % 64);
    DivModUnique(a * 0x400 + b * 4 + c / 64, 64, a * 16 + b / 16, b % 16 * 4 + c / 64);
  }

  lemma TripleBytes(a: Byte, b: Byte, c: Byte)
    ensures var t := Triple(a, b, c); 0 <= t < 0x1000000 && Bytes(t) == [a, b, c]
  {
    var t := Triple(a, b, c);
    DivModUnique(t, 0x10000, a, b * 0x100 + c);
    DivModUnique(t, 0x100, a * 0x100 + b, c);
    DivModUnique(a * 0x100 + b, 256, a, b);
  }

  lemma WordBytes(d0: Sextet, d1: Sextet, d2: Sextet, d3: Sextet)
    ensures Bytes(Word(d0, d1, d2, d3)) == [d0 * 4 + d1 / 16, d1 % 16 * 16 + d2 / 4, d2 % 4 * 64 + d3]
  {
    var t := Word(d0, d1, d2, d3);
    DivModUnique(t, 0x10000, d0 * 4 + d1 / 16, d1 % 16 * 0x1000 + d2 * 0x40 + d3);
    DivModUnique(t, 0x100, d0 * 0x400 + d1 * 16 + d2 / 4, d2 % 4 * 64 + d3);
    DivModUnique(d0 * 0x400 + d1 * 16 + d2 / 4, 256, d0 * 4 + d1 / 16, d1 % 16 * 16 + d2 / 4);
    DivModUnique(t, 256, d0 * 0x400 + d1 * 16 + d2 / 4, d2 % 4 * 64 + d3);
  }

  lemma WordOfTriple(a: Byte, b: Byte, c: Byte)
    ensures Word(a / 4, a % 4 * 16 + b / 16, b % 16 * 4 + c / 64, c % 64) == Triple(a, b, c)
  {
  }

  lemma QuadIs(a: Byte, b: Byte, c: Byte)
    ensures 0 <= Triple(a, b, c) < 0x1000000
    ensures Quad(Triple(a, b, c)) ==
            [Symbol(a / 4), Symbol(a % 4 * 16 + b / 16), Symbol(b % 16 * 4 + c / 64), Symbol(c % 64)]
  {
    TripleDigits(a, b, c);
  }

  lemma QuadReadsBack(a: Byte, b: Byte, c: Byte)
    ensures 0 <= Triple(a, b, c) < 0x1000000
    ensures ReadQuantum(Quad(Triple(a, b, c))) == Full([a, b, c])
  {
    QuadIs(a, b, c);
    TripleDigits(a, b, c);
    WordOfTriple(a, b, c);
    TablesAgree(a / 4);
    TablesAgree(a % 4 * 16 + b / 16);
    TablesAgree(b % 16 * 4 + c / 64);
    TablesAgree(c % 64);
    hide Quad, Word, Bytes, Triple, Symbol, DecTable;
  }

  lemma PaddedReadsBack(a: Byte, b: Byte)
    ensures 0 <= Triple(a, b, 0) < 0x1000000 && 0 <= Triple(a, 0, 0) < 0x1000000
    ensures ReadQuantum(Quad(Triple(a, b, 0))[..3] + "=") == Final([a, b])
    ensures ReadQuantum(Quad(Triple(a, 0, 0))[..2] + "==") == Final([a])
  {
    PairReadsBack(a, b);
    SingleReadsBack(a);
  }

  lemma PairReadsBack(a: Byte, b: Byte)
    ensures 0 <= Triple(a, b, 0) < 0x1000000
    ensures ReadQuantum(Quad(Triple(a, b, 0))[..3] + "=") == Final([a, b])
  {
    hide Quad, Word, Bytes, Triple, Symbol, DecTable;
    QuadIs(a, b, 0);
    TripleBytes(a, b, 0);
    WordOfTriple(a, b, 0);
    TablesAgree(a / 4);
    TablesAgree(a % 4 * 16 + b / 16);
    TablesAgree(b % 16 * 4);
  }

  lemma SingleReadsBack(a: Byte)
    ensures 0 <= Triple(a, 0, 0) < 0x1000000
    ensures ReadQuantum(Quad(Triple(a, 0, 0))[..2] + "==") == Final([a])
  {
    hide Quad, Word, Bytes, Triple, Symbol, DecTable;
    QuadIs(a, 0, 0);
    TripleBytes(a, 0, 0);
    WordOfTriple(a, 0, 0);
    TablesAgree(a / 4);
    TablesAgree(a % 4 * 16);
  }

  lemma {:induction false} EncodedHasNoWhitespace(data: seq<Byte>)
    ensures Strip(Encoded(data)) == Encoded(data)
  {
    if |data| >= 3 {
      EncodedHasNoWhitespace(data[3..]);
      StripPrefix(Quad(Triple(data[0], data[1], data[2])), Encoded(data[3..]));
    } else {
      StripPrefix(Encoded(data), "");
      assert Encoded(data) + "" == Encoded(data);
    }
  }

  lemma {:induction false} StripPrefix(a: string, b: string)
    requires forall k :: 0 <= k < |a| ==> !IsWhitespace(a[k])
    ensures Strip(a + b) == a + Strip(b)
  {
    if a == "" {
      assert a + b == b;
    } else {
      StripPrefix(a[1..], b);
      assert (a + b)[1..] == a[1..] + b;
    }
  }

  /** Decoding an encoding returns the bytes (section 4 of RFC 4648). */
  lemma {:induction false} RoundTrip(data: seq<Byte>)
    ensures Decoded(Encoded(data)) == Some(data)
  {
    EncodedHasNoWhitespace(data);
    SymbolRoundTrip(data);
  }

  lemma {:induction false} SymbolRoundTrip(data: seq<Byte>)
    ensures DecodeSymbols(Encoded(data)) == Some(data)
  {
    hide Quad, ReadQuantum, Triple;
    if |data| == 1 {
      PaddedReadsBack(data[0], 0);
      assert data == [data[0]];
      assert Encoded(data)[..4] == Encoded(data);
    } else if |data| == 2 {
      PaddedReadsBack(data[0], data[1]);
      assert data == [data[0], data[1]];
      assert Encoded(data)[..4] == Encoded(data);
    } else if |data| >= 3 {
      QuadReadsBack(data[0], data[1], data[2]);
      SymbolRoundTrip(data[3..]);
      var t := Encoded(data);
      assert data == [data[0], data[1], data[2]] + data[3..];
      assert t[..4] == Quad(Triple(data[0], data[1], data[2])) && t[4..] == Encoded(data[3..]);
    }
  }

  lemma {:induction false} StripConcat(a: string, b: string)
    ensures Strip(a + b) == Strip(a) + Strip(b)
  {
    hide IsWhitespace;
    if a == "" {
      assert a + b == b;
    } else {
      StripConcat(a[1..], b);
      assert (a + b)[0] == a[0] && (a + b)[1..] == a[1..] + b;
    }
  }

  lemma {:induction false} StripBlank(w: string)
    requires forall k :: 0 <= k < |w| ==> IsWhitespace(w[k])
    ensures Strip(w) == ""
  {
    if w != "" { StripBlank(w[1..]); }
  }

  /** Whitespace inserted anywhere changes neither success nor result (section 3.3). */
  lemma WhitespaceIsInvisible(a: string, w: string, b: string)
    requires forall k :: 0 <= k < |w| ==> w[k] == ' ' || w[k] == '\t' || w[k] == '\n' || w[k] == '\r'
    ensures Decoded(a + w + b) == Decoded(a + b)
  {
    hide Strip, DecodeSymbols;
    StripConcat(a + w, b);
    StripConcat(a, w);
    StripConcat(a, b);
    StripBlank(w);
    assert Strip(a) + "" + Strip(b) == Strip(a) + Strip(b);
  }

  /** Well-formed text, said without decoding: whole quanta of alphabet symbols, padding only
      as the last one or last two symbols (section 3.2). */
  ghost predicate WellFormed(t: string) {
    && |t| % 4 == 0
    && forall k :: 0 <= k < |t| ==>
         IsSymbol(t[k]) || (t[k] == '=' && k >= |t| - 2 && t[|t| - 1] == '=')
  }

  lemma WellFormedQuantum(q: string)
    requires |q| == 4
    ensures WellFormed(q) <==> ReadQuantum(q) != Bad
    ensures ReadQuantum(q).Full? <==> IsSymbol(q[0]) && IsSymbol(q[1]) && IsSymbol(q[2]) && IsSymbol(q[3])
  {
    hide DecTable, Bytes, Word;
    assert WellFormed(q) <==>
      (IsSymbol(q[0]) && IsSymbol(q[1])
       && (IsSymbol(q[2]) || (q[2] == '=' && q[3] == '='))
       && (IsSymbol(q[3]) || q[3] == '='));
    PadIsNoSymbol();
  }

  lemma PadIsNoSymbol()
    ensures !IsSymbol('=')
  {
  }

  lemma WellFormedSplit(t: string)
    requires |t| > 4
    ensures WellFormed(t) <==>
              IsSymbol(t[0]) && IsSymbol(t[1]) && IsSymbol(t[2]) && IsSymbol(t[3]) && WellFormed(t[4..])
  {
    hide IsSymbol;
    var rest := t[4..];
    assert forall k :: 0 <= k < |rest| ==> rest[k] == t[4 + k];
    assert forall k :: 4 <= k < |t| ==> t[k] == rest[k - 4];
    if |t| % 4 == 0 {
      assert |t| >= 8;
    }
  }

  lemma {:induction false} DecodesIffWellFormed(t: string)
    ensures DecodeSymbols(t).Some? <==> WellFormed(t)
  {
    hide ReadQuantum, IsSymbol;
    if |t| >= 4 {
      hide WellFormed;
      DecodesIffWellFormed(t[4..]);
      WellFormedQuantum(t[..4]);
      if |t| == 4 {
        assert t[..4] == t;
        assert t[4..] == "";
      } else {
        WellFormedSplit(t);
      }
    }
  }

  /** Success of the decoder on any text at all. */
  lemma DecodeSucceedsIff(s: string)
    ensures Decoded(s).Some? <==> WellFormed(Strip(s))
  {
    DecodesIffWellFormed(Strip(s));
  }

  /** The unused low bits before the padding are zero (section 3.5). */
  predicate CanonicalPadding(t: string) {
    && (|t| >= 4 && t[|t| - 1] == '=' && t[|t| - 2] == '=' ==> DecTable(t[|t| - 3]) % 16 == 0)
    && (|t| >= 4 && t[|t| - 1] == '=' && t[|t| - 2] != '=' ==> DecTable(t[|t| - 2]) % 4 == 0)
  }

  lemma SameSymbol(d: Sextet, e: Sextet)
    ensures Symbol(d) == Symbol(e) <==> d == e
  {
    TablesAgree(d);
    TablesAgree(e);
  }

  lemma EncodedShort(a: Byte, b: Byte)
    ensures 0 <= Triple(a, 0, 0) < 0x1000000 && 0 <= Triple(a, b, 0) < 0x1000000
    ensures Encoded([a]) == Quad(Triple(a, 0, 0))[..2] + "=="
    ensures Encoded([a, b]) == Quad(Triple(a, b, 0))[..3] + "="
  {
    hide Quad;
  }

  lemma OneByteReEncodes(q: string)
    requires |q| == 4 && IsSymbol(q[0]) && IsSymbol(q[1]) && q[2] == '=' && q[3] == '='
    ensures Encoded(Bytes(Word(DecTable(q[0]), DecTable(q[1]), 0, 0))[..1]) == q <==> DecTable(q[1]) % 16 == 0
  {
    hide DecTable, Symbol, Quad, Bytes, Word, Triple;
    SymbolInTable(q[0]);
    SymbolInTable(q[1]);
    var d0, d1 := DecTable(q[0]), DecTable(q[1]);
    WordBytes(d0, d1, 0, 0);
    var a := d0 * 4 + d1 / 16;
    QuadIs(a, 0, 0);
    EncodedShort(a, 0);
    hide Encoded;
    SameSymbol(d1, a % 4 * 16);
    assert Bytes(Word(d0, d1, 0, 0))[..1] == [a];
    assert Encoded([a]) == [q[0], Symbol(a % 4 * 16), '=', '='];
    assert q == [q[0], q[1], '=', '='];
  }

  lemma PadBits(d1: Sextet, d2: Sextet)
    ensures var b := d1 % 16 * 16 + d2 / 4; d2 == b % 16 * 4 <==> d2 % 4 == 0
  {
  }

  lemma TwoBytesReEncode(q: string)
    requires |q| == 4 && IsSymbol(q[0]) && IsSymbol(q[1]) && IsSymbol(q[2]) && q[3] == '='
    ensures Encoded(Bytes(Word(DecTable(q[0]), DecTable(q[1]), DecTable(q[2]), 0))[..2]) == q <==> DecTable(q[2]) % 4 == 0
  {
    hide DecTable, Symbol, Quad, Bytes, Word, Triple;
    SymbolInTable(q[0]);
    SymbolInTable(q[1]);
    SymbolInTable(q[2]);
    var d0, d1, d2 := DecTable(q[0]), DecTable(q[1]), DecTable(q[2]);
    WordBytes(d0, d1, d2, 0);
    var a, b := d0 * 4 + d1 / 16, d1 % 16 * 16 + d2 / 4;
    QuadIs(a, b, 0);
    EncodedShort(a, b);
    hide Encoded;
    Regroup(d0, d1, d2, 0);
    PadBits(d1, d2);
    SameSymbol(d2, b % 16 * 4);
    assert Bytes(Word(d0, d1, d2, 0))[..2] == [a, b];
    assert Encoded([a, b]) == [q[0], q[1], Symbol(b % 16 * 4), '='];
    assert q == [q[0], q[1], q[2], '='];
  }

  lemma Regroup(d0: Sextet, d1: Sextet, d2: Sextet, d3: Sextet)
    ensures var a, b, c := d0 * 4 + d1 / 16, d1 % 16 * 16 + d2 / 4, d2 % 4 * 64 + d3;
      a / 4 == d0 && a % 4 * 16 + b / 16 == d1 && b % 16 * 4 + c / 64 == d2 && c % 64 == d3
  {
  }

  lemma ThreeBytesReEncode(q: string)
    requires |q| == 4 && IsSymbol(q[0]) && IsSymbol(q[1]) && IsSymbol(q[2]) && IsSymbol(q[3])
    ensures Encoded(Bytes(Word(DecTable(q[0]), DecTable(q[1]), DecTable(q[2]), DecTable(q[3])))) == q
  {
    hide DecTable, Symbol, Quad, Bytes, Word, Triple, Encoded;
    SymbolInTable(q[0]);
    SymbolInTable(q[1]);
    SymbolInTable(q[2]);
    SymbolInTable(q[3]);
    var d0, d1, d2, d3 := DecTable(q[0]), DecTable(q[1]), DecTable(q[2]), DecTable(q[3]);
    WordBytes(d0, d1, d2, d3);
    Regroup(d0, d1, d2, d3);
    var a, b, c := d0 * 4 + d1 / 16, d1 % 16 * 16 + d2 / 4, d2 % 4 * 64 + d3;
    QuadIs(a, b, c);
    EncodedTriple(a, b, c);
    assert q == [q[0], q[1], q[2], q[3]];
  }

  lemma EncodedTriple(a: Byte, b: Byte, c: Byte)
    ensures 0 <= Triple(a, b, c) < 0x1000000
    ensures Encoded([a, b, c]) == Quad(Triple(a, b, c))
  {
    assert [a, b, c][3..] == [];
  }

  /** One quantum re-encodes to itself exactly when its pad bits are zero. */
  lemma QuantumReEncodes(q: string)
    requires |q| == 4 && ReadQuantum(q) != Bad
    ensures ReadQuantum(q).Full? ==> Encoded(ReadQuantum(q).bytes) == q
    ensures ReadQuantum(q).Final? ==> (Encoded(ReadQuantum(q).bytes) == q <==> CanonicalPadding(q))
  {
    hide DecTable, Encoded, Bytes, Word;
    PadIsNoSymbol();
    if q[2] == '=' {
      OneByteReEncodes(q);
    } else if q[3] == '=' {
      TwoBytesReEncode(q);
    } else {
      ThreeBytesReEncode(q);
    }
  }

  /** The reverse round trip: re-encoding returns the text without its whitespace exactly
      when the pad bits are canonical. The decoder accepts both. */
  lemma {:induction false} ReEncodesIffCanonical(t: string)
    requires DecodeSymbols(t).Some?
    ensures Encoded(DecodeSymbols(t).value) == t <==> CanonicalPadding(t)
  {
    if t != "" {
      var q, rest := t[..4], t[4..];
      assert t == q + rest;
      QuantumReEncodes(q);
      match ReadQuantum(q)
      case Final(_) =>
        assert t == q;
      case Full(b) =>
        ReEncodesIffCanonical(rest);
        FullReEncodes(b, DecodeSymbols(rest).value, q, rest);
        if rest == "" {
          assert t == q;
        }
    }
  }

  /** A full quantum in front changes nothing. */
  lemma FullReEncodes(b: seq<Byte>, tail: seq<Byte>, q: string, rest: string)
    requires |b| == 3 && |q| == 4 && Encoded(b) == q
    ensures Encoded(b + tail) == q + rest <==> Encoded(tail) == rest
  {
    hide Quad;
    assert b[3..] == [] && (b + tail)[3..] == tail;
    assert Encoded(b) == Quad(Triple(b[0], b[1], b[2])) + Encoded([]);
    assert Encoded(b + tail) == q + Encoded(tail);
    assert (q + Encoded(tail))[4..] == Encoded(tail) && (q + rest)[4..] == rest;
  }

  /** The encoder's output length, the one the buffer is reserved for. */
  lemma {:induction false} EncodedLength(data: seq<Byte>)
    ensures |Encoded(data)| == (|data| + 2) / 3 * 4
  {
    hide Quad, Triple;
    if |data| >= 3 {
      EncodedLength(data[3..]);
      assert |Encoded(data)| == 4 + |Encoded(data[3..])|;
      assert (|data| + 2) / 3 == (|data[3..]| + 2) / 3 + 1;
    }
  }

  // ---- the encoding without the tables ----------------------------------------------------------

  /** The alphabet of section 4 of RFC 4648. */
  function Alphabet(): (s: string)
    ensures |s| == 64
  {
    Letters('A', 26) + Letters('a', 26) + Letters('0', 10) + "+/"
  }

  /** So many characters in order from `first` on. */
  function Letters(first: char, count: nat): (s: string)
    requires first as int + count <= 127
    ensures |s| == count && forall k :: 0 <= k < count ==> s[k] == (first as int + k) as char
  {
    seq(count, k requires 0 <= k < count => (first as int + k) as char)
  }

  /** Written out. */
  lemma AlphabetText()
    ensures Alphabet() == "ABCDEFGHIJKLMNOPQRSTUVWXYZ" + "abcdefghijklmnopqrstuvwxyz" + "0123456789" + "+/"
  {
    assert Letters('A', 26) == "ABCDEFGHIJKLMNOPQRSTUVWXYZ";
    assert Letters('a', 26) == "abcdefghijklmnopqrstuvwxyz";
    assert Letters('0', 10) == "0123456789";
  }

  /** Each table is that alphabet: the encoder's symbol for a value is the character at that place, and the
      decoder's value of a character is its place. */
  lemma AlphabetIs(d: Sextet)
    ensures Symbol(d) == Alphabet()[d] && DecTable(Alphabet()[d]) == d
  {
  }

  /** And no other character decodes. */
  lemma OutsideAlphabet(c: char)
    ensures DecTable(c) >= 0 <==> c in Alphabet()
  {
    hide Alphabet, DecTable, Symbol;
    if IsSymbol(c) {
      SymbolInTable(c);
      AlphabetIs(DecTable(c));
    }
    if c in Alphabet() {
      var d :| 0 <= d < |Alphabet()| && Alphabet()[d] == c;
      AlphabetIs(d);
    }
  }

  /** Four symbols for up to three bytes, six bits each from the highest on, and '=' for a symbol that no
      byte reaches. */
  predicate Spells(data: seq<Byte>, s0: char, s1: char, s2: char, s3: char)
    requires data != []
  {
    var a, b, c := data[0], if |data| > 1 then data[1] else 0, if |data| > 2 then data[2] else 0;
    && s0 == Alphabet()[a / 4]
    && s1 == Alphabet()[a % 4 * 16 + b / 16]
    && s2 == (if |data| > 1 then Alphabet()[b % 16 * 4 + c / 64] else '=')
    && s3 == (if |data| > 2 then Alphabet()[c % 64] else '=')
  }

  lemma QuadSpells(a: Byte, b: Byte, c: Byte)
    ensures 0 <= Triple(a, b, c) < 0x1000000
    ensures Quad(Triple(a, b, c)) == [Alphabet()[a / 4], Alphabet()[a % 4 * 16 + b / 16],
                                      Alphabet()[b % 16 * 4 + c / 64], Alphabet()[c % 64]]
  {
    hide Quad, Triple, Symbol, DecTable, Alphabet;
    QuadIs(a, b, c);
    AlphabetIs(a / 4);
    AlphabetIs(a % 4 * 16 + b / 16);
    AlphabetIs(b % 16 * 4 + c / 64);
    AlphabetIs(c % 64);
  }

  lemma FirstGroup(data: seq<Byte>)
    requires data != []
    ensures var t := Encoded(data); |t| >= 4 && Spells(data, t[0], t[1], t[2], t[3])
  {
    hide Quad, Triple, Alphabet;
    QuadSpells(data[0], if |data| > 1 then data[1] else 0, if |data| > 2 then data[2] else 0);
  }

  /** Every group of the encoder's output, wherever it stands. */
  lemma {:induction false} EncodedIs(data: seq<Byte>, k: nat)
    requires 3 * k < |data|
    ensures var t := Encoded(data);
      4 * k + 4 <= |t| && Spells(data[3 * k..], t[4 * k], t[4 * k + 1], t[4 * k + 2], t[4 * k + 3])
  {
    hide Quad, Triple, Spells;
    if k == 0 {
      FirstGroup(data);
      assert data[0..] == data;
    } else {
      EncodedIs(data[3..], k - 1);
      QuadSpells(data[0], data[1], data[2]);
      assert data[3..][3 * (k - 1)..] == data[3 * k..];
      LaterGroup(Quad(Triple(data[0], data[1], data[2])), Encoded(data[3..]), 4 * k);
    }
  }

  lemma LaterGroup(quad: string, text: string, at: nat)
    requires |quad| == 4 && 4 <= at <= |text|
    ensures forall j :: at <= j < at + 4 ==> (quad + text)[j] == text[j - 4]
  {
  }

  /** The bytes a group of four symbols stands for, from their places in the alphabet: eight bits each from
      the highest on, pad bits ignored. */
  predicate Means(s0: char, s1: char, s2: char, s3: char, bytes: seq<Byte>) {
    exists d0: Sextet, d1: Sextet ::
      && Alphabet()[d0] == s0 && Alphabet()[d1] == s1 && |bytes| >= 1 && bytes[0] == d0 * 4 + d1 / 16
      && if s2 == '=' then |bytes| == 1 else
         exists d2: Sextet ::
           && Alphabet()[d2] == s2 && |bytes| >= 2 && bytes[1] == d1 % 16 * 16 + d2 / 4
           && if s3 == '=' then |bytes| == 2 else
              exists d3: Sextet :: Alphabet()[d3] == s3 && |bytes| == 3 && bytes[2] == d2 % 4 * 64 + d3
  }

  lemma QuantumMeans(q: string)
    requires |q| == 4 && ReadQuantum(q) != Bad
    ensures Means(q[0], q[1], q[2], q[3], ReadQuantum(q).bytes)
  {
    PadIsNoSymbol();
    var d0, d1 := DecTable(q[0]), DecTable(q[1]);
    var d2, d3 := if q[2] == '=' then 0 else DecTable(q[2]), if q[3] == '=' then 0 else DecTable(q[3]);
    PlaceIs(q[0]);
    PlaceIs(q[1]);
    if q[2] != '=' { PlaceIs(q[2]); }
    if q[3] != '=' { PlaceIs(q[3]); }
    hide Alphabet, DecTable, Bytes, Word;
    WordBytes(d0, d1, d2, d3);
  }

  lemma PlaceIs(c: char)
    requires IsSymbol(c)
    ensures DecTable(c) <= 63 && Alphabet()[DecTable(c)] == c
  {
    SymbolInTable(c);
    AlphabetIs(DecTable(c));
  }

  /** Every group of an accepted text, wherever it stands: its bytes are those of the output there. */
  lemma {:induction false} DecodedIs(t: string, k: nat)
    requires DecodeSymbols(t).Some? && 4 * k < |t|
    ensures 4 * k + 4 <= |t| && 3 * k < |DecodeSymbols(t).value|
    ensures var out := DecodeSymbols(t).value[3 * k..];
      Means(t[4 * k], t[4 * k + 1], t[4 * k + 2], t[4 * k + 3], out[..if |out| > 3 then 3 else |out|])
  {
    hide Means, ReadQuantum, Alphabet;
    var q, rest := t[..4], t[4..];
    QuantumMeans(q);
    WellFormedQuantum(q);
    QuantumLength(q);
    assert t == q + rest;
    DecodeStep([], q, rest);
    var b, out := ReadQuantum(q).bytes, DecodeSymbols(t).value;
    if k == 0 {
      assert out[0..] == out && out[..|b|] == b;
    } else {
      assert ReadQuantum(q).Full? && out == b + DecodeSymbols(rest).value;
      DecodedIs(rest, k - 1);
      assert out[3 * k..] == DecodeSymbols(rest).value[3 * (k - 1)..];
      assert rest[4 * (k - 1)] == t[4 * k] && rest[4 * (k - 1) + 1] == t[4 * k + 1]
          && rest[4 * (k - 1) + 2] == t[4 * k + 2] && rest[4 * (k - 1) + 3] == t[4 * k + 3];
    }
  }

  lemma QuantumLength(q: string)
    requires |q| == 4
    ensures ReadQuantum(q).Full? ==> |ReadQuantum(q).bytes| == 3
    ensures ReadQuantum(q).Final? ==> 1 <= |ReadQuantum(q).bytes| <= 2
  {
    hide DecTable, Word;
  }

  /** A character that is no symbol, no padding and none of the four blanks makes any text fail. */
  lemma ForeignCharacterFails(s: string, k: nat)
    requires k < |s| && s[k] !in Alphabet() && s[k] != '=' && s[k] !in "\t\n\r "
    ensures Decoded(s) == None
  {
    hide Alphabet;
    OutsideAlphabet(s[k]);
    assert !IsWhitespace(s[k]);
    assert !IsSymbol(s[k]);
    KeptByStrip(s, k);
    DecodeSucceedsIff(s);
  }

  lemma {:induction false} KeptByStrip(s: string, k: nat)
    requires k < |s| && !IsWhitespace(s[k])
    ensures s[k] in Strip(s)
  {
    hide IsWhitespace;
    if k > 0 { KeptByStrip(s[1..], k - 1); }
  }
}
