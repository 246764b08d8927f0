/** Escaping string literals into a shared buffer, and reading such literals back as the server does. */
module Escape {
  import opened Common

  const NUL: byte := 0
  const NEWLINE: byte := 10
  const RETURN: byte := 13
  const CTRL_Z: byte := 26
  const DOUBLE_QUOTE: byte := 34
  const QUOTE: byte := 39
  const BACKSLASH: byte := 92
  const LETTER_0: byte := 48
  const LETTER_Z: byte := 90
  const LETTER_N: byte := 110
  const LETTER_R: byte := 114

  /** Backslash escapes, or doubled quotes under NO_BACKSLASH_ESCAPES. */
  datatype Mode = Backslashes | DoubledQuotes

  function Escaped(mode: Mode, c: byte): (e: seq<byte>)
    ensures 1 <= |e| <= 2
  {
    match mode
    case DoubledQuotes => if c == QUOTE then [QUOTE, QUOTE] else [c]
    case Backslashes =>
      if c == NUL then [BACKSLASH, LETTER_0]
      else if c == NEWLINE then [BACKSLASH, LETTER_N]
      else if c == RETURN then [BACKSLASH, LETTER_R]
      else if c == CTRL_Z then [BACKSLASH, LETTER_Z]
      else if c == QUOTE || c == DOUBLE_QUOTE || c == BACKSLASH then [BACKSLASH, c]
      else [c]
  }

  type Escaper = byte -> seq<byte>

  function With(mode: Mode): Escaper {
    (c: byte) => Escaped(mode, c)
  }

  function EscapeWith(esc: Escaper, v: seq<byte>): seq<byte> {
    if v == [] then [] else esc(v[0]) + EscapeWith(esc, v[1..])
  }

  function EscapeAll(mode: Mode, v: seq<byte>): seq<byte> {
    EscapeWith(With(mode), v)
  }

  lemma {:induction false} EscapeWithSnoc(esc: Escaper, v: seq<byte>, c: byte)
    ensures EscapeWith(esc, v + [c]) == EscapeWith(esc, v) + esc(c)
  {
    if v == [] {
      assert v + [c] == [c] && [c][1..] == [];
    } else {
      EscapeWithSnoc(esc, v[1..], c);
      assert (v + [c])[1..] == v[1..] + [c];
    }
  }

  lemma EscapeSnoc(mode: Mode, v: seq<byte>, c: byte)
    ensures EscapeAll(mode, v + [c]) == EscapeAll(mode, v) + Escaped(mode, c)
  {
    EscapeWithSnoc(With(mode), v, c);
  }

  // ---------------------------------------------------------------------------------------
  // The server's side: section "String Literals" of the MySQL reference manual

  /** The characters a backslash sequence stands for; \% and \_ keep their backslash. */
  function Unescaped(c: byte): seq<byte> {
    if c == LETTER_0 then [NUL]
    else if c == LETTER_N then [NEWLINE]
    else if c == LETTER_R then [RETURN]
    else if c == LETTER_Z then [CTRL_Z]
    else if c == 98 then [8]
    else if c == 116 then [9]
    else if c == 37 || c == 95 then [BACKSLASH, c]
    else [c]
  }

  datatype Literal = Unterminated | Literal(value: seq<byte>, rest: seq<byte>)

  function Before(s: seq<byte>, l: Literal): Literal {
    if l.Literal? then Literal(s + l.value, l.rest) else Unterminated
  }

  /** A literal from just after its opening quote: its value, and what follows its closing quote. */
  function ReadLiteral(mode: Mode, s: seq<byte>): Literal
    decreases |s|
  {
    if s == [] then Unterminated
    else if s[0] == QUOTE then
      if |s| >= 2 && s[1] == QUOTE then Before([QUOTE], ReadLiteral(mode, s[2..])) else Literal([], s[1..])
    else if s[0] == BACKSLASH && mode.Backslashes? then
      if |s| < 2 then Unterminated else Before(Unescaped(s[1]), ReadLiteral(mode, s[2..]))
    else Before([s[0]], ReadLiteral(mode, s[1..]))
  }

  lemma PlainReads(mode: Mode, c: byte, tail: seq<byte>)
    requires Escaped(mode, c) == [c]
    ensures ReadLiteral(mode, [c] + tail) == Before([c], ReadLiteral(mode, tail))
  {
    assert ([c] + tail)[1..] == tail;
  }

  lemma PairReads(mode: Mode, e0: byte, e1: byte, tail: seq<byte>)
    requires (e0 == BACKSLASH && mode.Backslashes?) || (e0 == QUOTE && e1 == QUOTE)
    ensures ReadLiteral(mode, [e0, e1] + tail) ==
            Before(if e0 == QUOTE then [QUOTE] else Unescaped(e1), ReadLiteral(mode, tail))
  {
    assert ([e0, e1] + tail)[2..] == tail;
  }

  lemma EscapedReads(mode: Mode, c: byte, tail: seq<byte>)
    ensures ReadLiteral(mode, Escaped(mode, c) + tail) == Before([c], ReadLiteral(mode, tail))
  {
    var e := Escaped(mode, c);
    if |e| == 1 {
      PlainReads(mode, c, tail);
    } else {
      assert e == [e[0], e[1]];
      PairReads(mode, e[0], e[1], tail);
    }
  }

  type LiteralReader = seq<byte> -> Literal

  function Reader(mode: Mode): LiteralReader {
    (s: seq<byte>) => ReadLiteral(mode, s)
  }

  /** An escaped byte reads as that byte, then what follows. */
  ghost predicate Undoes(read: LiteralReader, esc: Escaper, c: byte, tail: seq<byte>) {
    read(esc(c) + tail) == Before([c], read(tail))
  }

  lemma BeforeTwice(a: seq<byte>, b: seq<byte>, l: Literal)
    ensures Before(a, Before(b, l)) == Before(a + b, l)
  {
    assert l.Literal? ==> a + (b + l.value) == a + b + l.value;
  }

  lemma {:induction false} EscapeWithReads(read: LiteralReader, esc: Escaper, v: seq<byte>, tail: seq<byte>)
    requires forall c, t :: Undoes(read, esc, c, t)
    ensures read(EscapeWith(esc, v) + tail) == Before(v, read(tail))
  {
    if v == [] {
      assert [] + tail == tail;
      assert read(tail).Literal? ==> [] + read(tail).value == read(tail).value;
    } else {
      var e, more := esc(v[0]), EscapeWith(esc, v[1..]);
      assert e + more + tail == e + (more + tail);
      assert Undoes(read, esc, v[0], more + tail);
      EscapeWithReads(read, esc, v[1..], tail);
      BeforeTwice([v[0]], v[1..], read(tail));
      assert v == [v[0]] + v[1..];
    }
  }

  lemma EscapeAllReads(mode: Mode, v: seq<byte>, tail: seq<byte>)
    ensures ReadLiteral(mode, EscapeAll(mode, v) + tail) == Before(v, ReadLiteral(mode, tail))
  {
    var read, esc := Reader(mode), With(mode);
    forall c, t ensures Undoes(read, esc, c, t) {
      EscapedReads(mode, c, t);
    }
    EscapeWithReads(read, esc, v, tail);
  }

  /**
   * In both modes, for every byte string, the escaped form between quotes reads back as that string and
   * ends at the closing quote, exactly when the text that follows does not start with another quote.
   */
  lemma LiteralReadsBackIff(mode: Mode, v: seq<byte>, rest: seq<byte>)
    ensures ReadLiteral(mode, EscapeAll(mode, v) + [QUOTE] + rest) == Literal(v, rest)
            <==> !(rest != [] && rest[0] == QUOTE)
  {
    var tail := [QUOTE] + rest;
    Associates(EscapeAll(mode, v), [QUOTE], rest);
    EscapeAllReads(mode, v, tail);
    ClosingQuote(mode, rest);
    if rest != [] && rest[0] == QUOTE {
      LongerValue(v, ReadLiteral(mode, rest[1..]), rest);
    } else {
      assert v + [] == v;
    }
  }

  /** A quote closes the literal unless another one follows. */
  lemma ClosingQuote(mode: Mode, rest: seq<byte>)
    ensures ReadLiteral(mode, [QUOTE] + rest) ==
            if rest != [] && rest[0] == QUOTE then Before([QUOTE], ReadLiteral(mode, rest[1..])) else Literal([], rest)
  {
    var tail := [QUOTE] + rest;
    assert tail[1..] == rest;
    if rest != [] {
      assert tail[1] == rest[0] && tail[2..] == rest[1..];
    }
  }

  lemma LongerValue(v: seq<byte>, inner: Literal, rest: seq<byte>)
    ensures Before(v, Before([QUOTE], inner)) != Literal(v, rest)
  {
    if inner.Literal? {
      assert |v + ([QUOTE] + inner.value)| > |v|;
    }
  }

  /** With backslashes, no byte of the escaped form is a zero, a line end or an end of file. */
  predicate Clean(s: seq<byte>) {
    forall i :: 0 <= i < |s| ==> s[i] != 0 && s[i] != 10 && s[i] != 13 && s[i] != 26
  }

  lemma {:induction false} EscapedIsClean(v: seq<byte>)
    ensures Clean(EscapeAll(Backslashes, v))
    decreases |v|
  {
    if v != [] {
      EscapedIsClean(v[1..]);
      assert Clean(With(Backslashes)(v[0]));
    }
  }

  /** With doubled quotes, every other byte stays as it is. */
  lemma {:induction false} OnlyQuotesDoubled(v: seq<byte>)
    requires QUOTE !in v
    ensures EscapeAll(DoubledQuotes, v) == v
    decreases |v|
  {
    if v != [] {
      assert v[0] in v && forall c :: c in v[1..] ==> c in v;
      OnlyQuotesDoubled(v[1..]);
      assert With(DoubledQuotes)(v[0]) == [v[0]];
      assert v == [v[0]] + v[1..];
    }
  }

  // ---------------------------------------------------------------------------------------
  // The driver's side: in a buffer with room reserved for two bytes per byte

  /** reserveBuffer: room for appendSize more bytes after the first len, in place if the capacity allows. */
  method ReserveBuffer(buf: array<byte>, len: nat, appendSize: nat) returns (r: array<byte>)
    requires len <= buf.Length
    ensures r.Length >= len + appendSize && r[..len] == buf[..len]
    ensures if buf.Length >= len + appendSize then r == buf else fresh(r)
  {
    var newSize := len + appendSize;
    if buf.Length < newSize {
      r := new byte[len * 2 + appendSize];
      forall i | 0 <= i < len {
        r[i] := buf[i];
      }
    } else {
      r := buf;
    }
  }

  /** One escaped byte at pos; it never writes past pos + 2. */
  method Put(mode: Mode, r: array<byte>, pos: nat, c: byte) returns (next: nat)
    requires pos + 2 <= r.Length
    modifies r
    ensures next == pos + |Escaped(mode, c)| && r[..next] == old(r[..pos]) + Escaped(mode, c)
    ensures forall j :: 0 <= j < r.Length && !(pos <= j < pos + 2) ==> r[j] == old(r[j])
  {
    if mode.DoubledQuotes? {
      if c == QUOTE {
        r[pos], r[pos + 1] := QUOTE, QUOTE;
        return pos + 2;
      }
    } else if c == NUL {
      r[pos], r[pos + 1] := BACKSLASH, LETTER_0;
      return pos + 2;
    } else if c == NEWLINE {
      r[pos], r[pos + 1] := BACKSLASH, LETTER_N;
      return pos + 2;
    } else if c == RETURN {
      r[pos], r[pos + 1] := BACKSLASH, LETTER_R;
      return pos + 2;
    } else if c == CTRL_Z {
      r[pos], r[pos + 1] := BACKSLASH, LETTER_Z;
      return pos + 2;
    } else if c == QUOTE || c == DOUBLE_QUOTE || c == BACKSLASH {
      r[pos], r[pos + 1] := BACKSLASH, c;
      return pos + 2;
    }
    r[pos] := c;
    return pos + 1;
  }

  lemma EscapedUpTo(mode: Mode, head: seq<byte>, s: seq<byte>, k: nat)
    requires k < |s|
    ensures head + EscapeAll(mode, s[..k + 1]) == head + EscapeAll(mode, s[..k]) + Escaped(mode, s[k])
  {
    assert s[..k + 1] == s[..k] + [s[k]];
    EscapeSnoc(mode, s[..k], s[k]);
    Associates(head, EscapeAll(mode, s[..k]), Escaped(mode, s[k]));
  }

  /** The slice v[lo..hi] is not in the part of the array that escaping it after the first len bytes writes. */
  predicate Apart(buf: array<byte>, len: nat, v: array<byte>, lo: nat, hi: nat) {
    v != buf || lo >= hi || buf.Length < len + 2 * (hi - lo) || hi <= len || lo >= len + 2 * (hi - lo)
  }

  /**
   * escapeBytesBackslash and escapeBytesQuotes: the argument is a byte slice, perhaps of the destination
   * array. Its bytes are appended in escaped form whenever it lies apart from what is written.
   */
  method EscapeBytes(mode: Mode, buf: array<byte>, len: nat, v: array<byte>, lo: nat, hi: nat)
    returns (r: array<byte>, pos: nat)
    requires len <= buf.Length && lo <= hi <= v.Length
    modifies buf
    ensures len <= pos <= r.Length && (r == buf || fresh(r)) && r[..len] == old(buf[..len])
    ensures Apart(buf, len, v, lo, hi) ==>
              r[..pos] == old(buf[..len]) + EscapeAll(mode, old(v[lo..hi])) && v[lo..hi] == old(v[lo..hi])
  {
    r := ReserveBuffer(buf, len, (hi - lo) * 2);
    ghost var s, head := v[lo..hi], buf[..len];
    pos := EscapeInto(mode, r, len, v, lo, hi, s, head);
  }

  /** The loop, with room for two bytes per byte after the first len. */
  method EscapeInto(mode: Mode, r: array<byte>, len: nat, v: array<byte>, lo: nat, hi: nat,
                    ghost s: seq<byte>, ghost head: seq<byte>)
    returns (pos: nat)
    requires lo <= hi <= v.Length && len + 2 * (hi - lo) <= r.Length && s == v[lo..hi] && head == r[..len]
    modifies r
    ensures len <= pos <= r.Length && r[..len] == head
    ensures v != r || lo >= hi || hi <= len || lo >= len + 2 * (hi - lo) ==>
              r[..pos] == head + EscapeAll(mode, s) && v[lo..hi] == s
  {
    pos := len;
    var i := lo;
    ghost var apart := v != r || lo >= hi || hi <= len || lo >= len + 2 * (hi - lo);
    while i < hi
      invariant lo <= i <= hi && len <= pos <= len + 2 * (i - lo)
      invariant r[..len] == head
      invariant apart ==> v[lo..hi] == s && r[..pos] == head + EscapeAll(mode, s[..i - lo])
    {
      pos := EscapeNext(mode, r, len, v, lo, hi, i, pos, s, head, apart);
      i := i + 1;
    }
    assert s[..i - lo] == s;
  }

  /** One turn of the loop. */
  method EscapeNext(mode: Mode, r: array<byte>, len: nat, v: array<byte>, lo: nat, hi: nat, i: nat, pos: nat,
                    ghost s: seq<byte>, ghost head: seq<byte>, ghost apart: bool)
    returns (next: nat)
    requires lo <= i < hi <= v.Length && len <= pos <= len + 2 * (i - lo) && len + 2 * (hi - lo) <= r.Length
    requires r[..len] == head && (apart ==> v != r || hi <= len || lo >= len + 2 * (hi - lo))
    requires apart ==> v[lo..hi] == s && r[..pos] == head + EscapeAll(mode, s[..i - lo])
    modifies r
    ensures len <= next <= pos + 2 && r[..len] == head
    ensures apart ==> v[lo..hi] == s && r[..next] == head + EscapeAll(mode, s[..i - lo + 1])
  {
    if apart {
      assert v[lo..hi][i - lo] == v[i];
      EscapedUpTo(mode, head, s, i - lo);
    }
    next := PutKeeping(mode, r, len, pos, v[i], v, lo, hi);
  }

  /** One escaped byte, written after the first len bytes and outside a slice that lies apart. */
  method PutKeeping(mode: Mode, r: array<byte>, len: nat, pos: nat, c: byte, v: array<byte>, lo: nat, hi: nat)
    returns (next: nat)
    requires len <= pos && pos + 2 <= r.Length && lo <= hi <= v.Length
    modifies r
    ensures next == pos + |Escaped(mode, c)| && r[..next] == old(r[..pos]) + Escaped(mode, c)
    ensures r[..len] == old(r[..len])
    ensures v != r || hi <= pos || lo >= pos + 2 ==> v[lo..hi] == old(v[lo..hi])
  {
    next := Put(mode, r, pos, c);
  }

  /** escapeStringBackslash and escapeStringQuotes: the argument is a string. */
  method EscapeString(mode: Mode, buf: array<byte>, len: nat, v: seq<byte>) returns (r: array<byte>, pos: nat)
    requires len <= buf.Length
    modifies buf
    ensures pos <= r.Length && (r == buf || fresh(r))
    ensures r[..pos] == old(buf[..len]) + EscapeAll(mode, v)
  {
    r := ReserveBuffer(buf, len, |v| * 2);
    pos := len;
    var i := 0;
    while i < |v|
      invariant 0 <= i <= |v| && pos <= len + 2 * i && len + 2 * |v| <= r.Length
      invariant r[..pos] == old(buf[..len]) + EscapeAll(mode, v[..i])
    {
      assert v[..i + 1] == v[..i] + [v[i]];
      EscapeSnoc(mode, v[..i], v[i]);
      pos := Put(mode, r, pos, v[i]);
      assert r[..pos] == old(buf[..len]) + (EscapeAll(mode, v[..i]) + Escaped(mode, v[i]));
      i := i + 1;
    }
    assert v[..i] == v;
  }
}
