/**
 * Where the server finds the arguments of an interpolated query: its lexer, which tells words, numbers,
 * strings, quoted names and comments apart (chapter "Language Structure" of the MySQL reference manual), and
 * the exact condition on a query under which every argument is a token of its own, with its value.
 */
module Lexing {
  import opened Common
  import opened Escape
  import I = Interpolate
  import Text

  const SPACE: byte := 32
  const HASH: byte := 35
  const DOLLAR: byte := 36
  const STAR: byte := 42
  const PLUS: byte := 43
  const DASH: byte := 45
  const POINT: byte := 46
  const SLASH: byte := 47
  const ZERO: byte := 48
  const AT_SIGN: byte := 64
  const CAPITAL_N: byte := 78
  const UNDERSCORE: byte := 95
  const BACKTICK: byte := 96
  const DELETE: byte := 127

  // ---------------------------------------------------------------------------------------
  // Characters

  predicate IsQuote(c: byte) {
    c == QUOTE || c == DOUBLE_QUOTE || c == BACKTICK
  }

  predicate IsDigit(c: byte) {
    48 <= c <= 57
  }

  /** A character of names that is no digit; those outside ASCII are. */
  predicate IsLetter(c: byte) {
    65 <= c <= 90 || 97 <= c <= 122 || c == UNDERSCORE || c == DOLLAR || c >= 128
  }

  predicate IsName(c: byte) {
    IsDigit(c) || IsLetter(c)
  }

  predicate IsSign(c: byte) {
    c == PLUS || c == DASH
  }

  /** The exponent mark, e or E. */
  predicate IsMark(c: byte) {
    c == 69 || c == 101
  }

  /** Directly before a quote, x, b and n in either case make a hexadecimal, bit or national literal. */
  predicate Introduces(c: byte) {
    c == 120 || c == 88 || c == 98 || c == 66 || c == 110 || c == CAPITAL_N
  }

  // ---------------------------------------------------------------------------------------
  // The lexer

  /**
   * The lexer between two characters. In code: after nothing that can go on, after the beginning of a comment
   * mark, after '@' or a backslash, in a word (one that is just an introducer, or any other), after a point, or
   * in a number: its integer part, its fraction, its exponent, and around the exponent mark. In a comment. Or
   * in quotes, after a backslash there, or after a quote that closes unless it is doubled.
   */
  datatype State =
    | Code | Dash | Dashes | Slash | At | Backslash
    | Word(intro: bool) | Point | NamePoint
    | Whole | Fraction | Exponent | Mark(fraction: bool) | MarkSign(minus: bool)
    | Line | Block | BlockStar
    | Inside(q: byte) | Escaping(q: byte) | Closing(q: byte)

  function FromCode(c: byte): State {
    if IsQuote(c) then Inside(c)
    else if IsDigit(c) then Whole
    else if IsLetter(c) then Word(Introduces(c))
    else if c == POINT then Point
    else if c == DASH then Dash
    else if c == SLASH then Slash
    else if c == HASH then Line
    else if c == AT_SIGN then At
    else if c == BACKSLASH then Backslash
    else Code
  }

  function Step(mode: Mode, st: State, c: byte): State {
    match st
    case Code => FromCode(c)
    case Dash => if c == DASH then Dashes else FromCode(c)
    case Dashes =>
      if c == DASH then Dashes
      else if c == NEWLINE then Code
      else if c <= SPACE || c == DELETE then Line
      else FromCode(c)
    case Slash => if c == STAR then Block else FromCode(c)
    case At => if c == AT_SIGN then At else if IsName(c) || c == POINT then Word(false) else FromCode(c)
    case Backslash => if c == CAPITAL_N then Code else FromCode(c)
    case Word(_) => if IsName(c) then Word(false) else if c == POINT then NamePoint else FromCode(c)
    case Point => if IsDigit(c) then Fraction else if IsLetter(c) then Word(false) else FromCode(c)
    case NamePoint => if IsName(c) then Word(false) else FromCode(c)
    case Whole =>
      if IsDigit(c) then Whole
      else if c == POINT then Fraction
      else if IsMark(c) then Mark(false)
      else if IsLetter(c) then Word(false)
      else FromCode(c)
    case Fraction => if IsDigit(c) then Fraction else if IsMark(c) then Mark(true) else FromCode(c)
    case Exponent => if IsDigit(c) then Exponent else FromCode(c)
    case Mark(fraction) =>
      if IsDigit(c) then Exponent
      else if IsSign(c) then MarkSign(c == DASH)
      else if !fraction && IsLetter(c) then Word(false)
      else if !fraction && c == POINT then NamePoint
      else FromCode(c)
    case MarkSign(minus) => if IsDigit(c) then Exponent else if minus && c == DASH then Dashes else FromCode(c)
    case Line => if c == NEWLINE then Code else Line
    case Block => if c == STAR then BlockStar else Block
    case BlockStar => if c == SLASH then Code else if c == STAR then BlockStar else Block
    case Inside(q) =>
      if c == q then Closing(q) else if c == BACKSLASH && mode.Backslashes? && q != BACKTICK then Escaping(q) else st
    case Escaping(q) => Inside(q)
    case Closing(q) => if c == q then Inside(q) else FromCode(c)
  }

  /** The character goes on with what the lexer is in the middle of, instead of beginning a token. */
  predicate Joins(st: State, c: byte) {
    match st
    case Code | Dash | Dashes | Slash => false
    case At => IsQuote(c) || IsName(c) || c == POINT || c == AT_SIGN
    case Backslash => c == CAPITAL_N
    case Word(intro) => IsName(c) || c == POINT || (intro && c == QUOTE)
    case Point | NamePoint => IsName(c)
    case Whole => IsName(c) || c == POINT
    case Fraction => IsDigit(c) || IsMark(c)
    case Exponent => IsDigit(c)
    case Mark(fraction) => IsDigit(c) || IsSign(c) || (!fraction && (IsLetter(c) || c == POINT))
    case MarkSign(_) => IsDigit(c)
    case Line | Block | BlockStar | Inside(_) | Escaping(_) => true
    case Closing(q) => c == q
  }

  /** Neither in a comment nor in quotes. */
  predicate InCode(st: State) {
    match st
    case Line | Block | BlockStar | Inside(_) | Escaping(_) => false
    case Closing(q) => IsQuote(q)
    case _ => true
  }

  function Run(mode: Mode, st: State, s: seq<byte>): State
    decreases |s|
  {
    if s == [] then st else Run(mode, Step(mode, st, s[0]), s[1..])
  }

  lemma {:induction false} RunAppend(mode: Mode, st: State, a: seq<byte>, b: seq<byte>)
    ensures Run(mode, st, a + b) == Run(mode, Run(mode, st, a), b)
    decreases |a|
  {
    if a == [] {
      assert a + b == b;
    } else {
      assert (a + b)[1..] == a[1..] + b;
      RunAppend(mode, Step(mode, st, a[0]), a[1..], b);
    }
  }

  lemma RunOne(mode: Mode, st: State, c: byte)
    ensures Run(mode, st, [c]) == Step(mode, st, c)
  {
    assert [c][1..] == [];
  }

  // ---------------------------------------------------------------------------------------
  // Strings

  /** An escaped byte does not leave the quotes. */
  lemma EscapedStays(mode: Mode, c: byte)
    ensures Run(mode, Inside(QUOTE), Escaped(mode, c)) == Inside(QUOTE)
  {
    var e := Escaped(mode, c);
    var st := Step(mode, Inside(QUOTE), e[0]);
    assert Run(mode, Inside(QUOTE), e) == Run(mode, st, e[1..]);
    if |e| == 2 {
      assert e[1..] == [e[1]];
      RunOne(mode, st, e[1]);
    } else {
      assert e[1..] == [];
    }
  }

  lemma {:induction false} EscapeStays(mode: Mode, v: seq<byte>)
    ensures Run(mode, Inside(QUOTE), EscapeAll(mode, v)) == Inside(QUOTE)
    decreases |v|
  {
    if v != [] {
      EscapedStays(mode, v[0]);
      RunAppend(mode, Inside(QUOTE), Escaped(mode, v[0]), EscapeAll(mode, v[1..]));
      EscapeStays(mode, v[1..]);
    }
  }

  lemma EscapedStaysEither(q: byte, c: byte)
    requires q == QUOTE || q == DOUBLE_QUOTE
    ensures Run(Backslashes, Inside(q), Escaped(Backslashes, c)) == Inside(q)
  {
    var e := Escaped(Backslashes, c);
    var st := Step(Backslashes, Inside(q), e[0]);
    assert Run(Backslashes, Inside(q), e) == Run(Backslashes, st, e[1..]);
    if |e| == 2 {
      assert e[1..] == [e[1]];
      RunOne(Backslashes, st, e[1]);
    } else {
      assert e[1..] == [];
    }
  }

  /** With backslashes, the escaped form of any byte string stays inside quotes of either kind. */
  lemma {:induction false} EscapeStaysEither(q: byte, v: seq<byte>)
    requires q == QUOTE || q == DOUBLE_QUOTE
    ensures Run(Backslashes, Inside(q), EscapeAll(Backslashes, v)) == Inside(q)
    decreases |v|
  {
    if v != [] {
      EscapedStaysEither(q, v[0]);
      RunAppend(Backslashes, Inside(q), Escaped(Backslashes, v[0]), EscapeAll(Backslashes, v[1..]));
      EscapeStaysEither(q, v[1..]);
    }
  }

  function QuotedText(mode: Mode, v: seq<byte>): seq<byte> {
    [QUOTE] + EscapeAll(mode, v) + [QUOTE]
  }

  /** Where a quote begins a token, a literal stays in its quotes to its end. */
  lemma QuotedRun(mode: Mode, st: State, v: seq<byte>)
    requires InCode(st) && !Joins(st, QUOTE)
    ensures Run(mode, st, QuotedText(mode, v)) == Closing(QUOTE)
  {
    var body := EscapeAll(mode, v);
    RunAppend(mode, st, [QUOTE] + body, [QUOTE]);
    RunAppend(mode, st, [QUOTE], body);
    RunOne(mode, st, QUOTE);
    EscapeStays(mode, v);
    RunOne(mode, Inside(QUOTE), QUOTE);
  }

  // ---------------------------------------------------------------------------------------
  // Numbers

  /** Every character goes on with the token. */
  predicate Continues(mode: Mode, st: State, t: seq<byte>)
    decreases |t|
  {
    t == [] || (Joins(st, t[0]) && Continues(mode, Step(mode, st, t[0]), t[1..]))
  }

  function Unsigned(t: seq<byte>): seq<byte> {
    if t != [] && t[0] == DASH then t[1..] else t
  }

  /** An optional minus sign, and one token that is a number. */
  predicate Numeric(mode: Mode, t: seq<byte>) {
    var d := Unsigned(t);
    && d != [] && IsDigit(d[0]) && Continues(mode, Whole, d[1..])
    && var end := NumberEnd(mode, t);
       end.Whole? || end.Fraction? || end.Exponent?
  }

  function NumberEnd(mode: Mode, t: seq<byte>): State {
    Run(mode, Code, Unsigned(t))
  }

  lemma {:induction false} DigitsContinue(mode: Mode, t: seq<byte>)
    requires forall i :: 0 <= i < |t| ==> IsDigit(t[i])
    ensures Continues(mode, Whole, t) && Run(mode, Whole, t) == Whole
    decreases |t|
  {
    if t != [] {
      DigitsContinue(mode, t[1..]);
    }
  }

  lemma DigitsNumeric(mode: Mode, d: seq<byte>)
    requires d != [] && forall i :: 0 <= i < |d| ==> IsDigit(d[i])
    ensures Numeric(mode, d) && NumberEnd(mode, d) == Whole
    ensures Numeric(mode, [DASH] + d) && NumberEnd(mode, [DASH] + d) == Whole
  {
    DigitsContinue(mode, d[1..]);
    assert ([DASH] + d)[1..] == d;
  }

  lemma IntegerNumeric(mode: Mode, i: int)
    ensures var t := Text.Bytes(Text.DecimalInt(i));
            Numeric(mode, t) && NumberEnd(mode, t) == Whole && (t[0] == DASH <==> i < 0)
  {
    var digits := Text.Decimal(if i < 0 then -i else i);
    var d := Text.Bytes(digits);
    DigitsNumeric(mode, d);
    if i < 0 {
      assert Text.Bytes(Text.DecimalInt(i)) == [DASH] + d;
    }
  }

  /** Where its first character begins a token, a number is read to its own end. */
  lemma NumberRun(mode: Mode, st: State, t: seq<byte>)
    requires InCode(st) && Numeric(mode, t) && !Joins(st, t[0])
    ensures Run(mode, st, t) == NumberEnd(mode, t)
  {
    var d := Unsigned(t);
    var next := Step(mode, st, t[0]);
    if t[0] == DASH {
      assert next.Dash? || next.Dashes?;
    }
  }

  lemma NullRun(mode: Mode, st: State)
    requires InCode(st) && !Joins(st, CAPITAL_N)
    ensures Run(mode, st, Text.Bytes("NULL")) == Word(false) && Text.Bytes("NULL")[0] == CAPITAL_N
  {
    var t := Text.Bytes("NULL");
    assert t == [78, 85, 76, 76] && t[1..] == [85, 76, 76] && t[1..][1..] == [76, 76];
    assert [76, 76][1..] == [76];
    RunOne(mode, Word(false), 76);
  }

  // ---------------------------------------------------------------------------------------
  // Arguments

  predicate Harmless(c: byte) {
    c != QUOTE && Escaped(Backslashes, c) == [c]
  }

  /** What is assumed of printed times: a quoted text with nothing to escape. */
  predicate Printed(v: I.Value) {
    match v
    case Time(t) =>
      |t| >= 2 && t[0] == QUOTE && t[|t| - 1] == QUOTE && forall i :: 1 <= i < |t| - 1 ==> Harmless(t[i])
    case Unsupported => false
    case _ => true
  }

  ghost predicate AllPrinted(args: seq<I.Value>) {
    forall i :: 0 <= i < |args| ==> Printed(args[i])
  }

  /** The string a quoted literal stands for. */
  function Quoted(v: I.Value): Option<seq<byte>>
    requires Printed(v)
  {
    match v
    case Bytes(s) => Some(s)
    case String(s) => Some(s)
    case Time(t) => Some(t[1..|t| - 1])
    case _ => None
  }

  lemma {:induction false} HarmlessText(mode: Mode, s: seq<byte>)
    requires forall i :: 0 <= i < |s| ==> Harmless(s[i])
    ensures EscapeAll(mode, s) == s
    decreases |s|
  {
    if s != [] {
      HarmlessText(mode, s[1..]);
      assert With(mode)(s[0]) == [s[0]];
      assert s == [s[0]] + s[1..];
    }
  }

  lemma QuotedLiteral(mode: Mode, v: I.Value)
    requires Printed(v) && Quoted(v).Some?
    ensures I.Literal(mode, v) == QuotedText(mode, Quoted(v).value)
  {
    if v.Time? {
      var body := v.text[1..|v.text| - 1];
      HarmlessText(mode, body);
      assert v.text == [QUOTE] + body + [QUOTE];
    }
  }

  // ---------------------------------------------------------------------------------------
  // What is wanted of the text

  /** The literal is cut off on both sides: it begins a token, and what follows does not go on with its last one. */
  ghost predicate CutOff(mode: Mode, st: State, lit: seq<byte>, rest: seq<byte>) {
    && lit != [] && InCode(st) && !Joins(st, lit[0])
    && (rest == [] || !Joins(Run(mode, st, lit), rest[0]))
  }

  /** The number of an optional minus sign and digits. */
  function ReadInteger(t: seq<byte>): int {
    var d := Unsigned(t);
    if d == t then ReadDigits(d) else -ReadDigits(d)
  }

  function ReadDigits(d: seq<byte>): int {
    if d == [] then 0 else 10 * ReadDigits(d[..|d| - 1]) + (d[|d| - 1] - ZERO)
  }

  /**
   * The literal stands for the value: a string reads back as itself up to its end, an integer and a boolean as
   * its number, a float is its own text, which is a number, and nil is NULL.
   */
  ghost predicate StandsFor(mode: Mode, v: I.Value, rest: seq<byte>)
    requires Printed(v)
  {
    var lit := I.Literal(mode, v);
    if Quoted(v).Some? then
      lit != [] && lit[0] == QUOTE && ReadLiteral(mode, (lit + rest)[1..]) == Literal(Quoted(v).value, rest)
    else if v.Null? || v.NilBytes? then lit == Text.Bytes("NULL")
    else
      && Numeric(mode, lit)
      && (v.Int64? ==> ReadInteger(lit) == v.v)
      && (v.Bool? ==> ReadInteger(lit) == if v.b then 1 else 0)
      && (v.Float64? ==> lit == v.text)
  }

  /** In the text from here on, with the lexer in state `st`, every argument is a token of its own, with its value. */
  ghost predicate AllData(mode: Mode, st: State, query: seq<byte>, args: seq<I.Value>)
    requires I.Placeholders(query) == |args| && AllPrinted(args)
    decreases |query|
  {
    if query == [] then true
    else if query[0] != I.QM then AllData(mode, Step(mode, st, query[0]), query[1..], args)
    else
      var lit, rest := I.Literal(mode, args[0]), I.Substitute(I.Printing(mode), query[1..], args[1..]);
      && CutOff(mode, st, lit, rest) && StandsFor(mode, args[0], rest)
      && AllData(mode, Run(mode, st, lit), query[1..], args[1..])
  }

  // ---------------------------------------------------------------------------------------
  // The condition on the query

  /** The kind of character a literal begins with. */
  function FirstOf(v: I.Value): byte
    requires Printed(v)
  {
    if Quoted(v).Some? then QUOTE
    else
      match v
      case Null | NilBytes => CAPITAL_N
      case Int64(i) => if i < 0 then DASH else ZERO
      case Float64(t) => if t != [] && t[0] == DASH then DASH else ZERO
      case _ => ZERO
  }

  /** How a literal ends. */
  function EndOf(mode: Mode, v: I.Value): State
    requires Printed(v)
  {
    if Quoted(v).Some? then Closing(QUOTE)
    else
      match v
      case Null | NilBytes => Word(false)
      case Float64(t) => NumberEnd(mode, t)
      case _ => Whole
  }

  /** Only a float may print as something that is no number. */
  predicate HasLiteral(mode: Mode, v: I.Value) {
    v.Float64? ==> Numeric(mode, v.text)
  }

  /** What follows goes on with a token: the query's next character, or the next argument. */
  predicate NextJoins(end: State, query: seq<byte>, args: seq<I.Value>)
    requires args != [] ==> Printed(args[0])
  {
    query != [] && (if query[0] != I.QM then Joins(end, query[0]) else args != [] && Joins(end, FirstOf(args[0])))
  }

  /** Every placeholder stands in code, where its argument can begin a token, and nothing goes on with it. */
  ghost predicate Placed(mode: Mode, st: State, query: seq<byte>, args: seq<I.Value>)
    requires I.Placeholders(query) == |args| && AllPrinted(args)
    decreases |query|
  {
    if query == [] then true
    else if query[0] != I.QM then Placed(mode, Step(mode, st, query[0]), query[1..], args)
    else
      var v := args[0];
      && InCode(st) && !Joins(st, FirstOf(v)) && HasLiteral(mode, v)
      && !NextJoins(EndOf(mode, v), query[1..], args[1..])
      && Placed(mode, EndOf(mode, v), query[1..], args[1..])
  }

  /** A literal begins with the kind of character it should. */
  lemma BeginsWith(mode: Mode, v: I.Value, st: State)
    requires Printed(v) && HasLiteral(mode, v) && InCode(st)
    ensures var lit := I.Literal(mode, v);
            && lit != [] && (Joins(st, lit[0]) <==> Joins(st, FirstOf(v)))
            && (Quoted(v).None? && !v.Null? && !v.NilBytes? ==> Numeric(mode, lit) && EndOf(mode, v) == NumberEnd(mode, lit))
  {
    match v
    case Int64(i) => IntegerNumeric(mode, i);
    case Bool(b) => IntegerNumeric(mode, if b then 1 else 0);
    case Float64(_) =>
    case Null => assert Text.Bytes("NULL")[0] == CAPITAL_N;
    case NilBytes => assert Text.Bytes("NULL")[0] == CAPITAL_N;
    case _ => QuotedLiteral(mode, v);
  }

  /** Where it begins a token, a literal is read to its own end. */
  lemma ReadToEnd(mode: Mode, v: I.Value, st: State)
    requires Printed(v) && HasLiteral(mode, v) && InCode(st) && !Joins(st, FirstOf(v))
    ensures Run(mode, st, I.Literal(mode, v)) == EndOf(mode, v)
  {
    BeginsWith(mode, v, st);
    if Quoted(v).Some? {
      QuotedLiteral(mode, v);
      QuotedRun(mode, st, Quoted(v).value);
    } else if v.Null? || v.NilBytes? {
      NullRun(mode, st);
    } else {
      NumberRun(mode, st, I.Literal(mode, v));
    }
  }

  /** A string stands for its value exactly when no quote follows. */
  lemma QuotedStandsIff(mode: Mode, v: I.Value, rest: seq<byte>)
    requires Printed(v) && Quoted(v).Some?
    ensures StandsFor(mode, v, rest) <==> (rest == [] || !Joins(Closing(QUOTE), rest[0]))
  {
    var s := Quoted(v).value;
    QuotedLiteral(mode, v);
    assert (QuotedText(mode, s) + rest)[1..] == EscapeAll(mode, s) + [QUOTE] + rest;
    LiteralReadsBackIff(mode, s, rest);
  }

  lemma {:induction false} DigitsRead(s: string)
    requires Text.AllDigits(s)
    ensures ReadDigits(Text.Bytes(s)) == Text.DigitsValue(s)
    decreases |s|
  {
    if s != [] {
      var n := |s| - 1;
      DigitsRead(s[..n]);
      assert Text.Bytes(s)[..n] == Text.Bytes(s[..n]);
    }
  }

  lemma DecimalReads(n: nat)
    ensures ReadDigits(Text.Bytes(Text.Decimal(n))) == n
  {
    DigitsRead(Text.Decimal(n));
    Text.DecimalValue(n);
  }

  lemma SignReads(d: seq<byte>)
    requires d != [] && d[0] != DASH
    ensures ReadInteger(d) == ReadDigits(d) && ReadInteger([DASH] + d) == -ReadDigits(d)
  {
    var t := [DASH] + d;
    assert t[1..] == d && |d| < |t|;
  }

  /** A printed integer reads back as its number. */
  lemma IntegerReads(i: int)
    ensures ReadInteger(Text.Bytes(Text.DecimalInt(i))) == i
  {
    var n: nat := if i < 0 then -i else i;
    var digits := Text.Decimal(n);
    var d := Text.Bytes(digits);
    DecimalReads(n);
    assert Text.IsDigit(digits[0]);
    SignReads(d);
    if i < 0 {
      assert Text.Bytes(Text.DecimalInt(i)) == [DASH] + d;
    }
  }

  lemma StandsForValue(mode: Mode, v: I.Value, rest: seq<byte>)
    requires Printed(v)
    ensures StandsFor(mode, v, rest) <==>
            HasLiteral(mode, v) && (Quoted(v).Some? ==> rest == [] || !Joins(Closing(QUOTE), rest[0]))
  {
    if Quoted(v).Some? {
      QuotedStandsIff(mode, v, rest);
    } else if HasLiteral(mode, v) {
      BeginsWith(mode, v, Code);
      ReadsAsNumber(mode, v);
    }
  }

  lemma ReadsAsNumber(mode: Mode, v: I.Value)
    ensures v.Int64? ==> ReadInteger(I.Literal(mode, v)) == v.v
    ensures v.Bool? ==> ReadInteger(I.Literal(mode, v)) == if v.b then 1 else 0
  {
    if v.Int64? {
      IntegerReads(v.v);
    } else if v.Bool? {
      IntegerReads(if v.b then 1 else 0);
    }
  }

  /** If the next argument has a literal, the text goes on with a token exactly when the query says so. */
  lemma RestJoinsIff(mode: Mode, end: State, query: seq<byte>, args: seq<I.Value>)
    requires I.Placeholders(query) == |args| && AllPrinted(args)
    requires InCode(end) && (query != [] && query[0] == I.QM ==> HasLiteral(mode, args[0]))
    ensures var rest := I.Substitute(I.Printing(mode), query, args);
            (rest != [] && Joins(end, rest[0])) <==> NextJoins(end, query, args)
  {
    if query != [] && query[0] == I.QM {
      BeginsWith(mode, args[0], end);
    }
  }

  lemma NextHasLiteral(mode: Mode, st: State, query: seq<byte>, args: seq<I.Value>)
    requires I.Placeholders(query) == |args| && AllPrinted(args)
    requires AllData(mode, st, query, args) || Placed(mode, st, query, args)
    ensures query != [] && query[0] == I.QM ==> HasLiteral(mode, args[0])
  {
    if query != [] && query[0] == I.QM {
      StandsForValue(mode, args[0], I.Substitute(I.Printing(mode), query[1..], args[1..]));
    }
  }

  /** The argument of a placeholder in code, where its literal begins a token. */
  lemma WellBegunIff(mode: Mode, st: State, v: I.Value, rest: seq<byte>)
    requires Printed(v) && HasLiteral(mode, v) && InCode(st) && !Joins(st, FirstOf(v))
    ensures CutOff(mode, st, I.Literal(mode, v), rest) && StandsFor(mode, v, rest) <==>
            rest == [] || !Joins(EndOf(mode, v), rest[0])
  {
    StandsForValue(mode, v, rest);
    BeginsWith(mode, v, st);
    ReadToEnd(mode, v, st);
  }

  lemma BadlyBegun(mode: Mode, st: State, v: I.Value, rest: seq<byte>)
    requires Printed(v) && !(HasLiteral(mode, v) && InCode(st) && !Joins(st, FirstOf(v)))
    ensures !(CutOff(mode, st, I.Literal(mode, v), rest) && StandsFor(mode, v, rest))
  {
    StandsForValue(mode, v, rest);
    if HasLiteral(mode, v) && InCode(st) {
      BeginsWith(mode, v, st);
    }
  }

  /** A placeholder whose argument begins badly spoils both. */
  lemma BadPlaceholder(mode: Mode, st: State, query: seq<byte>, args: seq<I.Value>)
    requires query != [] && query[0] == I.QM && I.Placeholders(query) == |args| && AllPrinted(args)
    requires !(HasLiteral(mode, args[0]) && InCode(st) && !Joins(st, FirstOf(args[0])))
    ensures !AllData(mode, st, query, args) && !Placed(mode, st, query, args)
  {
    BadlyBegun(mode, st, args[0], I.Substitute(I.Printing(mode), query[1..], args[1..]));
  }

  /** A placeholder whose argument begins well passes the question on. */
  lemma GoodPlaceholder(mode: Mode, st: State, query: seq<byte>, args: seq<I.Value>)
    requires query != [] && query[0] == I.QM && I.Placeholders(query) == |args| && AllPrinted(args)
    requires HasLiteral(mode, args[0]) && InCode(st) && !Joins(st, FirstOf(args[0]))
    ensures var end, rest := EndOf(mode, args[0]), I.Substitute(I.Printing(mode), query[1..], args[1..]);
            && (AllData(mode, st, query, args) <==>
                  (rest == [] || !Joins(end, rest[0])) && AllData(mode, end, query[1..], args[1..]))
            && (Placed(mode, st, query, args) <==>
                  !NextJoins(end, query[1..], args[1..]) && Placed(mode, end, query[1..], args[1..]))
  {
    WellBegunIff(mode, st, args[0], I.Substitute(I.Printing(mode), query[1..], args[1..]));
    ReadToEnd(mode, args[0], st);
  }

  lemma EndsInCode(mode: Mode, v: I.Value)
    requires Printed(v) && HasLiteral(mode, v)
    ensures InCode(EndOf(mode, v))
  {
  }

  /**
   * Every argument of the interpolated text is a token of its own, with its value, if and only if the query
   * places its placeholders so.
   */
  lemma {:induction false} AllDataIff(mode: Mode, st: State, query: seq<byte>, args: seq<I.Value>)
    requires I.Placeholders(query) == |args| && AllPrinted(args)
    ensures AllData(mode, st, query, args) <==> Placed(mode, st, query, args)
    decreases |query|
  {
    if query == [] {
    } else if query[0] != I.QM {
      AllDataIff(mode, Step(mode, st, query[0]), query[1..], args);
    } else if !(HasLiteral(mode, args[0]) && InCode(st) && !Joins(st, FirstOf(args[0]))) {
      BadPlaceholder(mode, st, query, args);
    } else {
      var end := EndOf(mode, args[0]);
      GoodPlaceholder(mode, st, query, args);
      AllDataIff(mode, end, query[1..], args[1..]);
      if Placed(mode, end, query[1..], args[1..]) {
        EndsInCode(mode, args[0]);
        NextHasLiteral(mode, end, query[1..], args[1..]);
        RestJoinsIff(mode, end, query[1..], args[1..]);
      }
    }
  }

  // ---------------------------------------------------------------------------------------
  // One character and a placeholder

  lemma OnePlaceholder(mode: Mode, st: State, c: byte, v: I.Value)
    requires c != I.QM && Printed(v)
    ensures var query, args := [c, I.QM], [v];
            && I.Placeholders(query) == 1 && AllPrinted(args)
            && I.Substitute(I.Printing(mode), query, args) == [c] + I.Literal(mode, v)
            && (AllData(mode, st, query, args) <==>
                var next := Step(mode, st, c);
                HasLiteral(mode, v) && InCode(next) && !Joins(next, FirstOf(v)))
  {
    var query, args, one := [c, I.QM], [v], [I.QM];
    assert query[1..] == one && one[1..] == [] && args[1..] == [];
    assert I.Placeholders(one) == 1 + I.Placeholders(one[1..]);
    assert I.Placeholders(query) == I.Placeholders(one);
    assert I.Substitute(I.Printing(mode), one, args) == I.Literal(mode, v) + [];
    var next := Step(mode, st, c);
    assert AllData(mode, st, query, args) <==> AllData(mode, next, one, args);
    if HasLiteral(mode, v) && InCode(next) && !Joins(next, FirstOf(v)) {
      GoodPlaceholder(mode, next, one, args);
    } else {
      BadPlaceholder(mode, next, one, args);
    }
  }

  /** x?, with the string 41: the text is a hexadecimal literal, not the string. */
  lemma IntroducerRunsIn(mode: Mode)
    ensures var query, args := [120, I.QM], [I.String([52, 49])];
            && I.Placeholders(query) == |args| && AllPrinted(args)
            && I.Substitute(I.Printing(mode), query, args) == [120, QUOTE, 52, 49, QUOTE]
            && !AllData(mode, Code, query, args)
  {
    OnePlaceholder(mode, Code, 120, I.String([52, 49]));
    HarmlessText(mode, [52, 49]);
  }

  /** 1?, with the number 5: the text is the number 15. */
  lemma DigitRunsIn(mode: Mode)
    ensures var query, args := [49, I.QM], [I.Int64(5)];
            && I.Placeholders(query) == |args| && AllPrinted(args)
            && I.Substitute(I.Printing(mode), query, args) == [49, 53]
            && !AllData(mode, Code, query, args)
  {
    OnePlaceholder(mode, Code, 49, I.Int64(5));
    assert Text.DecimalInt(5) == "5";
  }

  /** A blank separates: in code other than after two dashes, a placeholder after one is always data. */
  lemma BlankSeparates(mode: Mode, st: State, v: I.Value)
    requires InCode(st) && !st.Dashes? && Printed(v) && HasLiteral(mode, v)
    ensures var query, args := [SPACE, I.QM], [v];
            I.Placeholders(query) == |args| && AllPrinted(args) && AllData(mode, st, query, args)
  {
    OnePlaceholder(mode, st, SPACE, v);
  }
}
