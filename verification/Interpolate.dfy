/** Client-side placeholder substitution, written into the connection's own read buffer. */
module Interpolate {
  import opened Common
  import opened Escape
  import opened Text
  import opened ReadBuffer

  const QM: byte := 63

  /**
   * A driver value. Floats and times carry their formatted text, which the model does not look into; a
   * byte slice is given by its contents.
   */
  datatype Value =
    | Null
    | Int64(v: int)
    | Float64(text: seq<byte>)
    | Bool(b: bool)
    | Time(text: seq<byte>)
    | NilBytes
    | Bytes(s: seq<byte>)
    | String(s: seq<byte>)
    | Unsupported

  /** The SQL literal of a value. */
  function Literal(mode: Mode, v: Value): seq<byte> {
    match v
    case Null | NilBytes => Text.Bytes("NULL")
    case Int64(i) => Text.Bytes(DecimalInt(i))
    case Float64(t) => t
    case Bool(b) => Text.Bytes(if b then "1" else "0")
    case Time(t) => t
    case Bytes(s) => [QUOTE] + EscapeAll(mode, s) + [QUOTE]
    case String(s) => [QUOTE] + EscapeAll(mode, s) + [QUOTE]
    case Unsupported => []
  }

  /** Literals are used through a function value, so that proofs need not look into them. */
  type Printer = Value -> seq<byte>

  function Printing(mode: Mode): Printer {
    (v: Value) => Literal(mode, v)
  }

  function Placeholders(query: seq<byte>): nat {
    if query == [] then 0 else (if query[0] == QM then 1 else 0) + Placeholders(query[1..])
  }

  /** The query with its k-th placeholder replaced by the k-th literal, and nothing else changed. */
  function Substitute(lit: Printer, query: seq<byte>, args: seq<Value>): seq<byte>
    requires Placeholders(query) <= |args|
  {
    if query == [] then []
    else if query[0] == QM then lit(args[0]) + Substitute(lit, query[1..], args[1..])
    else [query[0]] + Substitute(lit, query[1..], args)
  }

  predicate Supported(args: seq<Value>) {
    forall i :: 0 <= i < |args| ==> !args[i].Unsupported?
  }

  /** After each value other than nil, as long as there are arguments, the text so far must leave room for a packet header. */
  predicate Fits(lit: Printer, max: int, query: seq<byte>, args: seq<Value>, len: nat) {
    if query == [] then true
    else if query[0] != QM then Fits(lit, max, query[1..], args, len + 1)
    else if args == [] then true
    else
      var len' := len + |lit(args[0])|;
      (args[0].Null? || len' + 4 <= max) && Fits(lit, max, query[1..], args[1..], len')
  }

  datatype Outcome = Text(text: seq<byte>) | Skip | BadConn | IndexPanic

  /** What the loop does from some point of the query on, with `acc` already written. */
  function Loop(lit: Printer, max: int, query: seq<byte>, args: seq<Value>, acc: seq<byte>): Outcome
    decreases |query|
  {
    if query == [] then if args == [] then Text(acc) else Skip
    else if query[0] != QM then Loop(lit, max, query[1..], args, acc + [query[0]])
    else if args == [] then IndexPanic
    else if args[0].Unsupported? then Skip
    else
      var acc' := acc + lit(args[0]);
      if !args[0].Null? && |acc'| + 4 > max then Skip else Loop(lit, max, query[1..], args[1..], acc')
  }

  /**
   * If some value is unsupported or the text does not fit, the loop gives up. Otherwise it yields text exactly
   * when the counts agree, and panics exactly when there are too few arguments.
   */
  lemma {:induction false} LoopTextIff(lit: Printer, max: int, query: seq<byte>, args: seq<Value>, acc: seq<byte>)
    ensures Loop(lit, max, query, args, acc).Text? <==>
            Placeholders(query) == |args| && Supported(args) && Fits(lit, max, query, args, |acc|)
    ensures Loop(lit, max, query, args, acc).Text? ==>
            Loop(lit, max, query, args, acc).text == acc + Substitute(lit, query, args)
    ensures Loop(lit, max, query, args, acc).IndexPanic? <==>
            Placeholders(query) > |args| && Supported(args) && Fits(lit, max, query, args, |acc|)
    ensures !Loop(lit, max, query, args, acc).BadConn?
    decreases |query|
  {
    if query == [] {
      assert acc + [] == acc;
    } else if query[0] != QM {
      LoopTextIff(lit, max, query[1..], args, acc + [query[0]]);
      if Placeholders(query) <= |args| {
        Associates(acc, [query[0]], Substitute(lit, query[1..], args));
      }
    } else if args != [] {
      assert Supported(args) <==> !args[0].Unsupported? && Supported(args[1..]) by {
        assert args == [args[0]] + args[1..];
      }
      LoopTextIff(lit, max, query[1..], args[1..], acc + lit(args[0]));
      if Placeholders(query) <= |args| {
        Associates(acc, lit(args[0]), Substitute(lit, query[1..], args[1..]));
      }
    }
  }

  /** At a placeholder with an argument other than nil, the text up to and with its literal leaves four bytes. */
  ghost predicate FitsAt(lit: Printer, max: int, query: seq<byte>, args: seq<Value>, len: nat, i: nat)
    requires i < |query|
  {
    query[i] == QM && Placeholders(query[..i]) < |args| && Placeholders(query[..i + 1]) <= |args| ==>
      args[Placeholders(query[..i])].Null? || len + |Substitute(lit, query[..i + 1], args)| + 4 <= max
  }

  lemma FitsAtStep(lit: Printer, max: int, query: seq<byte>, args: seq<Value>, len: nat, i: nat)
    requires 0 < i < |query|
    ensures query[0] != QM ==>
              (FitsAt(lit, max, query, args, len, i) <==> FitsAt(lit, max, query[1..], args, len + 1, i - 1))
    ensures query[0] == QM && args != [] ==>
              (FitsAt(lit, max, query, args, len, i) <==>
               FitsAt(lit, max, query[1..], args[1..], len + |lit(args[0])|, i - 1))
  {
    assert query[..i][1..] == query[1..][..i - 1] && query[..i + 1][1..] == query[1..][..i];
  }

  /** The room is checked on the text itself, at every placeholder. */
  lemma {:induction false} FitsIff(lit: Printer, max: int, query: seq<byte>, args: seq<Value>, len: nat)
    ensures Fits(lit, max, query, args, len) <==>
            forall i :: 0 <= i < |query| ==> FitsAt(lit, max, query, args, len, i)
    decreases |query|
  {
    if query != [] {
      forall i | 0 < i < |query|
        ensures query[0] != QM ==>
                  (FitsAt(lit, max, query, args, len, i) <==> FitsAt(lit, max, query[1..], args, len + 1, i - 1))
        ensures query[0] == QM && args != [] ==>
                  (FitsAt(lit, max, query, args, len, i) <==>
                   FitsAt(lit, max, query[1..], args[1..], len + |lit(args[0])|, i - 1))
      {
        FitsAtStep(lit, max, query, args, len, i);
      }
      assert query[..0] == [] && query[..1] == [query[0]] && [query[0]][1..] == [];
      if query[0] != QM {
        FitsIff(lit, max, query[1..], args, len + 1);
        FitsShift(lit, max, query, args, len, args, len + 1);
      } else if args != [] {
        FitsIff(lit, max, query[1..], args[1..], len + |lit(args[0])|);
        FitsShift(lit, max, query, args, len, args[1..], len + |lit(args[0])|);
        assert Substitute(lit, query[..1], args) == lit(args[0]) + [];
      } else {
        NothingFits(lit, max, query, len);
      }
    }
  }

  /** The later positions of a query are the positions of its rest. */
  lemma FitsShift(lit: Printer, max: int, query: seq<byte>, args: seq<Value>, len: nat, rest: seq<Value>, more: nat)
    requires query != []
    requires forall i :: 0 < i < |query| ==>
               (FitsAt(lit, max, query, args, len, i) <==> FitsAt(lit, max, query[1..], rest, more, i - 1))
    ensures (forall i :: 0 <= i < |query| ==> FitsAt(lit, max, query, args, len, i)) <==>
            FitsAt(lit, max, query, args, len, 0)
            && forall j :: 0 <= j < |query[1..]| ==> FitsAt(lit, max, query[1..], rest, more, j)
  {
    if forall i :: 0 <= i < |query| ==> FitsAt(lit, max, query, args, len, i) {
      forall j | 0 <= j < |query[1..]| ensures FitsAt(lit, max, query[1..], rest, more, j) {
        assert FitsAt(lit, max, query, args, len, j + 1);
      }
    }
    if FitsAt(lit, max, query, args, len, 0) && forall j :: 0 <= j < |query[1..]| ==> FitsAt(lit, max, query[1..], rest, more, j) {
      forall i | 0 <= i < |query| ensures FitsAt(lit, max, query, args, len, i) {
        if i > 0 {
          assert FitsAt(lit, max, query[1..], rest, more, i - 1);
        }
      }
    }
  }

  lemma NothingFits(lit: Printer, max: int, query: seq<byte>, len: nat)
    ensures forall i :: 0 <= i < |query| ==> FitsAt(lit, max, query, [], len, i)
  {
  }

  /** Text without a placeholder is copied. */
  lemma {:induction false} LoopCopies(lit: Printer, max: int, plain: seq<byte>, rest: seq<byte>, args: seq<Value>, acc: seq<byte>)
    requires QM !in plain
    ensures Loop(lit, max, plain + rest, args, acc) == Loop(lit, max, rest, args, acc + plain)
    decreases |plain|
  {
    if plain == [] {
      assert plain + rest == rest && acc + plain == acc;
    } else {
      assert plain[0] in plain;
      assert forall c :: c in plain[1..] ==> c in plain;
      assert (plain + rest)[1..] == plain[1..] + rest;
      LoopCopies(lit, max, plain[1..], rest, args, acc + [plain[0]]);
      assert acc + [plain[0]] + plain[1..] == acc + plain;
    }
  }

  // ---------------------------------------------------------------------------------------
  // A substituted string is data, whatever it holds

  lemma {:induction false} SubstituteSplit(lit: Printer, a: seq<byte>, b: seq<byte>, args: seq<Value>)
    requires Placeholders(a) + Placeholders(b) <= |args|
    ensures Placeholders(a + b) == Placeholders(a) + Placeholders(b)
    ensures Substitute(lit, a + b, args) ==
            Substitute(lit, a, args[..Placeholders(a)]) + Substitute(lit, b, args[Placeholders(a)..])
    decreases |a|
  {
    if a == [] {
      assert a + b == b && args[0..] == args;
    } else {
      assert (a + b)[1..] == a[1..] + b;
      var n := Placeholders(a);
      if a[0] == QM {
        SubstituteSplit(lit, a[1..], b, args[1..]);
        assert args[1..][..n - 1] == args[..n][1..] && args[1..][n - 1..] == args[n..];
        Associates(lit(args[0]), Substitute(lit, a[1..], args[..n][1..]), Substitute(lit, b, args[n..]));
      } else {
        SubstituteSplit(lit, a[1..], b, args);
        Associates([a[0]], Substitute(lit, a[1..], args[..n]), Substitute(lit, b, args[n..]));
      }
    }
  }

  lemma SubstituteAt(lit: Printer, a: seq<byte>, b: seq<byte>, args: seq<Value>)
    requires Placeholders(a) + 1 + Placeholders(b) == |args|
    ensures var n := Placeholders(a);
            && Placeholders(a + [QM] + b) == |args|
            && Substitute(lit, a + [QM] + b, args) ==
               Substitute(lit, a, args[..n]) + (lit(args[n]) + Substitute(lit, b, args[n + 1..]))
  {
    var n := Placeholders(a);
    var q := [QM] + b;
    assert q[0] == QM && q[1..] == b && a + [QM] + b == a + q;
    SubstituteSplit(lit, a, q, args);
    assert args[n..][0] == args[n] && args[n..][1..] == args[n + 1..];
  }

  lemma LiteralInText(mode: Mode, head: seq<byte>, v: seq<byte>, after: seq<byte>)
    ensures var text := head + (([QUOTE] + EscapeAll(mode, v) + [QUOTE]) + after);
            && head + [QUOTE] <= text
            && (ReadLiteral(mode, text[|head| + 1..]) == Escape.Literal(v, after)
                <==> !(after != [] && after[0] == QUOTE))
  {
    var escaped := EscapeAll(mode, v);
    var text := head + (([QUOTE] + escaped + [QUOTE]) + after);
    assert text == (head + [QUOTE]) + (escaped + [QUOTE] + after);
    assert text[|head| + 1..] == escaped + [QUOTE] + after;
    LiteralReadsBackIff(mode, v, after);
  }

  /**
   * Wherever a placeholder stands, the string put in its place reads back as that string, in the server's
   * mode, and ends where the rest of the query goes on, unless that rest begins with a quote.
   */
  lemma PlaceholderIsData(mode: Mode, a: seq<byte>, b: seq<byte>, args: seq<Value>, v: seq<byte>)
    requires Placeholders(a) + 1 + Placeholders(b) == |args| && args[Placeholders(a)] == String(v)
    ensures var n := Placeholders(a);
            var head := Substitute(Printing(mode), a, args[..n]);
            var after := Substitute(Printing(mode), b, args[n + 1..]);
            && Placeholders(a + [QM] + b) == |args|
            && var text := Substitute(Printing(mode), a + [QM] + b, args);
               && head + [QUOTE] <= text
               && (ReadLiteral(mode, text[|head| + 1..]) == Escape.Literal(v, after)
                   <==> !(after != [] && after[0] == QUOTE))
  {
    var n := Placeholders(a);
    SubstituteAt(Printing(mode), a, b, args);
    LiteralInText(mode, Substitute(Printing(mode), a, args[..n]), v, Substitute(Printing(mode), b, args[n + 1..]));
  }

  // ---------------------------------------------------------------------------------------
  // The driver's loop

  /** Go's append: in place while the capacity lasts. */
  method Append(buf: array<byte>, len: nat, s: seq<byte>) returns (r: array<byte>, n: nat)
    requires len <= buf.Length
    modifies buf
    ensures n == len + |s| <= r.Length && (r == buf || fresh(r))
    ensures r[..n] == old(buf[..len]) + s
  {
    r := ReserveBuffer(buf, len, |s|);
    forall i | 0 <= i < |s| {
      r[len + i] := s[i];
    }
    n := len + |s|;
  }

  /** strings.IndexByte for the placeholder. */
  method NextPlaceholder(query: seq<byte>, from: nat) returns (q: int)
    requires from <= |query|
    ensures q == -1 ==> QM !in query[from..]
    ensures q != -1 ==> 0 <= q && from + q < |query| && query[from + q] == QM && QM !in query[from..from + q]
  {
    q := 0;
    while from + q < |query|
      invariant 0 <= q && from + q <= |query|
      invariant QM !in query[from..from + q]
    {
      if query[from + q] == QM {
        return;
      }
      q := q + 1;
    }
    q := -1;
  }

  /** One literal at the end of the text. */
  method AppendLiteral(mode: Mode, buf: array<byte>, len: nat, v: Value) returns (r: array<byte>, n: nat)
    requires len <= buf.Length && !v.Unsupported?
    modifies buf
    ensures n <= r.Length && (r == buf || fresh(r))
    ensures r[..n] == old(buf[..len]) + Literal(mode, v)
  {
    match v
    case Null | NilBytes => r, n := Append(buf, len, Text.Bytes("NULL"));
    case Int64(i) => r, n := Append(buf, len, Text.Bytes(DecimalInt(i)));
    case Float64(t) => r, n := Append(buf, len, t);
    case Bool(b) => r, n := Append(buf, len, Text.Bytes(if b then "1" else "0"));
    case Time(t) => r, n := Append(buf, len, t);
    case Bytes(s) => r, n := AppendQuoted(mode, buf, len, s);
    case String(s) => r, n := AppendQuoted(mode, buf, len, s);
  }

  method AppendQuoted(mode: Mode, buf: array<byte>, len: nat, s: seq<byte>) returns (r: array<byte>, n: nat)
    requires len <= buf.Length
    modifies buf
    ensures n <= r.Length && (r == buf || fresh(r))
    ensures r[..n] == old(buf[..len]) + ([QUOTE] + EscapeAll(mode, s) + [QUOTE])
  {
    ghost var start := buf[..len];
    r, n := Append(buf, len, [QUOTE]);
    r, n := EscapeString(mode, r, n, s);
    r, n := Append(r, n, [QUOTE]);
    assert start + [QUOTE] + EscapeAll(mode, s) + [QUOTE] == start + ([QUOTE] + EscapeAll(mode, s) + [QUOTE]);
  }

  /** What remains to be done from position i and argument k on, with `acc` written. */
  ghost predicate At(lit: Printer, max: int, query: seq<byte>, args: seq<Value>, i: nat, k: nat, acc: seq<byte>, all: Outcome) {
    i <= |query| && k <= |args| && Loop(lit, max, query[i..], args[k..], acc) == all
  }

  lemma AtPlain(lit: Printer, max: int, query: seq<byte>, args: seq<Value>, i: nat, j: nat, k: nat, acc: seq<byte>, all: Outcome)
    requires i <= j <= |query| && QM !in query[i..j] && At(lit, max, query, args, i, k, acc, all)
    ensures At(lit, max, query, args, j, k, acc + query[i..j], all)
  {
    assert query[i..] == query[i..j] + query[j..];
    LoopCopies(lit, max, query[i..j], query[j..], args[k..], acc);
  }

  lemma AtPlaceholder(lit: Printer, max: int, query: seq<byte>, args: seq<Value>, i: nat, k: nat, acc: seq<byte>, all: Outcome)
    requires i < |query| && query[i] == QM && At(lit, max, query, args, i, k, acc, all)
    ensures k == |args| ==> all.IndexPanic?
    ensures k < |args| && args[k].Unsupported? ==> all.Skip?
    ensures k < |args| && !args[k].Unsupported? ==>
              var acc' := acc + lit(args[k]);
              if !args[k].Null? && |acc'| + 4 > max then all.Skip? else At(lit, max, query, args, i + 1, k + 1, acc', all)
  {
    assert query[i..][0] == QM && query[i..][1..] == query[i + 1..];
    if k < |args| {
      assert args[k..][0] == args[k] && args[k..][1..] == args[k + 1..];
    }
  }

  /** The loop of interpolateParams. */
  method BuildText(start: array<byte>, mode: Mode, max: int, query: seq<byte>, args: seq<Value>) returns (r: Outcome)
    modifies start
    ensures r == Loop(Printing(mode), max, query, args, [])
  {
    ghost var lit := Printing(mode);
    ghost var all := Loop(lit, max, query, args, []);
    var buf, n: nat := start, 0;
    var argPos: nat, i: nat := 0, 0;
    assert buf[..0] == [] && query[0..] == query && args[0..] == args;
    while i < |query|
      invariant i <= |query| && argPos <= |args| && n <= buf.Length
      invariant buf == start || fresh(buf)
      invariant At(lit, max, query, args, i, argPos, buf[..n], all)
    {
      var q := NextPlaceholder(query, i);
      var stop := if q == -1 then |query| else i + q;
      AtPlain(lit, max, query, args, i, stop, argPos, buf[..n], all);
      buf, n := Append(buf, n, query[i..stop]);
      i := stop;
      if q == -1 {
        break;
      }
      AtPlaceholder(lit, max, query, args, i, argPos, buf[..n], all);
      if argPos >= |args| {
        return IndexPanic;
      }
      var arg := args[argPos];
      argPos := argPos + 1;
      if arg.Unsupported? {
        return Skip;
      }
      buf, n := AppendLiteral(mode, buf, n, arg);
      if !arg.Null? && n + 4 > max {
        return Skip;
      }
      i := i + 1;
    }
    assert query[i..] == [];
    if argPos != |args| {
      return Skip;
    }
    return Text(buf[..n]);
  }

  /**
   * interpolateParams. The text is built in the connection's read buffer, which is refused while it holds
   * unread bytes, and so stays valid.
   */
  method InterpolateParams(b: Buffer, mode: Mode, max: int, query: seq<byte>, args: seq<Value>) returns (r: Outcome)
    requires b.Valid()
    modifies b.buf
    ensures b.Valid()
    ensures r == if b.length > 0 then BadConn else Loop(Printing(mode), max, query, args, [])
  {
    if b.length > 0 {
      return BadConn;
    }
    r := BuildText(b.buf, mode, max, query, args);
  }
}
