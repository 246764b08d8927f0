/** Decimal numbers and space-separated tokens, as printed and parsed by strconv, fmt and strings. */
module Text {
  import opened Common

  predicate IsDigit(c: char) {
    '0' <= c <= '9'
  }

  function DigitOf(d: nat): char
    requires d < 10
  {
    ('0' as int + d) as char
  }

  function ValueOf(c: char): nat
    requires IsDigit(c)
  {
    c as int - '0' as int
  }

  predicate AllDigits(s: string) {
    forall i :: 0 <= i < |s| ==> IsDigit(s[i])
  }

  /** %d of a number that is not negative. */
  function Decimal(n: nat): (s: string)
    ensures s != [] && AllDigits(s)
  {
    if n < 10 then [DigitOf(n)] else Decimal(n / 10) + [DigitOf(n % 10)]
  }

  /** %d of any integer. */
  function DecimalInt(n: int): string {
    if n < 0 then "-" + Decimal(-n) else Decimal(n)
  }

  function DigitsValue(s: string): nat
    requires AllDigits(s)
  {
    if s == [] then 0 else 10 * DigitsValue(s[..|s| - 1]) + ValueOf(s[|s| - 1])
  }

  lemma {:induction false} DecimalValue(n: nat)
    ensures DigitsValue(Decimal(n)) == n
  {
    if n >= 10 {
      DecimalValue(n / 10);
      assert Decimal(n)[..|Decimal(n)| - 1] == Decimal(n / 10);
    } else {
      assert Decimal(n)[..0] == [];
    }
  }

  lemma DecimalInjective(a: nat, b: nat)
    requires Decimal(a) == Decimal(b)
    ensures a == b
  {
    DecimalValue(a);
    DecimalValue(b);
  }

  const INT64_MAX := 0x7fff_ffff_ffff_ffff

  /** strconv.Atoi: an optional sign and at least one digit, in range. */
  function Atoi(s: string): Option<int> {
    if s == [] then None
    else if s[0] == '-' || s[0] == '+' then
      if s[1..] == [] || !AllDigits(s[1..]) then None
      else
        var v: int := DigitsValue(s[1..]);
        if s[0] == '-' then if v <= INT64_MAX + 1 then Some(-v) else None
        else if v <= INT64_MAX then Some(v) else None
    else if !AllDigits(s) then None
    else if DigitsValue(s) <= INT64_MAX then Some(DigitsValue(s)) else None
  }

  // ---------------------------------------------------------------------------------------
  // strings.Split(s, " ")

  function Split(s: string): (tokens: seq<string>)
    ensures tokens != []
  {
    if s == [] then [[]]
    else if s[0] == ' ' then [[]] + Split(s[1..])
    else
      var rest := Split(s[1..]);
      [[s[0]] + rest[0]] + rest[1..]
  }

  /** A token without a space, then a space, is the first token. */
  lemma {:induction false} SplitToken(t: string, rest: string)
    requires ' ' !in t
    ensures Split(t + " " + rest) == [t] + Split(rest)
    ensures Split(t) == [t]
  {
    if t == [] {
      assert t + " " + rest == " " + rest;
      assert (" " + rest)[1..] == rest;
    } else {
      assert t[0] in t;
      assert forall c :: c in t[1..] ==> c in t;
      SplitToken(t[1..], rest);
      assert (t + " " + rest)[1..] == t[1..] + " " + rest;
      assert [t[0]] + t[1..] == t;
    }
  }

  /** Go strings are bytes; this is the byte form of an ASCII string. */
  function Bytes(s: string): (b: seq<byte>)
    ensures |b| == |s|
  {
    seq(|s|, i requires 0 <= i < |s| => s[i] as int % 256)
  }
}
