/** Stand-ins for the two library calls the element handler uses to read an id
    from the request path: strings.TrimPrefix and strconv.Atoi (decimal only,
    optional sign, 64-bit range), with FormatInt as the partner that produces
    the path segment a client would send. */
module Strconv {
  import opened Models

  const MinInt64: int := -0x8000_0000_0000_0000
  const MaxInt64: int := 0x7fff_ffff_ffff_ffff

  predicate IsDigit(c: char) { '0' <= c <= '9' }

  predicate AllDigits(s: string) { forall i :: 0 <= i < |s| ==> IsDigit(s[i]) }

  /** The value of a string of decimal digits, most significant first. */
  function DecimalValue(s: string): nat
    requires AllDigits(s)
  {
    if s == [] then 0
    else DecimalValue(s[..|s| - 1]) * 10 + (s[|s| - 1] as int - '0' as int)
  }

  /** strconv.Atoi: an optional '+' or '-', then at least one decimal digit,
      and the value must fit in a 64-bit int; anything else is an error. */
  function Atoi(s: string): (r: Option<int>)
    ensures r.Some? ==> MinInt64 <= r.value <= MaxInt64
    ensures r.Some? ==> s != [] && (IsDigit(s[0]) || s[0] == '+' || s[0] == '-')
  {
    if s == [] then None
    else
      var signed := s[0] == '+' || s[0] == '-';
      var digits := if signed then s[1..] else s;
      if digits == [] || !AllDigits(digits) then None
      else
        var magnitude: int := DecimalValue(digits);
        var v := if s[0] == '-' then -magnitude else magnitude;
        if MinInt64 <= v <= MaxInt64 then Some(v) else None
  }

  /** strings.TrimPrefix: `s` without a leading `prefix`, or `s` itself when it
      does not start with `prefix`. */
  function TrimPrefix(s: string, prefix: string): (r: string)
    ensures prefix <= s ==> prefix + r == s
    ensures !(prefix <= s) ==> r == s
  {
    if prefix <= s then s[|prefix|..] else s
  }

  /** The shortest decimal spelling of a natural number. */
  function Digits(n: nat): (r: string)
    ensures r != [] && AllDigits(r)
    ensures DecimalValue(r) == n
  {
    if n < 10 then ['0' + n as char]
    else
      var front := Digits(n / 10);
      var r := front + ['0' + (n % 10) as char];
      assert r[..|r| - 1] == front;
      r
  }

  /** strconv.Itoa: decimal, with a leading '-' for negative numbers. */
  function FormatInt(n: int): (r: string)
  {
    if n < 0 then "-" + Digits(-n) else Digits(n)
  }

  /** Every 64-bit integer survives FormatInt followed by Atoi. */
  lemma AtoiFormatInt(n: int)
    requires MinInt64 <= n <= MaxInt64
    ensures Atoi(FormatInt(n)) == Some(n)
  {
    var s := FormatInt(n);
    if n < 0 {
      assert s[0] == '-' && s[1..] == Digits(-n);
    } else {
      assert IsDigit(s[0]);
    }
  }

  /** A decimal literal: only digits, except for a sign in first place, and
      ending in a digit (so at least one digit follows the sign). */
  predicate IsDecimalLiteral(s: string)
  {
    && s != []
    && IsDigit(s[|s| - 1])
    && forall i :: 0 <= i < |s| ==> IsDigit(s[i]) || (i == 0 && (s[i] == '+' || s[i] == '-'))
  }

  function Pow10(n: nat): (p: nat)
    ensures p >= 1
  {
    if n == 0 then 1 else 10 * Pow10(n - 1)
  }

  lemma {:induction false} DecimalValueBound(s: string)
    requires AllDigits(s)
    ensures DecimalValue(s) < Pow10(|s|)
  {
    if s != [] {
      DecimalValueBound(s[..|s| - 1]);
    }
  }

  /** Atoi reads only decimal literals, and reads every literal of up to 18
      characters, since no such literal leaves the 64-bit range. */
  lemma AtoiSyntax(s: string)
    ensures Atoi(s).Some? ==> IsDecimalLiteral(s)
    ensures IsDecimalLiteral(s) && |s| <= 18 ==> Atoi(s).Some?
  {
    if s != [] {
      var digits := if s[0] == '+' || s[0] == '-' then s[1..] else s;
      if IsDecimalLiteral(s) {
        assert digits != [] && AllDigits(digits);
        if |s| <= 18 {
          DecimalValueBound(digits);
          assert Pow10(3) == 1000;
          Pow10Add(3, 3); Pow10Add(6, 3); Pow10Add(9, 9);
          assert Pow10(18) == 1_000_000_000_000_000_000;
          assert Pow10(|digits|) <= Pow10(18) by { Pow10Monotone(|digits|, 18); }
        }
      }
    }
  }

  lemma {:induction false} Pow10Add(m: nat, n: nat)
    ensures Pow10(m + n) == Pow10(m) * Pow10(n)
    decreases m
  {
    if m > 0 {
      Pow10Add(m - 1, n);
    }
  }

  lemma {:induction false} Pow10Monotone(m: nat, n: nat)
    requires m <= n
    ensures Pow10(m) <= Pow10(n)
    decreases n
  {
    if m < n {
      Pow10Monotone(m, n - 1);
    }
  }

  /** No integer is read from an empty path segment. */
  lemma AtoiRejectsEmpty()
    ensures Atoi("") == None
  {
  }
}
