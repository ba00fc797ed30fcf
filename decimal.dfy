/**
 * Decimal text of Go integers, as produced by strconv.Itoa (and fmt.Sprint on
 * an int) and as accepted by strconv.ParseInt(s, 10, 64).
 */
module Decimal {
  import opened Wrappers

  const Int64Min: int := -0x8000_0000_0000_0000
  const Int64Max: int := 0x7FFF_FFFF_FFFF_FFFF

  predicate IsDigit(c: char) {
    '0' <= c <= '9'
  }

  predicate AllDigits(s: string) {
    forall i :: 0 <= i < |s| ==> IsDigit(s[i])
  }

  predicate InInt64(n: int) {
    Int64Min <= n <= Int64Max
  }

  function DigitChar(d: nat): (c: char)
    requires d < 10
    ensures IsDigit(c) && c as int - '0' as int == d
  {
    ('0' as int + d) as char
  }

  /** Decimal digits of n, most significant first, with no leading zero. */
  function NatToString(n: nat): (s: string)
    ensures 1 <= |s| && AllDigits(s)
    ensures s[0] == '0' ==> n == 0
    ensures n < 10 <==> |s| == 1
  {
    if n < 10 then [DigitChar(n)] else NatToString(n / 10) + [DigitChar(n % 10)]
  }

  /** strconv.Itoa: a '-' sign for negative numbers, then the digits of the magnitude. */
  function Itoa(n: int): (s: string)
    ensures 1 <= |s|
    ensures n >= 0 ==> s == NatToString(n)
    ensures n < 0 ==> s[0] == '-' && s[1..] == NatToString(-n)
  {
    if n < 0 then "-" + NatToString(-n) else NatToString(n)
  }

  /** Value of a non-empty run of decimal digits, read left to right. */
  function DigitsValue(s: string): nat
    requires AllDigits(s)
  {
    if s == [] then 0 else DigitsValue(s[..|s| - 1]) * 10 + (s[|s| - 1] as int - '0' as int)
  }

  /** The text after an optional leading '+' or '-'. */
  function Unsigned(s: string): (m: string)
    ensures m == s || (|s| > 0 && (s[0] == '+' || s[0] == '-') && m == s[1..])
  {
    if |s| > 0 && (s[0] == '+' || s[0] == '-') then s[1..] else s
  }

  /** A magnitude with the sign that the first character gives it. */
  function Signed(first: char, magnitude: nat): int {
    if first == '-' then -(magnitude as int) else magnitude
  }

  /**
   * strconv.ParseInt(s, 10, 64): an optional '+' or '-', then at least one
   * decimal digit and nothing else; the value must fit in an int64.
   * None stands for the returned syntax or range error.
   */
  function ParseInt(s: string): (r: Option<int>)
    ensures r.Some? ==> InInt64(r.value)
    ensures r.Some? ==> 0 < |s| && (IsDigit(s[0]) || s[0] == '+' || s[0] == '-')
  {
    var signed := |s| > 0 && (s[0] == '+' || s[0] == '-');
    var body := if signed then s[1..] else s;
    if |body| == 0 || !AllDigits(body) then None
    else
      var magnitude: int := DigitsValue(body);
      var n: int := if signed && s[0] == '-' then -magnitude else magnitude;
      if InInt64(n) then Some(n) else None
  }

  /**
   * ParseInt accepts exactly an optional sign followed by one or more
   * decimal digits whose signed value fits in an int64, and returns that
   * value.
   */
  lemma ParseIntAccepts(s: string)
    ensures ParseInt(s).Some? <==> var m := Unsigned(s); |m| > 0 && AllDigits(m) && InInt64(Signed(s[0], DigitsValue(m)))
    ensures ParseInt(s).Some? ==> ParseInt(s).value == Signed(s[0], DigitsValue(Unsigned(s)))
  {
  }

  lemma {:induction false} DigitsValueOfNatToString(n: nat)
    ensures DigitsValue(NatToString(n)) == n
  {
    if n >= 10 {
      var s := NatToString(n / 10) + [DigitChar(n % 10)];
      assert s[..|s| - 1] == NatToString(n / 10);
      DigitsValueOfNatToString(n / 10);
    }
  }

  /** Parsing what Itoa printed gives the number back, for every int64. */
  lemma ParseIntOfItoa(n: int)
    requires InInt64(n)
    ensures ParseInt(Itoa(n)) == Some(n)
  {
    var s := Itoa(n);
    ParseIntAccepts(s);
    hide ParseInt;
    if n < 0 {
      DigitsValueOfNatToString(-n);
      assert s[0] == '-' && Unsigned(s) == NatToString(-n);
    } else {
      DigitsValueOfNatToString(n);
      assert IsDigit(s[0]) && Unsigned(s) == NatToString(n);
    }
  }
}
