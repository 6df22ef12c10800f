/** Decimal text of integers, in the two directions the compiler uses:
    Swift's string interpolation of an `Int` (the emitter's immediates and the
    TACKY temporary names) and Swift's failable `Int(String)` initializer (the
    parser's constants). Swift's `Int` is 64 bits wide. */
module Decimal {
  import opened Results

  const MinInt: int := -0x8000_0000_0000_0000
  const MaxInt: int := 0x7fff_ffff_ffff_ffff

  predicate InIntRange(v: int) {
    MinInt <= v <= MaxInt
  }

  predicate IsDigit(c: char) {
    '0' <= c <= '9'
  }

  predicate AllDigits(s: string) {
    forall i :: 0 <= i < |s| ==> IsDigit(s[i])
  }

  function DigitChar(d: nat): (c: char)
    requires d < 10
    ensures IsDigit(c)
  {
    (('0' as int) + d) as char
  }

  function DigitValue(c: char): (d: nat)
    requires IsDigit(c)
    ensures d < 10
  {
    (c as int) - ('0' as int)
  }

  /** The number a digit string denotes, most significant digit first. */
  function DigitsValue(s: string): nat
    requires AllDigits(s)
  {
    if |s| == 0 then 0 else 10 * DigitsValue(s[..|s| - 1]) + DigitValue(s[|s| - 1])
  }

  /** Decimal rendering of a natural number: the shortest digit string that
      denotes it. */
  function NatToString(n: nat): (s: string)
    ensures 0 < |s| && AllDigits(s)
    ensures DigitsValue(s) == n
    ensures 1 < |s| ==> s[0] != '0'
  {
    if n < 10 then [DigitChar(n)]
    else
      var prefix := NatToString(n / 10);
      var s := prefix + [DigitChar(n % 10)];
      assert s[..|s| - 1] == prefix;
      s
  }

  /** Swift's `"\(v)"` for an `Int`: a minus sign for negatives, then the
      digits of the magnitude. */
  function IntToString(v: int): (s: string)
    ensures 0 < |s|
    ensures v < 0 <==> s[0] == '-'
    ensures v >= 0 ==> AllDigits(s) && DigitsValue(s) == v
    ensures v < 0 ==> AllDigits(s[1..]) && DigitsValue(s[1..]) == -v
    ensures var digits := if v < 0 then s[1..] else s;
            0 < |digits| && (1 < |digits| ==> digits[0] != '0')
  {
    if v < 0 then "-" + NatToString(-v) else NatToString(v)
  }

  /** Swift's `Int(_ text: String)`: an optional `+` or `-` followed by one or
      more decimal digits, whose value must fit in 64 bits; anything else is
      `nil`. */
  function ParseInt(s: string): (r: Option<int>)
    ensures r.Some? ==> InIntRange(r.value)
    ensures r.Some? ==> 0 < |s|
  {
    if |s| == 0 then None
    else
      var negative := s[0] == '-';
      var digits := if s[0] == '+' || negative then s[1..] else s;
      if |digits| == 0 then None
      else
        match ParseDigits(digits)
        case None => None
        case Some(magnitude) =>
          var m: int := magnitude;
          var v := if negative then -m else m;
          if InIntRange(v) then Some(v) else None
  }

  /** The value of a string of decimal digits, read most significant digit
      first; `None` if some character is not a digit. */
  function ParseDigits(s: string): Option<nat>
    decreases |s|
  {
    if |s| == 0 then Some(0)
    else
      match ParseDigits(s[..|s| - 1])
      case None => None
      case Some(prefix) =>
        if IsDigit(s[|s| - 1]) then Some(10 * prefix + DigitValue(s[|s| - 1])) else None
  }

  /** `ParseDigits` accepts exactly the digit strings, and gives the number
      they denote. */
  lemma {:induction false} ParseDigitsValue(s: string)
    ensures ParseDigits(s).Some? <==> AllDigits(s)
    ensures ParseDigits(s).Some? ==> ParseDigits(s).value == DigitsValue(s)
    decreases |s|
  {
    if |s| > 0 {
      var init := s[..|s| - 1];
      ParseDigitsValue(init);
      assert forall i :: 0 <= i < |init| ==> init[i] == s[i];
    }
  }

  /** A string of digits alone is read as the number it denotes when that
      fits in an `Int`, and rejected otherwise. */
  lemma ParseIntOfDigits(s: string)
    requires AllDigits(s) && 0 < |s|
    ensures ParseInt(s) == (if DigitsValue(s) <= MaxInt then Some(DigitsValue(s)) else None)
  {
    ParseDigitsValue(s);
    assert IsDigit(s[0]);
  }

  /** Two different numbers never render to the same text; the TACKY
      generator relies on this for its temporaries to be distinct. */
  lemma NatToStringInjective(a: nat, b: nat)
    requires a != b
    ensures NatToString(a) != NatToString(b)
  {
  }

  /** Reading back a rendered `Int` gives the same `Int`. */
  lemma ParseIntOfIntToString(v: int)
    requires InIntRange(v)
    ensures ParseInt(IntToString(v)) == Some(v)
  {
    var s := IntToString(v);
    if v < 0 {
      assert s[0] == '-' && s[1..] == NatToString(-v);
      ParseDigitsValue(s[1..]);
    } else {
      assert s == NatToString(v);
      ParseIntOfDigits(s);
    }
  }
}
