/**
 * Kotlin's `String.toIntOrNull()` and `Int.toString()` on 32-bit `Int`.
 */
module Numbers {
  import opened Wrappers

  const IntMin: int := -0x8000_0000
  const IntMax: int := 0x7FFF_FFFF

  /**
   * The decimal value of a digit as `Character.digit(c, 10)` reads it, for the ASCII,
   * Arabic-Indic (U+0660..U+0669) and Extended Arabic-Indic (U+06F0..U+06F9) digits.
   */
  function DigitValue(c: char): (d: Option<nat>)
    ensures d.Some? ==> d.value < 10
    ensures '0' <= c <= '9' ==> d == Some(c as int - '0' as int)
  {
    var n := c as int;
    if 0x30 <= n <= 0x39 then Some(n - 0x30)
    else if 0x660 <= n <= 0x669 then Some(n - 0x660)
    else if 0x6F0 <= n <= 0x6F9 then Some(n - 0x6F0)
    else None
  }

  /** The value of a non-empty run of digits, or None if some character is not a digit. */
  function DigitsValue(s: string): Option<nat>
    requires s != []
    decreases |s|
  {
    var last := DigitValue(s[|s| - 1]);
    if last.None? then None
    else if |s| == 1 then last
    else
      match DigitsValue(s[..|s| - 1])
      case None => None
      case Some(p) => Some(10 * p + last.value)
  }

  /**
   * `s.toIntOrNull()`: an optional `-` or `+` followed by at least one digit, whose value
   * fits in a 32-bit `Int`; anything else gives null.
   */
  function ToIntOrNull(s: string): (r: Option<int>)
    ensures r.Some? ==> IntMin <= r.value <= IntMax
    ensures s == [] ==> r == None
  {
    if s == [] then None
    else
      var neg := s[0] == '-';
      var digits := if s[0] == '-' || s[0] == '+' then s[1..] else s;
      if digits == [] then None
      else
        match DigitsValue(digits)
        case None => None
        case Some(v) =>
          var n: int := if neg then -(v as int) else v;
          if IntMin <= n <= IntMax then Some(n) else None
  }

  function DigitChar(d: nat): (c: char)
    requires d < 10
    ensures '0' <= c <= '9'
  {
    ('0' as int + d) as char
  }

  /** The decimal digits of `n`, most significant first, without leading zeros. */
  function NatToString(n: nat): (s: string)
    ensures s != [] && '0' <= s[0] <= '9'
    ensures forall i :: 0 <= i < |s| ==> '0' <= s[i] <= '9'
    decreases n
  {
    if n < 10 then [DigitChar(n)] else NatToString(n / 10) + [DigitChar(n % 10)]
  }

  /** `n.toString()`: a minus sign for negative numbers, then the decimal digits. */
  function IntToString(n: int): string
  {
    if n < 0 then "-" + NatToString(-n) else NatToString(n)
  }

  lemma {:induction false} DigitsOfNat(n: nat)
    ensures DigitsValue(NatToString(n)) == Some(n)
    decreases n
  {
    if n >= 10 {
      var p := NatToString(n / 10);
      var s := p + [DigitChar(n % 10)];
      assert s[..|s| - 1] == p;
      DigitsOfNat(n / 10);
    }
  }

  /** Reading back what `toString` writes gives the same `Int`. */
  lemma ParseShowRoundTrip(n: int)
    requires IntMin <= n <= IntMax
    ensures ToIntOrNull(IntToString(n)) == Some(n)
  {
    if n < 0 {
      DigitsOfNat(-n);
      ParseNegative(NatToString(-n), -n);
    } else {
      DigitsOfNat(n);
      ParseUnsigned(NatToString(n), n);
    }
  }

  lemma ParseNegative(d: string, v: int)
    requires d != [] && 0 <= v <= -IntMin && DigitsValue(d) == Some(v)
    ensures ToIntOrNull("-" + d) == Some(-v)
  {
    var s := "-" + d;
    assert s[0] == '-' && s[1..] == d;
  }

  lemma ParseUnsigned(d: string, v: nat)
    requires d != [] && '0' <= d[0] <= '9' && DigitsValue(d) == Some(v) && v <= IntMax
    ensures ToIntOrNull(d) == Some(v)
  {
  }
}
