/** strconv's decimal integers, as dbarray uses them: AppendInt in base 10, and ParseInt in
    base 10 with a bit size. */
module Decimals {
  import opened Bytes

  const PLUS: byte := 0x2B
  const MINUS: byte := 0x2D
  const ZERO: byte := 0x30

  datatype IntError = BadSyntax | OutOfRange

  function Digits(n: nat): (s: seq<byte>)
    ensures s != [] && forall k :: 0 <= k < |s| ==> IsDigit(s[k])
  {
    if n < 10 then [ZERO + n] else Digits(n / 10) + [ZERO + n % 10]
  }

  function Magnitude(x: int): nat {
    if x < 0 then -x else x
  }

  function Format(x: int): seq<byte> {
    if x < 0 then [MINUS] + Digits(-x) else Digits(x)
  }

  predicate IsDigit(c: byte) {
    ZERO <= c <= ZERO + 9
  }

  predicate AllDigits(s: seq<byte>) {
    s != [] && forall k :: 0 <= k < |s| ==> IsDigit(s[k])
  }

  function DigitsValue(s: seq<byte>): nat
    requires forall k :: 0 <= k < |s| ==> IsDigit(s[k])
  {
    if s == [] then 0
    else
      assert IsDigit(s[|s| - 1]);
      10 * DigitsValue(s[..|s| - 1]) + (s[|s| - 1] - ZERO)
  }

  function Power2(n: nat): nat {
    if n == 0 then 1 else 2 * Power2(n - 1)
  }

  predicate InRange(x: int, bits: nat)
    requires bits >= 1
  {
    && 0 - Power2(bits - 1) <= x
    && x < Power2(bits - 1)
  }

  function ParseInt(s: seq<byte>, bits: nat): Result<int, IntError>
    requires bits >= 1
  {
    if s == [] then Err(BadSyntax)
    else
      var negative := s[0] == MINUS;
      var digits := if s[0] == MINUS || s[0] == PLUS then s[1..] else s;
      if !AllDigits(digits) then Err(BadSyntax)
      else
        var x: int := if negative then 0 - DigitsValue(digits) else DigitsValue(digits);
        if InRange(x, bits) then Ok(x) else Err(OutOfRange)
  }

  function Zeros(n: nat): seq<byte> {
    seq(n, _ => ZERO)
  }

  predicate SignOf(sign: seq<byte>, x: int) {
    if sign == [MINUS] then x <= 0 else x >= 0 && (sign == [] || sign == [PLUS])
  }

  /** A text of x: a sign, leading zeros, and the digits of its magnitude. */
  predicate Spells(s: seq<byte>, sign: seq<byte>, zeros: nat, x: int) {
    SignOf(sign, x) && s == sign + Zeros(zeros) + Digits(Magnitude(x))
  }

  ghost predicate TextOf(s: seq<byte>, x: int) {
    exists sign: seq<byte>, zeros: nat :: Spells(s, sign, zeros, x)
  }

  lemma {:induction false} ValueOfDigits(z: nat, n: nat)
    ensures AllDigits(Zeros(z) + Digits(n)) && DigitsValue(Zeros(z) + Digits(n)) == n
  {
    var s := Zeros(z) + Digits(n);
    if n < 10 {
      assert s[..|s| - 1] == Zeros(z);
      ValueOfZeros(z);
    } else {
      ValueOfDigits(z, n / 10);
      assert s[..|s| - 1] == Zeros(z) + Digits(n / 10);
    }
  }

  lemma {:induction false} ValueOfZeros(z: nat)
    ensures DigitsValue(Zeros(z)) == 0
  {
    if z > 0 {
      assert Zeros(z)[..z - 1] == Zeros(z - 1);
      ValueOfZeros(z - 1);
    }
  }

  lemma {:induction false} DigitsCanonical(s: seq<byte>) returns (z: nat)
    requires AllDigits(s)
    ensures s == Zeros(z) + Digits(DigitsValue(s))
  {
    var init, d := s[..|s| - 1], s[|s| - 1] - ZERO;
    assert s == init + [ZERO + d];
    var n := DigitsValue(init);
    assert DigitsValue(s) == 10 * n + d;
    if n == 0 {
      z := |s| - 1;
      ZeroValue(init);
      assert init == Zeros(z);
    } else {
      z := DigitsCanonical(init);
      assert (10 * n + d) / 10 == n && (10 * n + d) % 10 == d;
    }
  }

  lemma {:induction false} ZeroValue(s: seq<byte>)
    requires (forall k :: 0 <= k < |s| ==> IsDigit(s[k])) && DigitsValue(s) == 0
    ensures forall k :: 0 <= k < |s| ==> s[k] == ZERO
  {
    if s != [] {
      ZeroValue(s[..|s| - 1]);
    }
  }

  lemma ParsedSpells(s: seq<byte>, bits: nat)
    requires bits >= 1 && ParseInt(s, bits).Ok?
    ensures TextOf(s, ParseInt(s, bits).value)
  {
    hide InRange, Digits, DigitsValue, Zeros;
    var x := ParseInt(s, bits).value;
    var sign := if s[0] == MINUS || s[0] == PLUS then s[..1] else [];
    var digits := s[|sign|..];
    var z := DigitsCanonical(digits);
    assert s == sign + (Zeros(z) + Digits(Magnitude(x)));
    assert Spells(s, sign, z, x);
  }

  lemma SignedParses(sign: seq<byte>, digits: seq<byte>, bits: nat, x: int)
    requires bits >= 1 && SignOf(sign, x) && AllDigits(digits) && DigitsValue(digits) == Magnitude(x)
    ensures ParseInt(sign + digits, bits) == if InRange(x, bits) then Ok(x) else Err(OutOfRange)
  {
    hide InRange, DigitsValue;
    var s := sign + digits;
    assert IsDigit(digits[0]);
    assert s[|sign|..] == digits;
  }

  lemma SpelledParses(s: seq<byte>, sign: seq<byte>, zeros: nat, bits: nat, x: int)
    requires bits >= 1 && Spells(s, sign, zeros, x)
    ensures ParseInt(s, bits) == if InRange(x, bits) then Ok(x) else Err(OutOfRange)
  {
    hide InRange, ParseInt, Digits, DigitsValue, AllDigits, Zeros;
    var digits := Zeros(zeros) + Digits(Magnitude(x));
    ValueOfDigits(zeros, Magnitude(x));
    assert s == sign + digits;
    SignedParses(sign, digits, bits, x);
  }

  /** ParseInt accepts exactly the texts of the integers in range, and reads each as its
      integer. */
  lemma ParseIntExact(s: seq<byte>, bits: nat, x: int)
    requires bits >= 1
    ensures ParseInt(s, bits) == Ok(x) <==> InRange(x, bits) && TextOf(s, x)
  {
    if ParseInt(s, bits) == Ok(x) {
      ParsedSpells(s, bits);
    }
    if InRange(x, bits) && TextOf(s, x) {
      hide ParseInt;
      var sign: seq<byte>, zeros: nat :| Spells(s, sign, zeros, x);
      SpelledParses(s, sign, zeros, bits, x);
    }
  }

  lemma FormatSpells(x: int)
    ensures Spells(Format(x), if x < 0 then [MINUS] else [], 0, x)
  {
    var sign: seq<byte> := if x < 0 then [MINUS] else [];
    assert Format(x) == sign + Zeros(0) + Digits(Magnitude(x));
  }

  /** The integer round trip, with the bounds of the bit size. */
  lemma IntRoundTrip(x: int, bits: nat)
    requires bits >= 1
    ensures ParseInt(Format(x), bits) == if InRange(x, bits) then Ok(x) else Err(OutOfRange)
  {
    hide ParseInt, Format, InRange;
    FormatSpells(x);
    SpelledParses(Format(x), if x < 0 then [MINUS] else [], 0, bits, x);
  }

  // ----- the texts, digit by digit -----

  function Power10(n: nat): nat {
    if n == 0 then 1 else 10 * Power10(n - 1)
  }

  /** Decimal digits by position: the first counts for the highest power of ten. */
  function Positional(s: seq<byte>): int {
    if s == [] then 0 else (s[0] as int - 0x30) * Power10(|s| - 1) + Positional(s[1..])
  }

  predicate DecimalDigits(s: seq<byte>) {
    s != [] && forall k :: 0 <= k < |s| ==> 0x30 <= s[k] <= 0x39
  }

  /** An optional sign and digits that come to x. */
  predicate Numeral(s: seq<byte>, x: int) {
    if s != [] && s[0] == 0x2D then DecimalDigits(s[1..]) && x == -Positional(s[1..])
    else if s != [] && s[0] == 0x2B then DecimalDigits(s[1..]) && x == Positional(s[1..])
    else DecimalDigits(s) && x == Positional(s)
  }

  lemma {:induction false} PositionalSnoc(s: seq<byte>, c: byte)
    ensures Positional(s + [c]) == 10 * Positional(s) + (c as int - 0x30)
  {
    if s == [] {
      assert ([] + [c])[1..] == [] && Power10(0) == 1;
    } else {
      PositionalSnoc(s[1..], c);
      assert (s + [c])[1..] == s[1..] + [c];
      Tenfold(s[0] as int - 0x30, Power10(|s| - 1));
    }
  }

  lemma Tenfold(a: int, p: int)
    ensures a * (10 * p) == 10 * (a * p)
  {
  }

  lemma {:induction false} ValueIsPositional(s: seq<byte>)
    requires forall k :: 0 <= k < |s| ==> IsDigit(s[k])
    ensures DigitsValue(s) == Positional(s)
  {
    if s != [] {
      var init := s[..|s| - 1];
      ValueIsPositional(init);
      PositionalSnoc(init, s[|s| - 1]);
      assert s == init + [s[|s| - 1]];
    }
  }

  /** ParseInt, said of the digits themselves: it accepts exactly an optional sign and decimal digits
      whose value is in range, and reads that value. */
  lemma ParseIntReads(s: seq<byte>, bits: nat, x: int)
    requires bits >= 1
    ensures ParseInt(s, bits) == Ok(x) <==> InRange(x, bits) && Numeral(s, x)
  {
    hide InRange, DigitsValue, Positional;
    if s != [] {
      var digits := if s[0] == MINUS || s[0] == PLUS then s[1..] else s;
      if AllDigits(digits) {
        ValueIsPositional(digits);
      }
    }
  }

  /** A printed integer has a sign exactly if it is negative, and no leading zero but its own. */
  lemma FormatIs(x: int)
    ensures Numeral(Format(x), x)
    ensures Format(x)[0] != 0x2B && (Format(x)[0] == 0x2D <==> x < 0)
    ensures var digits := if x < 0 then Format(x)[1..] else Format(x);
            digits != [] && (digits[0] == 0x30 ==> x == 0 && digits == [0x30])
  {
    hide Positional, DigitsValue;
    var digits := Digits(Magnitude(x));
    assert Zeros(0) + digits == digits;
    ValueOfDigits(0, Magnitude(x));
    ValueIsPositional(digits);
    NoLeadingZero(Magnitude(x));
    assert x < 0 ==> Format(x)[1..] == digits;
  }

  lemma {:induction false} NoLeadingZero(n: nat)
    ensures Digits(n)[0] == ZERO ==> n == 0 && Digits(n) == [ZERO]
  {
    if n >= 10 {
      NoLeadingZero(n / 10);
      assert Digits(n)[0] == Digits(n / 10)[0];
    }
  }
}
