/** Signed 64-bit numbers in decimal, as Rust's `to_string` writes and `parse::<i64>` reads them. */
module Decimal {
  import opened Protocol

  const I64_MIN: int := -0x8000_0000_0000_0000
  const I64_MAX: int := 0x7FFF_FFFF_FFFF_FFFF

  predicate IsI64(n: int) {
    I64_MIN <= n <= I64_MAX
  }

  /** Two's complement, as release builds add. */
  function WrapI64(n: int): (r: int)
    ensures IsI64(r)
    ensures IsI64(n) ==> r == n
    ensures (r - n) % 0x1_0000_0000_0000_0000 == 0
  {
    (n - I64_MIN) % 0x1_0000_0000_0000_0000 + I64_MIN
  }

  const ZERO: Byte := 48
  const PLUS: Byte := 43
  const MINUS: Byte := 45

  predicate IsDigit(b: Byte) {
    ZERO <= b <= ZERO + 9
  }

  function Digits(n: nat): Bytes {
    if n < 10 then [ZERO + n] else Digits(n / 10) + [ZERO + n % 10]
  }

  /** `to_string` */
  function Print(n: int): Bytes {
    if n < 0 then [MINUS] + Digits(-n) else Digits(n)
  }

  function Value(digits: Bytes): nat
    requires forall b | b in digits :: IsDigit(b)
  {
    if digits == [] then 0
    else
      var last := digits[|digits| - 1];
      assert last in digits && IsDigit(last);
      Value(digits[..|digits| - 1]) * 10 + (last - ZERO)
  }

  /** `parse::<i64>`: an optional sign, at least one digit, nothing else, and in range. */
  function ParseI64(s: Bytes): Option<int> {
    var negative := s != [] && s[0] == MINUS;
    var digits := if s != [] && (s[0] == MINUS || s[0] == PLUS) then s[1..] else s;
    if digits == [] || exists b | b in digits :: !IsDigit(b) then None
    else
      var size: int := Value(digits);
      var n := if negative then -size else size;
      if IsI64(n) then Some(n) else None
  }

  lemma {:induction false} DigitsRead(n: nat)
    ensures Digits(n) != [] && forall b | b in Digits(n) :: IsDigit(b)
    ensures Value(Digits(n)) == n
  {
    if n < 10 {
      assert [ZERO + n][..0] == [];
    } else {
      DigitsRead(n / 10);
      var last: Byte := ZERO + n % 10;
      assert Digits(n)[..|Digits(n)| - 1] == Digits(n / 10);
    }
  }

  /** Reading undoes printing, for every i64. */
  lemma {:induction false} PrintReads(n: int)
    requires IsI64(n)
    ensures ParseI64(Print(n)) == Some(n)
  {
    var size: nat := if n < 0 then -n else n;
    DigitsRead(size);
    assert Digits(size)[0] in Digits(size);
    if n < 0 {
      assert Print(n)[1..] == Digits(size);
    }
  }

  // ----- Which strings are which numbers -----

  function Pow10(n: nat): nat {
    if n == 0 then 1 else 10 * Pow10(n - 1)
  }

  predicate AllDigits(s: Bytes) {
    forall b | b in s :: IsDigit(b)
  }

  lemma {:induction false} DigitsOfParts(a: Bytes, b: Bytes)
    ensures AllDigits(a + b) <==> AllDigits(a) && AllDigits(b)
  {
    assert forall x | x in a :: x in a + b;
    assert forall x | x in b :: x in a + b;
  }

  lemma {:induction false} ValueSnoc(digits: Bytes, d: Byte)
    requires AllDigits(digits) && IsDigit(d)
    ensures AllDigits(digits + [d]) && Value(digits + [d]) == Value(digits) * 10 + (d - ZERO)
  {
    DigitsOfParts(digits, [d]);
    assert (digits + [d])[..|digits|] == digits;
  }

  lemma {:induction false} ShiftPlace(d: nat, n: nat, value: nat)
    ensures (d * Pow10(n) + value) * 10 == d * Pow10(n + 1) + value * 10
  {
    var p := Pow10(n);
    assert Pow10(n + 1) == 10 * p;
    hide Pow10;
    assert d * (10 * p) == 10 * (d * p);
  }

  lemma {:induction false} OneDigit(d: Byte)
    requires IsDigit(d)
    ensures Value([]) == 0 && Value([d]) == d - 48
  {
    assert [d][..0] == [];
  }

  /** A digit is worth itself times ten for every digit after it. */
  lemma {:induction false} PlaceValue(d: Byte, rest: Bytes)
    requires 48 <= d <= 57 && AllDigits(rest)
    ensures AllDigits([d] + rest) && Value([d] + rest) == (d - 48) * Pow10(|rest|) + Value(rest)
  {
    DigitsOfParts([d], rest);
    hide Value, Pow10;
    if rest == [] {
      assert [d] + rest == [d];
      OneDigit(d);
      assert Pow10(0) == 1 by { PowZero(); }
    } else {
      var n := |rest| - 1;
      DigitsOfParts(rest[..n], [rest[n]]);
      assert rest == rest[..n] + [rest[n]] && rest[n] in rest;
      PlaceValue(d, rest[..n]);
      ValueSnoc([d] + rest[..n], rest[n]);
      ValueSnoc(rest[..n], rest[n]);
      assert [d] + rest == [d] + rest[..n] + [rest[n]];
      ShiftPlace(d - 48, n, Value(rest[..n]));
    }
  }

  lemma {:induction false} PowZero()
    ensures Pow10(0) == 1
  {
  }

  function Zeros(n: nat): Bytes {
    seq(n, _ => 48)
  }

  lemma {:induction false} LeadingZeros(n: nat, digits: Bytes)
    requires AllDigits(digits)
    ensures AllDigits(Zeros(n) + digits) && Value(Zeros(n) + digits) == Value(digits)
  {
    if n == 0 {
      assert Zeros(n) + digits == digits;
    } else {
      LeadingZeros(n - 1, digits);
      PlaceValue(48, Zeros(n - 1) + digits);
      assert Zeros(n) + digits == [48] + (Zeros(n - 1) + digits);
    }
  }

  /** Without a leading zero there is only one way to write a number. */
  lemma {:induction false} Canonical(digits: Bytes)
    requires digits != [] && digits[0] != ZERO && AllDigits(digits)
    ensures Value(digits) >= 1 && Digits(Value(digits)) == digits
  {
    var n := |digits| - 1;
    var last := digits[n];
    assert digits == digits[..n] + [last];
    DigitsOfParts(digits[..n], [last]);
    ValueSnoc(digits[..n], last);
    if n > 0 {
      Canonical(digits[..n]);
    } else {
      assert digits[..n] == [];
    }
  }

  lemma {:induction false} Written(digits: Bytes) returns (zeros: nat)
    requires digits != [] && AllDigits(digits)
    ensures digits == Zeros(zeros) + Digits(Value(digits))
  {
    zeros := 0;
    if digits[0] != ZERO {
      Canonical(digits);
      assert Zeros(0) + digits == digits;
    } else if |digits| == 1 {
      assert digits == [] + [ZERO] && Zeros(0) + digits == digits;
      ValueSnoc([], ZERO);
    } else {
      assert digits == [ZERO] + digits[1..];
      DigitsOfParts([ZERO], digits[1..]);
      PlaceValue(ZERO, digits[1..]);
      zeros := Written(digits[1..]);
      assert Zeros(zeros + 1) + Digits(Value(digits)) == [ZERO] + (Zeros(zeros) + Digits(Value(digits)));
      zeros := zeros + 1;
    }
  }

  /** An optional sign, any number of zeros, and the number in decimal. */
  predicate Spells(s: Bytes, sign: Bytes, zeros: nat, n: int) {
    && s == sign + Zeros(zeros) + Digits(if n < 0 then -n else n)
    && (sign == [] || sign == [43] ==> n >= 0)
    && (sign == [45] ==> n <= 0)
    && (sign == [] || sign == [43] || sign == [45])
  }

  /** Every string that spells a number is read as that number, if it is an i64. */
  lemma {:induction false} SpelledReads(s: Bytes, sign: Bytes, zeros: nat, n: int)
    requires Spells(s, sign, zeros, n)
    ensures ParseI64(s) == if -0x8000_0000_0000_0000 <= n <= 0x7FFF_FFFF_FFFF_FFFF then Some(n) else None
  {
    var size: nat := if n < 0 then -n else n;
    DigitsRead(size);
    LeadingZeros(zeros, Digits(size));
    hide ParseI64, Value;
    assert s == sign + (Zeros(zeros) + Digits(size));
    SignedReads(sign, Zeros(zeros) + Digits(size), n);
  }

  lemma {:induction false} SignedReads(sign: Bytes, digits: Bytes, n: int)
    requires digits != [] && AllDigits(digits) && Value(digits) == if n < 0 then -n else n
    requires (sign == [] && n >= 0) || (sign == [43] && n >= 0) || (sign == [45] && n <= 0)
    ensures ParseI64(sign + digits) == if IsI64(n) then Some(n) else None
  {
    hide Value;
    var s := sign + digits;
    if sign == [] {
      assert s == digits && digits[0] in digits;
    } else {
      assert s[0] == sign[0] && s[1..] == digits;
    }
  }

  function SignOf(s: Bytes): Bytes {
    if s != [] && (s[0] == MINUS || s[0] == PLUS) then [s[0]] else []
  }

  lemma {:induction false} SignAndDigits(s: Bytes)
    requires ParseI64(s).Some?
    ensures var digits := s[|SignOf(s)|..];
            var n := ParseI64(s).value;
            && digits != [] && AllDigits(digits) && Value(digits) == (if n < 0 then -n else n)
            && (SignOf(s) == [] || SignOf(s) == [43] ==> n >= 0)
            && (SignOf(s) == [45] ==> n <= 0)
  {
    hide Value;
  }

  /** And nothing else is read: whatever is accepted spells the number it is read as. */
  lemma {:induction false} ReadIsSpelled(s: Bytes) returns (sign: Bytes, zeros: nat)
    requires ParseI64(s).Some?
    ensures Spells(s, sign, zeros, ParseI64(s).value)
  {
    hide ParseI64, Value, IsDigit, Digits, Zeros;
    SignAndDigits(s);
    sign := SignOf(s);
    var digits := s[|sign|..];
    zeros := Written(digits);
    assert s == sign + digits;
    assert s == sign + Zeros(zeros) + Digits(Value(digits));
  }
}
