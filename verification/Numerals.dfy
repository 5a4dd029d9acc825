/** Numbers as text: rendering in a base, and parsing an unsigned decimal as Rust's `str::parse` does. */
module Numerals {
  import opened Wrappers

  const DIGITS: string := "0123456789abcdef"

  predicate IsDigit(c: char, base: nat)
    requires 2 <= base <= 16
  {
    c in DIGITS[..base]
  }

  function DigitValue(c: char): nat
  {
    if '0' <= c <= '9' then c as nat - '0' as nat
    else if 'a' <= c <= 'f' then 10 + (c as nat - 'a' as nat)
    else 16
  }

  function Digit(k: nat, base: nat): (c: char)
    requires k < base && 2 <= base <= 16
    ensures IsDigit(c, base) && DigitValue(c) == k
  {
    assert DIGITS[..base][k] == DIGITS[k];
    DIGITS[k]
  }

  function Render(n: nat, base: nat): (s: string)
    requires 2 <= base <= 16
    ensures s != [] && forall c | c in s :: IsDigit(c, base)
    decreases n
  {
    if n < base then [Digit(n, base)]
    else Render(n / base, base) + [Digit(n % base, base)]
  }

  function Value(s: string, base: nat): nat
  {
    if s == [] then 0 else Value(s[..|s| - 1], base) * base + DigitValue(s[|s| - 1])
  }

  lemma ValueSnoc(s: string, c: char, base: nat)
    ensures Value(s + [c], base) == Value(s, base) * base + DigitValue(c)
  {
    assert (s + [c])[..|s|] == s;
  }

  lemma DivideAndRest(n: nat, base: nat)
    requires 0 < base
    ensures n / base * base + n % base == n
    ensures 2 <= base <= n ==> n / base < n
  {
  }

  lemma RenderStep(n: nat, base: nat)
    requires 2 <= base <= 16 && base <= n
    ensures Value(Render(n, base), base) == Value(Render(n / base, base), base) * base + n % base
  {
    ValueSnoc(Render(n / base, base), Digit(n % base, base), base);
  }

  lemma {:induction false} RenderRoundTrip(n: nat, base: nat)
    requires 2 <= base <= 16
    ensures Value(Render(n, base), base) == n
    decreases n
  {
    if n < base {
      ValueSnoc([], Digit(n, base), base);
      assert Render(n, base) == [] + [Digit(n, base)];
    } else {
      DivideAndRest(n, base);
      RenderStep(n, base);
      RenderRoundTrip(n / base, base);
    }
  }

  lemma RenderInjective(m: nat, n: nat, base: nat)
    requires 2 <= base <= 16
    requires Render(m, base) == Render(n, base)
    ensures m == n
  {
    RenderRoundTrip(m, base);
    RenderRoundTrip(n, base);
  }

  function Decimal(n: nat): string
  {
    Render(n, 10)
  }

  function SignedDecimal(i: int): string
  {
    if i < 0 then "-" + Decimal(-i) else Decimal(i)
  }

  /** Rust's `parse` for an unsigned type with greatest value `max`: an optional plus, then digits only. */
  function ParseUnsigned(s: string, max: nat): Option<nat>
  {
    var digits := if s != [] && s[0] == '+' then s[1..] else s;
    if digits == [] || exists c | c in digits :: !IsDigit(c, 10) then None
    else if Value(digits, 10) > max then None
    else Some(Value(digits, 10))
  }

  lemma ParseDecimal(n: nat, max: nat)
    ensures ParseUnsigned(Decimal(n), max) == if n <= max then Some(n) else None
  {
    RenderRoundTrip(n, 10);
    var s := Decimal(n);
    assert s[0] in s;
    assert '+' !in DIGITS[..10];
  }

  /** Decimal text, digit by digit. */
  lemma DecimalIs(n: nat)
    ensures n < 10 ==> Decimal(n) == ["0123456789"[n]]
    ensures n >= 10 ==> Decimal(n) == Decimal(n / 10) + ["0123456789"[n % 10]]
  {
    var d := n % 10;
    assert DIGITS[..10] == "0123456789";
    assert DIGITS[d] == DIGITS[..10][d];
  }

  /** Hexadecimal text, digit by digit. */
  lemma HexIs(n: nat)
    ensures n < 16 ==> Render(n, 16) == ["0123456789abcdef"[n]]
    ensures n >= 16 ==> Render(n, 16) == Render(n / 16, 16) + ["0123456789abcdef"[n % 16]]
  {
  }

  function Zeros(k: nat): (s: string)
    ensures |s| == k && forall i | 0 <= i < k :: s[i] == '0'
  {
    seq(k, i => '0')
  }

  /** The text of a number, perhaps with a plus sign and zeros before it. */
  ghost predicate Writes(s: string, sign: string, k: nat, n: nat)
  {
    (sign == "" || sign == "+") && s == sign + (Zeros(k) + Decimal(n))
  }

  lemma {:induction false} ZerosAddNothing(k: nat, n: nat)
    ensures Value(Zeros(k) + Decimal(n), 10) == n
    ensures forall c | c in Zeros(k) + Decimal(n) :: IsDigit(c, 10)
    decreases n
  {
    assert DIGITS[..10][0] == '0';
    if n < 10 {
      ZerosValue(k);
      ValueSnoc(Zeros(k), Digit(n, 10), 10);
      assert Decimal(n) == [Digit(n, 10)];
    } else {
      ZerosAddNothing(k, n / 10);
      ValueSnoc(Zeros(k) + Decimal(n / 10), Digit(n % 10, 10), 10);
      assert Zeros(k) + Decimal(n) == Zeros(k) + Decimal(n / 10) + [Digit(n % 10, 10)];
      DivideAndRest(n, 10);
    }
  }

  lemma {:induction false} ZerosValue(k: nat)
    ensures Value(Zeros(k), 10) == 0
    decreases k
  {
    if k > 0 {
      ZerosValue(k - 1);
      assert Zeros(k) == Zeros(k - 1) + ['0'];
      ValueSnoc(Zeros(k - 1), '0', 10);
    }
  }

  lemma DigitBack(c: char)
    requires IsDigit(c, 10)
    ensures DigitValue(c) < 10 && Digit(DigitValue(c), 10) == c
  {
    assert DIGITS[..10] == "0123456789";
    var i :| 0 <= i < 10 && DIGITS[..10][i] == c;
    assert DigitValue(c) == i;
  }

  lemma DecimalSnoc(v: nat, x: nat)
    requires 0 < v && x < 10
    ensures Decimal(v * 10 + x) == Decimal(v) + [Digit(x, 10)]
  {
    assert (v * 10 + x) / 10 == v && (v * 10 + x) % 10 == x;
  }

  lemma OneMoreZero(k: nat)
    ensures Zeros(k) + Decimal(0) == Zeros(k + 1)
  {
    assert DIGITS[..10][0] == '0';
    assert Decimal(0) == ['0'];
  }

  /** A string of digits is some zeros and the text of its value. */
  lemma {:induction false} DigitsAre(s: string) returns (k: nat)
    requires s != "" && forall i | 0 <= i < |s| :: IsDigit(s[i], 10)
    ensures s == Zeros(k) + Decimal(Value(s, 10))
    decreases |s|
  {
    var init, last := s[..|s| - 1], s[|s| - 1];
    assert s == init + [last];
    if init == "" {
      k := 0;
      ZeroBefore(init, last);
    } else {
      k := DigitsAre(init);
      if Value(init, 10) == 0 {
        OneMoreZero(k);
        k := k + 1;
        ZeroBefore(init, last);
      } else {
        DigitBehind(init, last, k);
      }
    }
  }

  lemma ZeroBefore(init: string, last: char)
    requires Value(init, 10) == 0 && IsDigit(last, 10)
    ensures Decimal(Value(init + [last], 10)) == [last]
  {
    DigitBack(last);
    ValueSnoc(init, last, 10);
  }

  lemma DigitBehind(init: string, last: char, k: nat)
    requires Value(init, 10) > 0 && IsDigit(last, 10) && init == Zeros(k) + Decimal(Value(init, 10))
    ensures init + [last] == Zeros(k) + Decimal(Value(init + [last], 10))
  {
    var v := Value(init, 10);
    DigitBack(last);
    ValueSnoc(init, last, 10);
    DecimalSnoc(v, DigitValue(last));
    assert Zeros(k) + Decimal(v) + [last] == Zeros(k) + (Decimal(v) + [last]);
  }

  lemma WrittenParses(s: string, sign: string, k: nat, n: nat, max: nat)
    requires Writes(s, sign, k, n)
    ensures ParseUnsigned(s, max) == if n <= max then Some(n) else None
  {
    var text := Zeros(k) + Decimal(n);
    ZerosAddNothing(k, n);
    assert text[0] in text && '+' !in DIGITS[..10];
    assert s[|sign|..] == text;
  }

  lemma ParsedIsWritten(s: string, max: nat) returns (sign: string, k: nat)
    requires ParseUnsigned(s, max).Some?
    ensures Writes(s, sign, k, ParseUnsigned(s, max).value) && ParseUnsigned(s, max).value <= max
  {
    sign := if s != [] && s[0] == '+' then "+" else "";
    var digits := if s != [] && s[0] == '+' then s[1..] else s;
    assert s == sign + digits;
    assert forall i | 0 <= i < |digits| :: digits[i] in digits;
    k := DigitsAre(digits);
  }

  /** Exactly what parses: a number within the limit, written with any zeros before it and a plus sign
      or none. */
  lemma ParseUnsignedIff(s: string, max: nat, n: nat)
    ensures ParseUnsigned(s, max) == Some(n) <==> n <= max && exists sign, k :: Writes(s, sign, k, n)
  {
    if ParseUnsigned(s, max) == Some(n) {
      var sign, k := ParsedIsWritten(s, max);
    }
    forall sign, k | n <= max && Writes(s, sign, k, n) ensures ParseUnsigned(s, max) == Some(n) {
      WrittenParses(s, sign, k, n, max);
    }
  }
}
