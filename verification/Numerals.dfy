/** Numbers as text: digits of a base, padded to a width. */
module Numerals {
  import opened Bytes
  import opened Unicode

  function Digit(d: nat): (c: Scalar)
    requires d < 16
  {
    if d < 10 then 48 + d else 87 + d
  }

  function DigitValue(c: Scalar): Option<nat> {
    if 48 <= c < 58 then Some(c - 48) else if 97 <= c < 103 then Some(c - 87) else None
  }

  /** The digits of `n`, most significant first, with zeros in front up to the width. */
  function Digits(n: nat, base: nat, width: nat): Text
    requires 2 <= base <= 16
    decreases n + width
  {
    if n == 0 && width == 0 then []
    else
      Shrinks(n, base);
      Digits(n / base, base, if width == 0 then 0 else width - 1) + [Digit(n % base)]
  }

  lemma Shrinks(n: nat, base: nat)
    requires 2 <= base
    ensures n / base <= n && (n > 0 ==> n / base < n)
  {
  }

  /** The number that a text of digits stands for. */
  function Valued(t: Text, base: nat): Option<nat> {
    if |t| == 0 then Some(0)
    else
      var front, digit := Valued(t[..|t| - 1], base), DigitValue(t[|t| - 1]);
      if front.None? || digit.None? || digit.value >= base then None else Some(front.value * base + digit.value)
  }

  lemma ValuedMore(front: Text, digit: nat, base: nat)
    requires digit < base <= 16 && Valued(front, base).Some?
    ensures Valued(front + [Digit(digit)], base) == Some(Valued(front, base).value * base + digit)
  {
    assert (front + [Digit(digit)])[..|front|] == front;
  }

  lemma Divided(n: nat, base: nat)
    requires 2 <= base
    ensures n / base * base + n % base == n && n % base < base
  {
  }

  lemma NoDigits(base: nat)
    ensures Valued([], base) == Some(0)
  {
  }

  lemma LastDigitReads(n: nat, base: nat, width: nat)
    requires 2 <= base <= 16 && (n != 0 || width != 0)
    requires Valued(Digits(n / base, base, if width == 0 then 0 else width - 1), base) == Some(n / base)
    ensures Valued(Digits(n, base, width), base) == Some(n)
  {
    hide Valued;
    Divided(n, base);
    ValuedMore(Digits(n / base, base, if width == 0 then 0 else width - 1), n % base, base);
  }

  lemma {:induction false} DigitsRead(n: nat, base: nat, width: nat)
    requires 2 <= base <= 16
    ensures Valued(Digits(n, base, width), base) == Some(n)
    decreases n + width
  {
    hide Valued;
    if n == 0 && width == 0 {
      NoDigits(base);
    } else {
      Shrinks(n, base);
      DigitsRead(n / base, base, if width == 0 then 0 else width - 1);
      LastDigitReads(n, base, width);
    }
  }

  /** "0x" and at least `width` hexadecimal digits. */
  function Hex(n: nat, width: nat): Text {
    Ascii("0x") + Digits(n, 16, width)
  }

  function Decimal(n: nat): Text {
    Digits(n, 10, 1)
  }

  /** A number as an attribute reads it: hexadecimal behind "0x", otherwise decimal. */
  function ReadNumber(t: Text): Option<nat> {
    if Ascii("0x") <= t then Valued(t[2..], 16) else Valued(t, 10)
  }

  lemma HexReads(n: nat, width: nat)
    ensures ReadNumber(Hex(n, width)) == Some(n)
  {
    hide Digits, Valued;
    DigitsRead(n, 16, width);
    assert Hex(n, width)[2..] == Digits(n, 16, width);
  }

  // A decimal numeral holds no "x".
  lemma {:induction false} ValuedDigits(t: Text, i: nat)
    requires Valued(t, 10).Some? && i < |t|
    ensures t[i] < 58
  {
    if i < |t| - 1 {
      ValuedDigits(t[..|t| - 1], i);
    }
  }

  lemma DecimalReads(n: nat)
    ensures ReadNumber(Decimal(n)) == Some(n)
  {
    hide Digits, Valued;
    DigitsRead(n, 10, 1);
    if Ascii("0x") <= Decimal(n) {
      ValuedDigits(Decimal(n), 1);
    }
  }

  function Power(base: nat, width: nat): (p: nat)
    requires base > 0
    ensures p > 0
  {
    if width == 0 then 1 else base * Power(base, width - 1)
  }

  /** A number that fits the width is written with exactly that many digits. */
  lemma {:induction false} DigitsWidth(n: nat, base: nat, width: nat)
    requires 2 <= base <= 16 && n < Power(base, width)
    ensures |Digits(n, base, width)| == width
    decreases width
  {
    if width > 0 {
      QuotientFits(n, base, Power(base, width - 1));
      DigitsWidth(n / base, base, width - 1);
    }
  }

  lemma QuotientFits(n: nat, base: nat, p: nat)
    requires base > 0 && n < base * p
    ensures n / base < p
  {
    Divides(n, base);
    Cancels(base, n / base, p);
  }

  lemma Divides(n: nat, base: nat)
    requires base > 0
    ensures base * (n / base) <= n
  {
  }

  lemma Cancels(base: nat, q: nat, p: nat)
    requires base * q < base * p
    ensures q < p
  {
  }

  /** 16-bit and 8-bit values take six and four characters. */
  lemma HexWidths(n: nat)
    ensures n < 0x1_0000 ==> |Hex(n, 4)| == 6
    ensures n < 0x100 ==> |Hex(n, 2)| == 4
  {
    hide Digits;
    assert Power(16, 1) == 16 && Power(16, 2) == 256 && Power(16, 3) == 4096 && Power(16, 4) == 65536;
    if n < 0x1_0000 {
      DigitsWidth(n, 16, 4);
    }
    if n < 0x100 {
      DigitsWidth(n, 16, 2);
    }
  }
}
