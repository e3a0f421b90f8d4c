/**
 * Digit strings as the UI code handles them: `replace(/[^0-9]/g, '')`,
 * `toString()`, `padStart(2, '0')`, `parseInt` and `parseFloat` on the
 * decimal text that number inputs deliver.
 */
module Text {
  import opened Wrappers

  predicate IsDigit(c: char) {
    '0' <= c <= '9'
  }

  predicate AllDigits(s: string) {
    forall i :: 0 <= i < |s| ==> IsDigit(s[i])
  }

  function DigitValue(c: char): (d: nat)
    requires IsDigit(c)
    ensures d < 10
  {
    c as int - '0' as int
  }

  function DigitChar(d: nat): (c: char)
    requires d < 10
    ensures IsDigit(c) && DigitValue(c) == d
  {
    ('0' as int + d) as char
  }

  function Pow10(n: nat): (r: nat)
    ensures r >= 1
  {
    if n == 0 then 1 else 10 * Pow10(n - 1)
  }

  /** `s.replace(/[^0-9]/g, '')`: the digit characters of `s`, in order. */
  function Digits(s: string): (d: string)
    ensures AllDigits(d)
    ensures |d| <= |s|
  {
    if s == [] then []
    else (if IsDigit(s[0]) then [s[0]] else []) + Digits(s[1..])
  }

  /** Keeping the digits distributes over concatenation. */
  lemma {:induction false} DigitsAppend(s: string, t: string)
    ensures Digits(s + t) == Digits(s) + Digits(t)
  {
    if s != [] {
      var head := if IsDigit(s[0]) then [s[0]] else [];
      assert (s + t)[0] == s[0];
      assert (s + t)[1..] == s[1..] + t;
      DigitsAppend(s[1..], t);
      calc {
        Digits(s + t);
        head + Digits(s[1..] + t);
        head + (Digits(s[1..]) + Digits(t));
        (head + Digits(s[1..])) + Digits(t);
        Digits(s) + Digits(t);
      }
    } else {
      assert s + t == t;
    }
  }

  /** A string of digits is left exactly as it is. */
  lemma {:induction false} DigitsOfDigits(s: string)
    requires AllDigits(s)
    ensures Digits(s) == s
  {
    if s != [] {
      DigitsOfDigits(s[1..]);
    }
  }

  /** Keeping the digits of `a.b`, both digit strings, drops only the '.'. */
  lemma DigitsAroundDot(a: string, b: string)
    requires AllDigits(a) && AllDigits(b)
    ensures Digits(a + "." + b) == a + b
  {
    var dot: string := ".";
    assert Digits(dot) == [] by {
      assert dot[1..] == [];
    }
    DigitsAppend(dot, b);
    DigitsOfDigits(b);
    assert Digits(dot + b) == b;
    DigitsAppend(a, dot + b);
    DigitsOfDigits(a);
    assert a + dot + b == a + (dot + b);
  }

  /** The value of a digit string read in base ten (the empty string reads as 0). */
  function DigitsValue(s: string): nat
    requires AllDigits(s)
  {
    if s == [] then 0 else 10 * DigitsValue(s[..|s| - 1]) + DigitValue(s[|s| - 1])
  }

  /** Reading `a + b` shifts `a` left by the length of `b`. */
  lemma {:induction false} DigitsValueAppend(a: string, b: string)
    requires AllDigits(a) && AllDigits(b)
    ensures AllDigits(a + b)
    ensures DigitsValue(a + b) == DigitsValue(a) * Pow10(|b|) + DigitsValue(b)
  {
    if b != [] {
      var b' := b[..|b| - 1];
      var d := DigitValue(b[|b| - 1]);
      DigitsValueAppend(a, b');
      AppendLast(a, b);
      assert DigitsValue(a + b) == 10 * DigitsValue(a + b') + d;
      assert DigitsValue(b) == 10 * DigitsValue(b') + d;
      assert Pow10(|b|) == 10 * Pow10(|b'|);
      MulShift(DigitsValue(a), Pow10(|b'|), DigitsValue(b'), d);
    } else {
      assert a + b == a;
    }
  }

  lemma AppendLast(a: string, b: string)
    requires AllDigits(a) && AllDigits(b) && b != []
    ensures AllDigits(a + b)
    ensures (a + b)[..|a + b| - 1] == a + b[..|b| - 1]
    ensures (a + b)[|a + b| - 1] == b[|b| - 1]
  {
  }

  lemma MulShift(x: int, p: int, y: int, d: int)
    ensures 10 * (x * p + y) + d == x * (10 * p) + (10 * y + d)
  {
  }

  /** A leading zero does not change the value read. */
  lemma LeadingZero(s: string)
    requires AllDigits(s)
    ensures AllDigits("0" + s) && DigitsValue("0" + s) == DigitsValue(s)
  {
    DigitsValueAppend("0", s);
    assert DigitsValue("0") == 0 by {
      assert "0"[..0] == [];
    }
  }

  /** A digit string of length n reads as less than 10^n. */
  lemma {:induction false} DigitsValueBound(s: string)
    requires AllDigits(s)
    ensures DigitsValue(s) < Pow10(|s|)
  {
    if s != [] {
      DigitsValueBound(s[..|s| - 1]);
    }
  }

  /** `n.toString()` for a non-negative integer, without leading zeros. */
  function NatToString(n: nat): (s: string)
    ensures AllDigits(s) && DigitsValue(s) == n
    ensures 1 <= |s|
    ensures n < 10 <==> |s| == 1
    ensures n < 100 ==> |s| <= 2
  {
    if n < 10 then
      var s := [DigitChar(n)];
      assert s[..0] == [];
      s
    else
      var p := NatToString(n / 10);
      var s := p + [DigitChar(n % 10)];
      assert s[..|s| - 1] == p;
      s
  }

  /** `n.toString()` for any integer. */
  function IntToString(n: int): (s: string)
    ensures 1 <= |s|
    ensures s[0] == '-' <==> n < 0
    ensures IsDigit(s[0]) <==> 0 <= n
  {
    if n < 0 then "-" + NatToString(-n) else NatToString(n)
  }

  /** `s.padStart(width, c)`. */
  function PadStart(s: string, width: nat, c: char): (r: string)
    ensures |r| == if |s| >= width then |s| else width
    ensures r[|r| - |s|..] == s
    ensures forall i :: 0 <= i < |r| - |s| ==> r[i] == c
    decreases width - |s|
  {
    if |s| >= width then s else PadStart([c] + s, width, c)
  }

  /** `s.padStart(2, '0')` on a digit string: still digits, same value. */
  function Pad2(s: string): (r: string)
    requires AllDigits(s)
    ensures AllDigits(r) && DigitsValue(r) == DigitsValue(s)
    ensures |r| == if |s| >= 2 then |s| else 2
  {
    var r := PadStart(s, 2, '0');
    if |s| >= 2 then r
    else if |s| == 1 then
      assert r == "0" + s;
      LeadingZero(s);
      r
    else
      assert r == "0" + "0" + s;
      LeadingZero("0" + s);
      LeadingZero(s);
      r
  }

  /** Two digits are what `padStart(2, '0')` writes for the number they stand for. */
  lemma PadTwoDigits(s: string)
    requires AllDigits(s) && |s| == 2
    ensures Pad2(NatToString(DigitsValue(s))) == s
  {
    TwoDigitsValue(s);
    if s[0] == '0' {
      PadTwoDigitsZero(s, DigitsValue(s));
    } else {
      PadTwoDigitsWide(s, DigitsValue(s));
    }
  }

  lemma PadTwoDigitsZero(s: string, n: nat)
    requires |s| == 2 && s[0] == '0' && IsDigit(s[1])
    requires n == 10 * DigitValue(s[0]) + DigitValue(s[1])
    ensures Pad2(NatToString(n)) == s
  {
    SmallNatToString(n);
    DigitCharOfValue(s[1]);
    PadLeadingZero(s, NatToString(n));
  }

  lemma PadTwoDigitsWide(s: string, n: nat)
    requires |s| == 2 && IsDigit(s[0]) && s[0] != '0' && IsDigit(s[1])
    requires n == 10 * DigitValue(s[0]) + DigitValue(s[1])
    ensures Pad2(NatToString(n)) == s
  {
    DivModTen(n, DigitValue(s[0]), DigitValue(s[1]));
    SmallNatToString(n);
    DigitCharOfValue(s[0]);
    DigitCharOfValue(s[1]);
    assert NatToString(n) == [s[0], s[1]] == s;
  }

  lemma DivModTen(n: int, a: int, b: int)
    requires n == 10 * a + b && 0 <= b < 10
    ensures n / 10 == a && n % 10 == b
  {
  }

  lemma PadLeadingZero(s: string, t: string)
    requires |s| == 2 && s[0] == '0' && IsDigit(s[1]) && t == [s[1]]
    ensures Pad2(t) == s
  {
    PadOneDigit(s[1]);
    assert ['0', s[1]] == s;
  }

  lemma DigitCharOfValue(c: char)
    requires IsDigit(c)
    ensures DigitChar(DigitValue(c)) == c
  {
  }

  lemma PadOneDigit(c: char)
    requires IsDigit(c)
    ensures Pad2([c]) == ['0', c]
  {
    assert PadStart([c], 2, '0') == PadStart(['0'] + [c], 2, '0');
  }

  lemma TwoDigitsValue(s: string)
    requires AllDigits(s) && |s| == 2
    ensures DigitsValue(s) == 10 * DigitValue(s[0]) + DigitValue(s[1])
  {
    var head := s[..1];
    assert head[..0] == [] && head[0] == s[0];
    assert DigitsValue(head) == 10 * DigitsValue(head[..0]) + DigitValue(head[0]);
    assert DigitsValue(head) == DigitValue(s[0]);
    assert s[..|s| - 1] == head;
    assert DigitsValue(s) == 10 * DigitsValue(head) + DigitValue(s[1]);
  }

  lemma SmallNatToString(n: nat)
    requires n < 100
    ensures NatToString(n) == if n < 10 then [DigitChar(n)] else [DigitChar(n / 10), DigitChar(n % 10)]
  {
  }

  /** The longest prefix of `s` made of digits. */
  function LeadingDigits(s: string): (d: string)
    ensures AllDigits(d) && d <= s
    ensures |d| < |s| ==> !IsDigit(s[|d|])
  {
    if s == [] || !IsDigit(s[0]) then [] else [s[0]] + LeadingDigits(s[1..])
  }

  /**
   * `parseInt(s)`: an optional sign, then the leading digits; `None` is NaN
   * (no digit after the sign). Leading white space is not modelled.
   */
  function ParseInt(s: string): (r: Option<int>)
    ensures r.None? <==> LeadingDigits(if |s| > 0 && (s[0] == '-' || s[0] == '+') then s[1..] else s) == []
  {
    var negative := |s| > 0 && s[0] == '-';
    var unsigned := if |s| > 0 && (s[0] == '-' || s[0] == '+') then s[1..] else s;
    var d := LeadingDigits(unsigned);
    if d == [] then None
    else
      var v: int := DigitsValue(d);
      Some(if negative then -v else v)
  }

  /** `parseInt` reads back what `toString` wrote. */
  lemma ParseIntOfToString(n: int)
    ensures ParseInt(IntToString(n)) == Some(n)
  {
    var s := IntToString(n);
    var u := if n < 0 then NatToString(-n) else NatToString(n);
    assert |s| > 0 && (s[0] == '-' <==> n < 0) && s[0] != '+';
    assert (if s[0] == '-' || s[0] == '+' then s[1..] else s) == u;
    LeadingDigitsOfDigits(u);
  }

  lemma {:induction false} LeadingDigitsOfDigits(s: string)
    requires AllDigits(s)
    ensures LeadingDigits(s) == s
  {
    if s != [] {
      LeadingDigitsOfDigits(s[1..]);
    }
  }

  /** Index of the first '.' in `s`, or `|s|` when there is none. */
  function DotIndex(s: string): (k: nat)
    ensures k <= |s|
    ensures k < |s| ==> s[k] == '.'
    ensures forall i :: 0 <= i < k ==> s[i] != '.'
  {
    if s == [] then 0
    else if s[0] == '.' then 0
    else 1 + DotIndex(s[1..])
  }

  /** Unsigned decimal text: digits, then optionally '.' and digits, with at least one digit. */
  predicate IsUnsignedDecimal(u: string) {
    var k := DotIndex(u);
    AllDigits(u[..k]) && (k < |u| ==> AllDigits(u[k + 1..])) && Digits(u) != []
  }

  /** The text a number input delivers: an optional '-' before an unsigned decimal. */
  predicate IsDecimalText(s: string) {
    if |s| > 0 && s[0] == '-' then IsUnsignedDecimal(s[1..]) else IsUnsignedDecimal(s)
  }

  /** The value of `int.frac` written in base ten. */
  function DecimalValue(intPart: string, fracPart: string): real
    requires AllDigits(intPart) && AllDigits(fracPart)
  {
    DigitsValue(intPart) as real + DigitsValue(fracPart) as real / Pow10(|fracPart|) as real
  }

  function UnsignedDecimalValue(u: string): real
    requires IsUnsignedDecimal(u)
  {
    var k := DotIndex(u);
    if k < |u| then DecimalValue(u[..k], u[k + 1..]) else DigitsValue(u) as real
  }

  /** `parseFloat(s)` on decimal text (exponent notation is not modelled). */
  function ParseFloat(s: string): (r: real)
    requires IsDecimalText(s)
    ensures |s| > 0 && s[0] == '-' ==> r <= 0.0
    ensures !(|s| > 0 && s[0] == '-') ==> r >= 0.0
  {
    if |s| > 0 && s[0] == '-' then -UnsignedDecimalValue(s[1..]) else UnsignedDecimalValue(s)
  }

  /** A leading '-' negates the value of unsigned decimal text. */
  lemma ParseFloatNegate(u: string)
    requires IsUnsignedDecimal(u)
    ensures IsDecimalText(u) && IsDecimalText("-" + u)
    ensures ParseFloat("-" + u) == -ParseFloat(u)
  {
    var k := DotIndex(u);
    if k > 0 {
      assert u[0] == u[..k][0];
    }
    assert u[0] != '-';
    assert ("-" + u)[1..] == u;
  }

  /** `parseFloat` of `int.frac`, with both parts digit strings, one of them non-empty. */
  lemma ParseFloatOfParts(intPart: string, fracPart: string)
    requires AllDigits(intPart) && AllDigits(fracPart) && |intPart + fracPart| > 0
    ensures IsDecimalText(intPart + "." + fracPart)
    ensures ParseFloat(intPart + "." + fracPart) == DecimalValue(intPart, fracPart)
  {
    var s := intPart + "." + fracPart;
    assert s == intPart + ("." + fracPart);
    DotIndexAfterDigits(intPart, "." + fracPart);
    assert s[..|intPart|] == intPart;
    assert s[|intPart| + 1..] == fracPart;
    DigitsAroundDot(intPart, fracPart);
    if |intPart| > 0 {
      assert s[0] == intPart[0];
      assert IsDigit(s[0]);
    } else {
      assert s[0] == '.';
    }
  }

  lemma {:induction false} DotIndexAfterDigits(a: string, b: string)
    requires AllDigits(a) && |b| > 0 && b[0] == '.'
    ensures DotIndex(a + b) == |a|
  {
    if a != [] {
      assert (a + b)[1..] == a[1..] + b;
      DotIndexAfterDigits(a[1..], b);
    }
  }
}
