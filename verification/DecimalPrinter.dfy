/**
 Printing decimals in the lexical form of XML Schema (xsd/sxbuiltin.py, section 3.2.3 of XML Schema Part 2: Datatypes).
 */
module DecimalPrinter {

  type Digit = d: int | 0 <= d < 10

  /** A sign, digits, and the power of ten of the last digit. */
  datatype Decimal = Decimal(negative: bool, digits: seq<Digit>, exponent: int)

  /** There are digits, and no leading zeros but in zero itself. */
  predicate Canonical(v: Decimal) {
    v.digits != [] && (v.digits[0] != 0 || |v.digits| == 1)
  }

  /** n times ten to the power of e. */
  function Scaled(n: nat, e: nat): nat
    decreases e
  {
    if e == 0 then n else Scaled(10 * n, e - 1)
  }

  function Number(digits: seq<Digit>): nat {
    if digits == [] then 0 else 10 * Number(digits[..|digits| - 1]) + digits[|digits| - 1]
  }

  function Zeros(n: nat): (z: seq<Digit>)
    ensures |z| == n && forall i :: 0 <= i < n ==> z[i] == 0
  {
    seq(n, i => 0)
  }

  // ----- printing -----

  /** How many digits are left when trailing zeros of the fraction are dropped. */
  function Trimmed(digits: seq<Digit>, count: nat, fractional: nat): (c: nat)
    requires fractional <= count <= |digits|
    ensures count - fractional <= c <= count
  {
    if fractional > 0 && digits[count - 1] == 0 then Trimmed(digits, count - 1, fractional - 1) else count
  }

  function Kept(digits: seq<Digit>, exponent: int): (c: nat)
    requires exponent < 0
    ensures c <= |digits| && |digits| + exponent <= c
  {
    Trimmed(digits, |digits|, if |digits| < -exponent then |digits| else -exponent)
  }

  function Whole(digits: seq<Digit>, exponent: int): seq<Digit> {
    if exponent >= 0 then digits + Zeros(exponent)
    else if |digits| + exponent <= 0 then [0]
    else digits[..|digits| + exponent]
  }

  function Fraction(digits: seq<Digit>, exponent: int): seq<Digit> {
    if exponent >= 0 then []
    else
      var offset, count := |digits| + exponent, Kept(digits, exponent);
      if offset <= 0 then if count > 0 then Zeros(-offset) + digits[..count] else []
      else digits[offset..count]
  }

  function CharOf(d: Digit): char {
    "0123456789"[d]
  }

  function Chars(digits: seq<Digit>): (s: string)
    ensures |s| == |digits| && forall i :: 0 <= i < |s| ==> s[i] == CharOf(digits[i])
  {
    seq(|digits|, i requires 0 <= i < |digits| => CharOf(digits[i]))
  }

  function Sign(negative: bool): string {
    if negative then "-" else ""
  }

  function Tail(fraction: seq<Digit>): string {
    if fraction == [] then "" else "." + Chars(fraction)
  }

  /** The form that the schema asks for: a sign if negative, digits, and a point only before a fraction. */
  function Lexical(negative: bool, whole: seq<Digit>, fraction: seq<Digit>): string {
    Sign(negative) + (Chars(whole) + Tail(fraction))
  }

  function Printed(v: Decimal): string {
    Lexical(v.negative, Whole(v.digits, v.exponent), Fraction(v.digits, v.exponent))
  }

  method ToXsd(v: Decimal) returns (result: string)
    requires Canonical(v)
    ensures result == Printed(v)
  {
    var digits, exponent := v.digits, v.exponent;
    var body: string;
    if exponent >= 0 {
      body := Chars(digits) + Chars(Zeros(exponent));
      CharsJoined(digits, Zeros(exponent));
    } else {
      var digitCount := |digits|;
      var fractionalCount := if digitCount < -exponent then digitCount else -exponent;
      while fractionalCount > 0 && digits[digitCount - 1] == 0
        invariant 0 <= fractionalCount <= digitCount <= |digits|
        invariant Trimmed(digits, digitCount, fractionalCount) == Kept(digits, exponent)
      {
        digitCount, fractionalCount := digitCount - 1, fractionalCount - 1;
      }
      body := Layout(digits, exponent, digitCount);
    }
    result := Sign(v.negative) + body;
  }

  /** Puts the point into the digits that are kept. */
  method Layout(digits: seq<Digit>, exponent: int, digitCount: nat) returns (body: string)
    requires exponent < 0 && digitCount == Kept(digits, exponent)
    ensures body == Chars(Whole(digits, exponent)) + Tail(Fraction(digits, exponent))
  {
    var pointOffset := |digits| + exponent;
    ghost var fraction := Fraction(digits, exponent);
    if pointOffset <= 0 {
      assert Chars([0]) == "0";
      body := "0";
      if digitCount > 0 {
        CharsJoined(Zeros(-pointOffset), digits[..digitCount]);
        assert fraction == Zeros(-pointOffset) + digits[..digitCount];
        body := body + ("." + (Chars(Zeros(-pointOffset)) + Chars(digits[..digitCount])));
      } else {
        assert fraction == [];
      }
    } else {
      body := Chars(digits[..pointOffset]);
      assert fraction == digits[pointOffset..digitCount];
      if pointOffset < digitCount {
        body := body + ("." + Chars(digits[pointOffset..digitCount]));
      }
    }
  }

  lemma CharsJoined(first: seq<Digit>, second: seq<Digit>)
    ensures Chars(first + second) == Chars(first) + Chars(second)
  {
  }

  // ----- reading back -----

  function DigitOf(c: char): Digit {
    if '0' <= c <= '9' then c as int - '0' as int else 0
  }

  function DigitsOf(s: string): (d: seq<Digit>)
    ensures |d| == |s| && forall i :: 0 <= i < |s| ==> d[i] == DigitOf(s[i])
  {
    seq(|s|, i requires 0 <= i < |s| => DigitOf(s[i]))
  }

  function Point(s: string): (i: nat)
    ensures i <= |s| && (i < |s| ==> s[i] == '.') && '.' !in s[..i]
  {
    if s == "" || s[0] == '.' then 0
    else
      var r := Point(s[1..]);
      assert s[..1 + r] == [s[0]] + s[1..][..r];
      1 + r
  }

  datatype Reading = Reading(negative: bool, whole: seq<Digit>, fraction: seq<Digit>)

  predicate IsNegative(s: string) {
    s != "" && s[0] == '-'
  }

  function BodyOf(s: string): string {
    if IsNegative(s) then s[1..] else s
  }

  function WholeOf(body: string): seq<Digit> {
    DigitsOf(body[..Point(body)])
  }

  function FractionOf(body: string): seq<Digit> {
    if Point(body) < |body| then DigitsOf(body[Point(body) + 1..]) else []
  }

  function Read(s: string): Reading {
    Reading(IsNegative(s), WholeOf(BodyOf(s)), FractionOf(BodyOf(s)))
  }

  lemma DigitsOfChars(digits: seq<Digit>)
    ensures DigitsOf(Chars(digits)) == digits && '.' !in Chars(digits) && '-' !in Chars(digits)
  {
  }

  lemma {:induction false} PointAfter(first: string, second: string)
    requires '.' !in first && (second == "" || second[0] == '.')
    ensures Point(first + second) == |first|
  {
    if first == "" {
      assert first + second == second;
    } else {
      assert (first + second)[1..] == first[1..] + second;
      PointAfter(first[1..], second);
    }
  }

  lemma ReadBody(whole: seq<Digit>, fraction: seq<Digit>)
    requires whole != []
    ensures var body := Chars(whole) + Tail(fraction);
            body[0] != '-' && WholeOf(body) == whole && FractionOf(body) == fraction
  {
    DigitsOfChars(whole);
    DigitsOfChars(fraction);
    var tail := Tail(fraction);
    PointAfter(Chars(whole), tail);
    var body := Chars(whole) + tail;
    assert body[0] == Chars(whole)[0] && Chars(whole)[0] in Chars(whole);
    assert body[..|whole|] == Chars(whole);
    if fraction != [] {
      assert body[|whole| + 1..] == tail[1..] == Chars(fraction);
    }
  }

  lemma SignThenBody(negative: bool, body: string)
    requires body != "" && body[0] != '-'
    ensures IsNegative(Sign(negative) + body) == negative && BodyOf(Sign(negative) + body) == body
  {
  }

  /** Reading undoes printing. */
  lemma ReadLexical(negative: bool, whole: seq<Digit>, fraction: seq<Digit>)
    requires whole != []
    ensures Read(Lexical(negative, whole, fraction)) == Reading(negative, whole, fraction)
  {
    ReadBody(whole, fraction);
    SignThenBody(negative, Chars(whole) + Tail(fraction));
  }

  // ----- the printed number is the number -----

  lemma {:induction false} ScaledTwice(n: nat, a: nat, b: nat)
    ensures Scaled(Scaled(n, a), b) == Scaled(n, a + b)
    decreases a
  {
    if a > 0 {
      ScaledTwice(10 * n, a - 1, b);
    }
  }

  lemma {:induction false} ScaledOnce(n: nat, e: nat)
    ensures Scaled(n, e + 1) == 10 * Scaled(n, e)
    decreases e
  {
    if e > 0 {
      ScaledOnce(10 * n, e - 1);
    }
  }

  lemma {:induction false} ScaledZero(e: nat)
    ensures Scaled(0, e) == 0
  {
    if e > 0 {
      ScaledZero(e - 1);
    }
  }

  lemma {:induction false} NumberWithZeros(digits: seq<Digit>, n: nat)
    ensures Number(digits + Zeros(n)) == Scaled(Number(digits), n)
  {
    if n == 0 {
      assert digits + Zeros(0) == digits;
    } else {
      NumberWithZeros(digits, n - 1);
      ScaledOnce(Number(digits), n - 1);
      var all := digits + Zeros(n);
      assert all[..|all| - 1] == digits + Zeros(n - 1);
    }
  }

  lemma {:induction false} NumberAfterZeros(n: nat, digits: seq<Digit>)
    ensures Number(Zeros(n) + digits) == Number(digits)
  {
    if digits == [] {
      assert [] + Zeros(n) == Zeros(n) + digits;
      NumberWithZeros([], n);
      ScaledZero(n);
    } else {
      var all := Zeros(n) + digits;
      assert all[..|all| - 1] == Zeros(n) + digits[..|digits| - 1];
      NumberAfterZeros(n, digits[..|digits| - 1]);
    }
  }

  lemma {:induction false} TrimmedWereZeros(digits: seq<Digit>, count: nat, fractional: nat)
    requires fractional <= count <= |digits|
    ensures var c := Trimmed(digits, count, fractional);
            && digits[..count] == digits[..c] + Zeros(count - c)
            && (c > count - fractional ==> digits[c - 1] != 0)
  {
    if fractional > 0 && digits[count - 1] == 0 {
      TrimmedWereZeros(digits, count - 1, fractional - 1);
      var c := Trimmed(digits, count - 1, fractional - 1);
      assert digits[..count] == digits[..count - 1] + [0];
      assert Zeros(count - 1 - c) + [0] == Zeros(count - c);
    } else {
      assert digits[..count] + Zeros(0) == digits[..count];
    }
  }

  lemma KeptDigits(digits: seq<Digit>, exponent: int)
    requires exponent < 0
    ensures Number(digits) == Scaled(Number(digits[..Kept(digits, exponent)]), |digits| - Kept(digits, exponent))
    ensures Kept(digits, exponent) > 0 && Kept(digits, exponent) > |digits| + exponent
            ==> digits[Kept(digits, exponent) - 1] != 0
  {
    var c := Kept(digits, exponent);
    TrimmedWereZeros(digits, |digits|, if |digits| < -exponent then |digits| else -exponent);
    assert digits[..|digits|] == digits;
    NumberWithZeros(digits[..c], |digits| - c);
  }

  /** The digits that are printed, as one number. */
  function PrintedDigits(digits: seq<Digit>, exponent: int): nat {
    Number(Whole(digits, exponent) + Fraction(digits, exponent))
  }

  /** The digits side by side, as they are printed. */
  lemma DigitsInLine(digits: seq<Digit>, exponent: int)
    ensures Whole(digits, exponent) + Fraction(digits, exponent) ==
              if exponent >= 0 then digits + Zeros(exponent)
              else
                var offset, count := |digits| + exponent, Kept(digits, exponent);
                if offset > 0 then digits[..count] else Zeros(if count == 0 then 1 else 1 - offset) + digits[..count]
  {
    if exponent < 0 && |digits| + exponent <= 0 && Kept(digits, exponent) == 0 {
      assert digits[..0] == [];
    }
  }

  lemma PrintedDigitsAre(digits: seq<Digit>, exponent: int)
    ensures PrintedDigits(digits, exponent) ==
              if exponent >= 0 then Scaled(Number(digits), exponent) else Number(digits[..Kept(digits, exponent)])
  {
    DigitsInLine(digits, exponent);
    if exponent >= 0 {
      NumberWithZeros(digits, exponent);
    } else if |digits| + exponent <= 0 {
      var count := Kept(digits, exponent);
      NumberAfterZeros(if count == 0 then 1 else 1 - |digits| - exponent, digits[..count]);
    }
  }

  lemma FractionLength(digits: seq<Digit>, exponent: int)
    ensures |Fraction(digits, exponent)| ==
              if exponent >= 0 || (|digits| + exponent <= 0 && Kept(digits, exponent) == 0) then 0
              else Kept(digits, exponent) - |digits| - exponent
  {
  }

  /**
   Printing is exact: the digits that are printed, with the point where it stands, make the same number,
   compared at any scale at which both are whole.
   */
  lemma PrintedIsExact(v: Decimal, scale: nat)
    requires v.exponent + scale >= 0
    ensures var f := |Fraction(v.digits, v.exponent)|;
            Scaled(PrintedDigits(v.digits, v.exponent), scale)
              == Scaled(Scaled(Number(v.digits), v.exponent + scale), f)
  {
    var digits, exponent := v.digits, v.exponent;
    PrintedDigitsAre(digits, exponent);
    FractionLength(digits, exponent);
    if exponent >= 0 {
      ScaledTwice(Number(digits), exponent, scale);
    } else {
      var count, f := Kept(digits, exponent), |Fraction(digits, exponent)|;
      KeptDigits(digits, exponent);
      ScaledTwice(Number(digits[..count]), |digits| - count, exponent + scale);
      if count == 0 {
        ScaledZero(|digits|);
        ScaledZero(scale);
        ScaledZero(exponent + scale);
      } else {
        ScaledTwice(Number(digits[..count]), |digits| - count + exponent + scale, f);
      }
    }
  }

  /** The form is the shortest: no zero ends a fraction, and none leads the digits before the point but a single one. */
  lemma NoTrailingZeros(v: Decimal)
    requires Canonical(v)
    ensures var f := Fraction(v.digits, v.exponent); f != [] ==> f[|f| - 1] != 0
    ensures v.digits[0] != 0 ==> var w := Whole(v.digits, v.exponent); w != [] && (w[0] != 0 || |w| == 1)
  {
    if v.exponent < 0 {
      KeptDigits(v.digits, v.exponent);
    }
  }

  // ----- equal numbers print the same -----

  function Scale(v: Decimal): nat {
    if v.exponent < 0 then -v.exponent else 0
  }

  /** The same number: equal signs, and equal digits at a scale at which both are whole. */
  ghost predicate SameValue(v: Decimal, w: Decimal) {
    && v.negative == w.negative
    && Scaled(Number(v.digits), v.exponent + Scale(v) + Scale(w))
       == Scaled(Number(w.digits), w.exponent + Scale(v) + Scale(w))
  }

  /** Trailing zeros moved into the exponent. */
  function Stripped(v: Decimal): (r: Decimal)
    requires Canonical(v)
    ensures Canonical(r) && r.negative == v.negative && r.exponent >= v.exponent
    ensures v.digits[0] != 0 ==> r.digits[|r.digits| - 1] != 0 && r.digits[0] == v.digits[0]
    decreases |v.digits|
  {
    if |v.digits| > 1 && v.digits[|v.digits| - 1] == 0 then
      Stripped(Decimal(v.negative, v.digits[..|v.digits| - 1], v.exponent + 1))
    else v
  }

  lemma TrimmedShorter(digits: seq<Digit>, count: nat, fractional: nat)
    requires fractional <= count < |digits|
    ensures Trimmed(digits[..|digits| - 1], count, fractional) == Trimmed(digits, count, fractional)
  {
  }

  lemma KeptMoves(digits: seq<Digit>, exponent: int)
    requires |digits| > 1 && digits[|digits| - 1] == 0 && exponent < 0
    ensures Kept(digits, exponent) == if exponent < -1 then Kept(digits[..|digits| - 1], exponent + 1) else |digits| - 1
  {
    if exponent < -1 {
      TrimmedShorter(digits, |digits| - 1, if |digits| < -exponent then |digits| - 1 else -exponent - 1);
    }
  }

  lemma FewerDigits(digits: seq<Digit>, i: nat, j: nat)
    requires digits != [] && i <= j < |digits|
    ensures digits[..|digits| - 1][i..j] == digits[i..j] && digits[..|digits| - 1][..j] == digits[..j]
  {
  }

  lemma {:induction false} ZeroMoves(digits: seq<Digit>, exponent: int)
    requires |digits| > 1 && digits[|digits| - 1] == 0
    ensures Whole(digits, exponent) == Whole(digits[..|digits| - 1], exponent + 1)
    ensures Fraction(digits, exponent) == Fraction(digits[..|digits| - 1], exponent + 1)
  {
    var fewer := digits[..|digits| - 1];
    if exponent >= 0 {
      assert digits == fewer + [0] && [0] + Zeros(exponent) == Zeros(exponent + 1);
      assert fewer + ([0] + Zeros(exponent)) == fewer + [0] + Zeros(exponent);
    } else {
      KeptMoves(digits, exponent);
      var offset, count := |digits| + exponent, Kept(digits, exponent);
      if exponent == -1 {
        assert fewer + Zeros(0) == fewer;
      } else if offset > 0 {
        FewerDigits(digits, offset, count);
        FewerDigits(digits, 0, offset);
      } else {
        FewerDigits(digits, 0, count);
      }
    }
  }

  lemma {:induction false} StrippedPrintsSame(v: Decimal)
    requires Canonical(v)
    ensures Printed(Stripped(v)) == Printed(v)
    decreases |v.digits|
  {
    if |v.digits| > 1 && v.digits[|v.digits| - 1] == 0 {
      ZeroMoves(v.digits, v.exponent);
      StrippedPrintsSame(Decimal(v.negative, v.digits[..|v.digits| - 1], v.exponent + 1));
    }
  }

  lemma {:induction false} StrippedIsSame(v: Decimal, scale: nat)
    requires Canonical(v) && v.exponent + scale >= 0
    ensures Scaled(Number(Stripped(v).digits), Stripped(v).exponent + scale)
            == Scaled(Number(v.digits), v.exponent + scale)
    decreases |v.digits|
  {
    if |v.digits| > 1 && v.digits[|v.digits| - 1] == 0 {
      StrippedIsSame(Decimal(v.negative, v.digits[..|v.digits| - 1], v.exponent + 1), scale);
    }
  }

  lemma {:induction false} NumberFixesDigits(a: seq<Digit>, b: seq<Digit>)
    requires a != [] && b != [] && a[0] != 0 && b[0] != 0 && Number(a) == Number(b)
    ensures a == b
    decreases a
  {
    var a', b' := a[..|a| - 1], b[..|b| - 1];
    assert Number(a') == Number(b') && a[|a| - 1] == b[|b| - 1];
    if a' == [] {
      NumberIsPositive(b');
    } else if b' == [] {
      NumberIsPositive(a');
    } else {
      NumberFixesDigits(a', b');
      assert a == a' + [a[|a| - 1]] && b == b' + [b[|b| - 1]];
    }
  }

  lemma {:induction false} NumberIsPositive(digits: seq<Digit>)
    ensures digits != [] && digits[0] != 0 ==> Number(digits) > 0
  {
    if |digits| > 1 {
      NumberIsPositive(digits[..|digits| - 1]);
    }
  }

  lemma {:induction false} SameScaled(m: nat, a: nat, n: nat, b: nat)
    requires m % 10 != 0 && n % 10 != 0 && Scaled(m, a) == Scaled(n, b)
    ensures m == n && a == b
    decreases a + b
  {
    if a == 0 && b > 0 {
      ScaledOnce(n, b - 1);
    } else if b == 0 && a > 0 {
      ScaledOnce(m, a - 1);
    } else if a > 0 {
      ScaledOnce(m, a - 1);
      ScaledOnce(n, b - 1);
      SameScaled(m, a - 1, n, b - 1);
    }
  }

  lemma {:induction false} Unscaled(x: nat, y: nat, e: nat)
    requires Scaled(x, e) == Scaled(y, e)
    ensures x == y
    decreases e
  {
    if e > 0 {
      Unscaled(10 * x, 10 * y, e - 1);
    }
  }

  lemma LastDigit(digits: seq<Digit>)
    requires digits != []
    ensures Number(digits) % 10 == digits[|digits| - 1]
  {
  }

  /** The zeros that are printed after the first digit of a zero. */
  function MoreZeros(v: Decimal): nat {
    if v.exponent < 0 then 0 else v.exponent
  }

  /** Two numbers print the same exactly when they are equal, and have equally many zeros if they are zero. */
  lemma PrintsSameIff(v: Decimal, w: Decimal)
    requires Canonical(v) && Canonical(w)
    ensures Printed(v) == Printed(w) <==> SameValue(v, w) && (v.digits == [0] ==> MoreZeros(v) == MoreZeros(w))
  {
    if Printed(v) == Printed(w) {
      SamePrintHasSameValue(v, w);
    }
    if SameValue(v, w) {
      ZeroIsZero(v, w);
      if v.digits[0] != 0 {
        SameValuePrintsSame(v, w);
      } else {
        ZeroParts(v);
        ZeroParts(w);
        ReadPrinted(v);
        ReadPrinted(w);
      }
    }
  }

  /** Only zero is equal to zero. */
  lemma ZeroIsZero(v: Decimal, w: Decimal)
    requires Canonical(v) && Canonical(w) && SameValue(v, w)
    ensures v.digits[0] == 0 <==> w.digits[0] == 0
    ensures v.digits[0] == 0 ==> v.digits == w.digits == [0]
  {
    NumberZero(v.digits);
    NumberZero(w.digits);
    var scale := Scale(v) + Scale(w);
    ScaledZero(v.exponent + scale);
    ScaledZero(w.exponent + scale);
    if v.digits[0] == 0 {
      Unscaled(Number(w.digits), 0, w.exponent + scale);
    }
    if w.digits[0] == 0 {
      Unscaled(Number(v.digits), 0, v.exponent + scale);
    }
  }

  lemma NumberZero(digits: seq<Digit>)
    requires digits != [] && (digits[0] != 0 || |digits| == 1)
    ensures Number(digits) == 0 <==> digits == [0]
  {
    NumberIsPositive(digits);
    if |digits| == 1 {
      assert digits == [digits[0]] && digits[..0] == [];
    }
  }

  lemma ZeroParts(v: Decimal)
    requires v.digits == [0]
    ensures Whole(v.digits, v.exponent) == Zeros(1 + MoreZeros(v)) && Fraction(v.digits, v.exponent) == []
  {
    if v.exponent >= 0 {
      assert [0] + Zeros(v.exponent) == Zeros(1 + v.exponent);
    } else {
      assert [0] == Zeros(1);
    }
  }

  lemma SameValuePrintsSame(v: Decimal, w: Decimal)
    requires Canonical(v) && Canonical(w) && v.digits[0] != 0 && w.digits[0] != 0 && SameValue(v, w)
    ensures Printed(v) == Printed(w)
  {
    var scale := Scale(v) + Scale(w);
    StrippedIsSame(v, scale);
    StrippedIsSame(w, scale);
    SameStripped(Stripped(v), Stripped(w), scale);
    StrippedPrintsSame(v);
    StrippedPrintsSame(w);
  }

  /** Without zeros at either end, digits and exponent are fixed by the number. */
  lemma SameStripped(a: Decimal, b: Decimal, scale: nat)
    requires a.digits != [] && a.digits[0] != 0 && a.digits[|a.digits| - 1] != 0 && a.exponent + scale >= 0
    requires b.digits != [] && b.digits[0] != 0 && b.digits[|b.digits| - 1] != 0 && b.exponent + scale >= 0
    requires a.negative == b.negative
    requires Scaled(Number(a.digits), a.exponent + scale) == Scaled(Number(b.digits), b.exponent + scale)
    ensures a == b
  {
    LastDigit(a.digits);
    LastDigit(b.digits);
    SameScaled(Number(a.digits), a.exponent + scale, Number(b.digits), b.exponent + scale);
    NumberFixesDigits(a.digits, b.digits);
  }

  lemma ReadPrinted(v: Decimal)
    requires Canonical(v)
    ensures Read(Printed(v)) == Reading(v.negative, Whole(v.digits, v.exponent), Fraction(v.digits, v.exponent))
  {
    ReadLexical(v.negative, Whole(v.digits, v.exponent), Fraction(v.digits, v.exponent));
  }

  /** Reading back what was printed gives the sign, and at every scale the number. */
  lemma ReadingPrintedIsExact(v: Decimal, scale: nat)
    requires Canonical(v) && v.exponent + scale >= 0
    ensures var r := Read(Printed(v));
            && r.negative == v.negative
            && Scaled(Number(r.whole + r.fraction), scale)
               == Scaled(Scaled(Number(v.digits), v.exponent + scale), |r.fraction|)
  {
    ReadPrinted(v);
    PrintedIsExact(v, scale);
  }

  lemma SamePrintHasSameValue(v: Decimal, w: Decimal)
    requires Canonical(v) && Canonical(w) && Printed(v) == Printed(w)
    ensures SameValue(v, w)
  {
    ReadPrinted(v);
    ReadPrinted(w);
    SameReadingHasSameValue(v, w);
  }

  lemma SameReadingHasSameValue(v: Decimal, w: Decimal)
    requires v.negative == w.negative && Whole(v.digits, v.exponent) == Whole(w.digits, w.exponent)
    requires Fraction(v.digits, v.exponent) == Fraction(w.digits, w.exponent)
    ensures SameValue(v, w)
  {
    var scale := Scale(v) + Scale(w);
    assert PrintedDigits(v.digits, v.exponent) == PrintedDigits(w.digits, w.exponent);
    PrintedIsExact(v, scale);
    PrintedIsExact(w, scale);
    Unscaled(Scaled(Number(v.digits), v.exponent + scale), Scaled(Number(w.digits), w.exponent + scale),
             |Fraction(v.digits, v.exponent)|);
  }

  /** Zeros are equal whatever their exponents, but a positive exponent keeps all its zeros. */
  lemma ZeroHasManyForms(negative: bool, n: nat)
    ensures SameValue(Decimal(negative, [0], 0), Decimal(negative, [0], n))
    ensures Printed(Decimal(negative, [0], n)) == Sign(negative) + Chars(Zeros(n + 1))
  {
    ZeroParts(Decimal(negative, [0], n));
    assert Chars(Zeros(n + 1)) + "" == Chars(Zeros(n + 1));
    NumberZero([0]);
    ScaledZero(n);
  }
}
