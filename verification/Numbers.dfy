/** The texts of numbers and the real numbers they stand for: decimal digits, and
    the layouts of Number::toString (section 6.1.6.1.20 of ECMA-262). */
module Numbers {

  function DigitChar(d: nat): char
    requires d < 16
  {
    "0123456789abcdef"[d]
  }

  function NatText(n: nat): string {
    if n < 10 then [DigitChar(n)] else NatText(n / 10) + [DigitChar(n % 10)]
  }

  lemma {:induction false} NatTextDigits(n: nat)
    ensures NatText(n) != []
    ensures forall i :: 0 <= i < |NatText(n)| ==> '0' <= NatText(n)[i] <= '9'
    ensures DigitsValue(NatText(n)) == n
  {
    if n >= 10 {
      NatTextDigits(n / 10);
      var s := NatText(n);
      assert s[..|s| - 1] == NatText(n / 10);
    } else {
      assert NatText(n)[..0] == [];
    }
  }

  // ---------------------------------------------------------------------
  // Reading a text
  // ---------------------------------------------------------------------

  function Digit(c: char): int {
    (c as int) - ('0' as int)
  }

  /** The digits of `s` read in base ten. */
  function DigitsValue(s: string): int {
    if s == [] then 0 else 10 * DigitsValue(s[..|s| - 1]) + Digit(s[|s| - 1])
  }

  function PowerOfTen(n: nat): real
    ensures PowerOfTen(n) >= 1.0
  {
    if n == 0 then 1.0 else 10.0 * PowerOfTen(n - 1)
  }

  function ScaleByTen(x: real, e: int): real {
    if e >= 0 then x * PowerOfTen(e) else x / PowerOfTen(-e)
  }

  /** The index of the first `c` in `s`, or `|s|`. */
  function IndexOf(s: string, c: char): (i: nat)
    ensures i <= |s|
  {
    if s == [] || s[0] == c then 0 else 1 + IndexOf(s[1..], c)
  }

  function SignedInteger(s: string): int {
    if s == [] then 0
    else if s[0] == '-' then -DigitsValue(s[1..])
    else if s[0] == '+' then DigitsValue(s[1..])
    else DigitsValue(s)
  }

  /** The real number a finite number's text `[-]d[.d][e±d]` denotes. */
  function RealOf(s: string): real {
    if s != [] && s[0] == '-' then -RealOf(s[1..])
    else
      var e := IndexOf(s, 'e');
      var exponent := if e < |s| then SignedInteger(s[e + 1..]) else 0;
      var mantissa := s[..e];
      var p := IndexOf(mantissa, '.');
      var fraction := if p < |mantissa| then mantissa[p + 1..] else [];
      var whole := ScaleByTen(DigitsValue(fraction) as real, -|fraction|) + DigitsValue(mantissa[..p]) as real;
      ScaleByTen(whole, exponent)
  }

  // ---------------------------------------------------------------------
  // The numbers and their texts
  // ---------------------------------------------------------------------

  /** A positive number as its significant digits and the position of the point: it
      is `0.d1...dk` times ten to the power of `point`. */
  datatype Decimal = Decimal(digits: seq<nat>, point: int)
  {
    predicate Normal() {
      && digits != [] && digits[0] != 0 && digits[|digits| - 1] != 0
      && forall i :: 0 <= i < |digits| ==> digits[i] < 10
    }

    ghost function Value(): real {
      ScaleByTen(Weighed(digits) as real, point - |digits|)
    }
  }

  /** Every digit times the power of ten of its place. */
  function Weighed(digits: seq<nat>): nat {
    if digits == [] then 0 else digits[0] * TenTo(|digits| - 1) + Weighed(digits[1..])
  }

  function TenTo(n: nat): (r: nat)
    ensures r >= 1
  {
    if n == 0 then 1 else 10 * TenTo(n - 1)
  }

  predicate AreDigits(digits: seq<nat>) {
    forall i :: 0 <= i < |digits| ==> digits[i] < 10
  }

  function DigitsText(digits: seq<nat>): (s: string)
    requires AreDigits(digits)
    ensures |s| == |digits|
  {
    seq(|digits|, i requires 0 <= i < |digits| => DigitChar(digits[i]))
  }

  function Zeros(n: nat): seq<nat> {
    seq(n, i => 0)
  }

  function ExponentText(e: int): string {
    "e" + (if e < 0 then "-" + NatText(-e) else "+" + NatText(e))
  }

  /** The five layouts of Number::toString. */
  function DecimalText(d: Decimal): string
    requires d.Normal()
  {
    var k, n := |d.digits|, d.point;
    if k <= n <= 21 then DigitsText(d.digits + Zeros(n - k))
    else if 0 < n <= 21 then DigitsText(d.digits[..n]) + "." + DigitsText(d.digits[n..])
    else if -6 < n <= 0 then "0." + DigitsText(Zeros(-n) + d.digits)
    else if k == 1 then DigitsText(d.digits) + ExponentText(n - 1)
    else DigitsText(d.digits[..1]) + "." + DigitsText(d.digits[1..]) + ExponentText(n - 1)
  }

  function SignText(negative: bool): string {
    if negative then "-" else ""
  }

  /** `s` is the text of the finite number `r`. Zero has two texts. */
  ghost predicate Denotes(s: string, r: real) {
    || ((s == "0" || s == "-0") && r == 0.0)
    || exists negative, d: Decimal :: DenotesDecimal(s, r, negative, d)
  }

  ghost predicate DenotesDecimal(s: string, r: real, negative: bool, d: Decimal) {
    d.Normal() && s == SignText(negative) + DecimalText(d) && r == if negative then -d.Value() else d.Value()
  }

  ghost predicate IsNumberText(s: string) {
    s == "NaN" || s == "Infinity" || s == "-Infinity" || exists r :: Denotes(s, r)
  }

  // ---------------------------------------------------------------------
  // Reading the digits
  // ---------------------------------------------------------------------

  lemma {:induction false} WeighedConcat(a: seq<nat>, b: seq<nat>)
    ensures Weighed(a + b) == Weighed(a) * TenTo(|b|) + Weighed(b)
  {
    if a == [] {
      assert a + b == b;
    } else {
      assert (a + b)[1..] == a[1..] + b;
      WeighedConcat(a[1..], b);
      TenToSum(|a| - 1, |b|);
      Distribute(a[0], TenTo(|a| - 1), Weighed(a[1..]), TenTo(|b|));
    }
  }

  lemma Distribute(d: nat, t: nat, w: nat, m: nat)
    ensures (d * t + w) * m == d * (t * m) + w * m
  {
  }

  lemma {:induction false} TenToSum(m: nat, n: nat)
    ensures TenTo(m + n) == TenTo(m) * TenTo(n)
  {
    if m > 0 {
      TenToSum(m - 1, n);
    }
  }

  lemma {:induction false} WeighedZeros(n: nat)
    ensures Weighed(Zeros(n)) == 0
  {
    if n > 0 {
      assert Zeros(n)[1..] == Zeros(n - 1);
      WeighedZeros(n - 1);
    }
  }

  lemma WeighedOne(d: nat)
    ensures Weighed([d]) == d && TenTo(1) == 10
  {
    assert [d][1..] == [];
    assert TenTo(1) == 10 * TenTo(0);
  }

  lemma WeighedLast(ds: seq<nat>)
    requires ds != []
    ensures Weighed(ds) == 10 * Weighed(ds[..|ds| - 1]) + ds[|ds| - 1]
  {
    hide Weighed, TenTo;
    var init, last := ds[..|ds| - 1], [ds[|ds| - 1]];
    assert ds == init + last;
    WeighedConcat(init, last);
    WeighedOne(ds[|ds| - 1]);
  }

  lemma {:induction false} DigitsTextValue(ds: seq<nat>)
    requires AreDigits(ds)
    ensures DigitsValue(DigitsText(ds)) == Weighed(ds)
  {
    if ds != [] {
      var init, s := ds[..|ds| - 1], DigitsText(ds);
      DigitsTextValue(init);
      WeighedLast(ds);
      assert s[..|s| - 1] == DigitsText(init);
      assert s[|s| - 1] == DigitChar(ds[|ds| - 1]);
    }
  }

  // ---------------------------------------------------------------------
  // Powers of ten
  // ---------------------------------------------------------------------

  ghost function Power(e: int): real {
    ScaleByTen(1.0, e)
  }

  lemma {:induction false} PowerOfTenIs(n: nat)
    ensures PowerOfTen(n) == TenTo(n) as real
  {
    if n > 0 {
      PowerOfTenIs(n - 1);
    }
  }

  lemma ScaleIs(x: real, e: int)
    ensures ScaleByTen(x, e) == x * Power(e) && Power(e) > 0.0
  {
    if e < 0 {
      Quotient(x, PowerOfTen(-e));
    }
  }

  lemma Quotient(x: real, y: real)
    requires y >= 1.0
    ensures x / y == x * (1.0 / y) && 1.0 / y > 0.0
  {
  }

  lemma PowerNext(e: int)
    ensures Power(e + 1) == 10.0 * Power(e)
  {
    if e < 0 {
      var p := PowerOfTen(-e - 1);
      assert PowerOfTen(-e) == 10.0 * p;
      Tenth(p);
      assert e == -1 ==> PowerOfTen(0) == 1.0;
    }
  }

  lemma Tenth(p: real)
    requires p >= 1.0
    ensures 1.0 / p == 10.0 * (1.0 / (10.0 * p))
  {
    var q := 1.0 / (10.0 * p);
    assert q * (10.0 * p) == 1.0;
    assert (10.0 * q) * p == 1.0;
  }

  lemma {:induction false} PowerSum(a: int, b: int)
    ensures Power(a + b) == Power(a) * Power(b)
    decreases if a < 0 then -a else a
  {
    hide Power, ScaleByTen;
    PowerZero();
    if a > 0 {
      PowerSum(a - 1, b);
      PowerNext(a - 1 + b);
      PowerNext(a - 1);
      TimesTen(Power(a - 1), Power(b));
    } else if a < 0 {
      PowerSum(a + 1, b);
      PowerNext(a + b);
      PowerNext(a);
      TimesTen(Power(a), Power(b));
    }
  }

  lemma PowerZero()
    ensures Power(0) == 1.0
  {
  }

  lemma TimesTen(x: real, y: real)
    ensures (10.0 * x) * y == 10.0 * (x * y)
  {
  }

  lemma ScaleTwice(x: real, a: int, b: int)
    ensures ScaleByTen(ScaleByTen(x, a), b) == ScaleByTen(x, a + b)
  {
    hide ScaleByTen, Power;
    ScaleIs(x, a);
    ScaleIs(ScaleByTen(x, a), b);
    ScaleIs(x, a + b);
    PowerSum(a, b);
    Regroup(x, Power(a), Power(b));
  }

  lemma Regroup(x: real, y: real, z: real)
    ensures x * y * z == x * (y * z)
  {
  }

  // ---------------------------------------------------------------------
  // Reading a layout
  // ---------------------------------------------------------------------

  lemma {:induction false} IndexFound(a: string, c: char, b: string)
    requires c !in a
    ensures IndexOf(a + [c] + b, c) == |a| && IndexOf(a, c) == |a|
  {
    var s := a + [c] + b;
    if a != [] {
      assert s[1..] == a[1..] + [c] + b && s[0] == a[0];
      IndexFound(a[1..], c, b);
    }
  }

  lemma DigitsOnly(ds: seq<nat>)
    requires AreDigits(ds)
    ensures forall i :: 0 <= i < |ds| ==> '0' <= DigitsText(ds)[i] <= '9'
    ensures 'e' !in DigitsText(ds) && '.' !in DigitsText(ds)
  {
  }

  /** What comes before an exponent, read. */
  ghost function MantissaValue(m: string): real {
    var p := IndexOf(m, '.');
    var fraction := if p < |m| then m[p + 1..] else [];
    ScaleByTen(DigitsValue(fraction) as real, -|fraction|) + DigitsValue(m[..p]) as real
  }

  lemma WholeValue(ds: seq<nat>)
    requires AreDigits(ds)
    ensures MantissaValue(DigitsText(ds)) == Weighed(ds) as real
  {
    var m := DigitsText(ds);
    DigitsOnly(ds);
    DigitsTextValue(ds);
    IndexFound(m, '.', "");
    assert m[..|m|] == m;
  }

  lemma PointValue(a: seq<nat>, b: seq<nat>)
    requires AreDigits(a) && AreDigits(b)
    ensures MantissaValue(DigitsText(a) + "." + DigitsText(b)) == ScaleByTen(Weighed(a + b) as real, -|b|)
  {
    var x, y := DigitsText(a), DigitsText(b);
    var m := x + "." + y;
    DigitsOnly(a);
    DigitsTextValue(a);
    DigitsTextValue(b);
    IndexFound(x, '.', y);
    assert m[..|x|] == x && m[|x| + 1..] == y;
    WeighedConcat(a, b);
    AddFraction(Weighed(a), Weighed(b), |b|);
  }

  lemma AddFraction(a: nat, b: nat, n: int)
    requires n >= 0
    ensures ScaleByTen(b as real, -n) + a as real == ScaleByTen((a * TenTo(n) + b) as real, -n)
  {
    hide ScaleByTen, Power;
    var p, q, x, y := TenTo(n) as real, Power(-n), a as real, b as real;
    TenPower(n);
    ScaleIs(y, -n);
    ScaleIs((a * TenTo(n) + b) as real, -n);
    assert (a * TenTo(n) + b) as real == x * p + y;
    Spread(x, p, y, q);
  }

  lemma TenPower(n: int)
    requires n >= 0
    ensures TenTo(n) as real * Power(-n) == 1.0 && Power(n) == TenTo(n) as real
  {
    PowerOfTenIs(n);
    PowerSum(n, -n);
  }

  lemma Spread(x: real, p: real, y: real, q: real)
    requires p * q == 1.0
    ensures (x * p + y) * q == x + y * q
  {
    Regroup(x, p, q);
  }

  /** Without an exponent. */
  lemma PlainReads(m: string)
    requires m != [] && m[0] != '-' && 'e' !in m
    ensures RealOf(m) == MantissaValue(m)
  {
    IndexFound(m, 'e', "");
    assert m[..|m|] == m;
  }

  /** The sign and the digits of an exponent. */
  function ExponentTail(e: int): string {
    if e < 0 then "-" + NatText(-e) else "+" + NatText(e)
  }

  lemma TailReads(e: int)
    ensures SignedInteger(ExponentTail(e)) == e
  {
    hide DigitsValue, NatText;
    NatTextDigits(if e < 0 then -e else e);
    assert ExponentTail(e)[1..] == NatText(if e < 0 then -e else e);
  }

  lemma ExponentReads(m: string, e: int)
    requires m != [] && m[0] != '-' && 'e' !in m
    ensures RealOf(m + ExponentText(e)) == ScaleByTen(MantissaValue(m), e)
  {
    hide ScaleByTen, DigitsValue, IndexOf, ExponentTail, SignedInteger, ExponentText;
    var s := m + ExponentText(e);
    ExponentIs(e);
    Divided(m, ExponentTail(e));
    assert s == m + "e" + ExponentTail(e);
    TailReads(e);
    assert s[0] == m[0];
  }

  lemma Divided(m: string, tail: string)
    requires 'e' !in m
    ensures var s := m + "e" + tail; IndexOf(s, 'e') == |m| && |m| < |s| && s[..|m|] == m && s[|m| + 1..] == tail
  {
    IndexFound(m, 'e', tail);
  }

  lemma ExponentIs(e: int)
    ensures ExponentText(e) == "e" + ExponentTail(e)
  {
  }

  /** The text `m` has no exponent, and reads as `r`. */
  ghost predicate Mantissa(m: string, r: real) {
    m != [] && m[0] != '-' && 'e' !in m && MantissaValue(m) == r
  }

  lemma WholeMantissa(ds: seq<nat>)
    requires AreDigits(ds) && ds != []
    ensures Mantissa(DigitsText(ds), Weighed(ds) as real)
  {
    DigitsOnly(ds);
    WholeValue(ds);
  }

  lemma PointMantissa(a: seq<nat>, b: seq<nat>)
    requires AreDigits(a) && AreDigits(b) && a != []
    ensures Mantissa(DigitsText(a) + "." + DigitsText(b), ScaleByTen(Weighed(a + b) as real, -|b|))
  {
    hide ScaleByTen, MantissaValue;
    DigitsOnly(a);
    DigitsOnly(b);
    PointValue(a, b);
  }

  lemma PadRight(ds: seq<nat>, n: nat)
    requires AreDigits(ds)
    ensures Weighed(ds + Zeros(n)) as real == ScaleByTen(Weighed(ds) as real, n)
  {
    hide Weighed;
    WeighedConcat(ds, Zeros(n));
    WeighedZeros(n);
    PowerOfTenIs(n);
    var w, m := Weighed(ds), TenTo(n);
    assert Weighed(ds + Zeros(n)) == w * m;
    assert (w * m) as real == w as real * m as real;
  }

  lemma PadLeft(ds: seq<nat>, n: nat)
    ensures Weighed([0] + (Zeros(n) + ds)) == Weighed(ds)
  {
    WeighedConcat(Zeros(n), ds);
    WeighedZeros(n);
    assert ([0] + (Zeros(n) + ds))[1..] == Zeros(n) + ds;
  }

  /** Reading the text of a number gives the number. */
  lemma DecimalReads(d: Decimal)
    requires d.Normal()
    ensures RealOf(DecimalText(d)) == d.Value() && DecimalText(d) != [] && DecimalText(d)[0] != '-'
  {
    hide ScaleByTen, RealOf, Weighed, DigitsText, MantissaValue, PowerOfTen, AreDigits, ExponentText, Zeros;
    var ds, k, n := d.digits, |d.digits|, d.point;
    NormalDigits(d);
    if k <= n <= 21 {
      WholeReads(ds, n - k);
    } else if 0 < n <= 21 {
      Halves(ds, n);
      PointReads(ds[..n], ds[n..]);
    } else if -6 < n <= 0 {
      LeadingZeros(ds, -n);
      PointReads([0], Zeros(-n) + ds);
      PadLeft(ds, -n);
    } else if k == 1 {
      OneDigitReads(ds, n - 1);
    } else {
      Halves(ds, 1);
      ScientificReads(ds[..1], ds[1..], n - 1);
    }
  }

  lemma NormalDigits(d: Decimal)
    requires d.Normal()
    ensures AreDigits(d.digits) && d.digits != []
  {
  }

  lemma WholeReads(ds: seq<nat>, zeros: nat)
    requires AreDigits(ds) && ds != []
    ensures AreDigits(ds + Zeros(zeros))
    ensures var m := DigitsText(ds + Zeros(zeros)); m != [] && m[0] != '-' && RealOf(m) == ScaleByTen(Weighed(ds) as real, zeros)
  {
    hide ScaleByTen, RealOf, Weighed, DigitsText, MantissaValue;
    WholeMantissa(ds + Zeros(zeros));
    PadRight(ds, zeros);
    PlainReads(DigitsText(ds + Zeros(zeros)));
  }

  lemma OneDigitReads(ds: seq<nat>, e: int)
    requires AreDigits(ds) && ds != []
    ensures var m := DigitsText(ds); m != [] && m[0] != '-' && RealOf(m + ExponentText(e)) == ScaleByTen(Weighed(ds) as real, e)
  {
    hide ScaleByTen, RealOf, Weighed, DigitsText, MantissaValue, ExponentText;
    WholeMantissa(ds);
    ExponentReads(DigitsText(ds), e);
  }

  /** Digits before and after the point. */
  lemma PointReads(a: seq<nat>, b: seq<nat>)
    requires AreDigits(a) && AreDigits(b) && a != []
    ensures var m := DigitsText(a) + "." + DigitsText(b);
      m != [] && m[0] != '-' && RealOf(m) == ScaleByTen(Weighed(a + b) as real, -|b|)
  {
    PointMantissa(a, b);
    hide AreDigits, ScaleByTen, RealOf, Weighed, DigitsText, MantissaValue;
    PlainReads(DigitsText(a) + "." + DigitsText(b));
  }

  /** With an exponent. */
  lemma ScientificReads(a: seq<nat>, b: seq<nat>, e: int)
    requires AreDigits(a) && AreDigits(b) && a != []
    ensures var m := DigitsText(a) + "." + DigitsText(b);
      m != [] && m[0] != '-' && RealOf(m + ExponentText(e)) == ScaleByTen(Weighed(a + b) as real, -|b| + e)
  {
    PointMantissa(a, b);
    ShiftedReads(DigitsText(a) + "." + DigitsText(b), Weighed(a + b) as real, -|b|, e);
  }

  lemma ShiftedReads(m: string, w: real, shift: int, e: int)
    requires Mantissa(m, ScaleByTen(w, shift))
    ensures m != [] && m[0] != '-' && RealOf(m + ExponentText(e)) == ScaleByTen(w, shift + e)
  {
    hide ScaleByTen, RealOf, MantissaValue, ExponentText;
    ExponentReads(m, e);
    ScaleTwice(w, shift, e);
  }

  lemma Halves(ds: seq<nat>, n: nat)
    requires AreDigits(ds) && 0 < n < |ds|
    ensures AreDigits(ds[..n]) && AreDigits(ds[n..]) && ds[..n] != [] && ds[..n] + ds[n..] == ds && |ds[n..]| == |ds| - n
  {
  }

  lemma LeadingZeros(ds: seq<nat>, zeros: int)
    requires AreDigits(ds) && zeros >= 0
    ensures AreDigits(Zeros(zeros) + ds) && AreDigits([0]) && |Zeros(zeros) + ds| == zeros + |ds|
    ensures "0." + DigitsText(Zeros(zeros) + ds) == DigitsText([0]) + "." + DigitsText(Zeros(zeros) + ds)
  {
    ZeroText();
  }

  lemma ZeroText()
    ensures DigitsText([0]) == "0"
  {
  }

  lemma ZeroReads()
    ensures RealOf("0") == 0.0 && RealOf("-0") == 0.0
  {
    assert DigitsText([0]) == "0" && Weighed([0]) == 0;
    WholeValue([0]);
    PlainReads("0");
    assert "-0"[1..] == "0";
  }

  lemma SignReads(s: string)
    ensures RealOf("-" + s) == -RealOf(s)
  {
    assert ("-" + s)[1..] == s;
  }

  lemma SignedReads(s: string, r: real, negative: bool, d: Decimal)
    requires DenotesDecimal(s, r, negative, d)
    ensures RealOf(s) == r
  {
    hide RealOf, DecimalText, ScaleByTen;
    DecimalReads(d);
    SignReads(DecimalText(d));
    assert "" + DecimalText(d) == DecimalText(d);
  }

  /** A text denotes one number, the one it is read as. */
  lemma DenotedIsRead(s: string, r: real)
    requires Denotes(s, r)
    ensures RealOf(s) == r
  {
    hide RealOf, DenotesDecimal;
    if (s == "0" || s == "-0") && r == 0.0 {
      ZeroReads();
    } else {
      var negative, d: Decimal :| DenotesDecimal(s, r, negative, d);
      SignedReads(s, r, negative, d);
    }
  }

  // ---------------------------------------------------------------------
  // Every number has one text
  // ---------------------------------------------------------------------

  lemma {:induction false} WeighedBelow(ds: seq<nat>)
    requires AreDigits(ds)
    ensures Weighed(ds) < TenTo(|ds|)
  {
    if ds != [] {
      WeighedBelow(ds[1..]);
      AtMostNine(ds[0], TenTo(|ds| - 1));
    }
  }

  lemma AtMostNine(d: nat, t: nat)
    requires d < 10
    ensures d * t <= 9 * t && (d > 0 ==> t <= d * t)
  {
  }

  lemma WeighedAbove(ds: seq<nat>)
    requires AreDigits(ds) && ds != [] && ds[0] != 0
    ensures Weighed(ds) >= TenTo(|ds| - 1)
  {
    AtMostNine(ds[0], TenTo(|ds| - 1));
  }

  lemma {:induction false} PowerGrows(a: int, b: int)
    requires a <= b
    ensures Power(a) <= Power(b)
    decreases b - a
  {
    hide Power, ScaleByTen;
    if a < b {
      PowerGrows(a, b - 1);
      PowerNext(b - 1);
      ScaleIs(1.0, b - 1);
    }
  }

  /** The position of the point says how large a number is. */
  lemma Magnitude(d: Decimal)
    requires d.Normal()
    ensures Power(d.point - 1) <= d.Value() < Power(d.point)
  {
    hide Power, ScaleByTen, Weighed, TenTo;
    var k, w := |d.digits|, Weighed(d.digits);
    var q := Power(d.point - k);
    WeighedBelow(d.digits);
    WeighedAbove(d.digits);
    ScaleIs(w as real, d.point - k);
    TenPower(k);
    TenPower(k - 1);
    PowerSum(k, d.point - k);
    PowerSum(k - 1, d.point - k);
    Between(TenTo(k - 1) as real, w as real, TenTo(k) as real, q);
  }

  lemma Between(a: real, b: real, c: real, q: real)
    requires a <= b < c && q > 0.0
    ensures a * q <= b * q < c * q
  {
  }

  lemma SamePoint(d: Decimal, e: Decimal)
    requires d.Normal() && e.Normal() && d.Value() == e.Value()
    ensures d.point <= e.point
  {
    hide Power, ScaleByTen;
    Magnitude(d);
    Magnitude(e);
    if d.point > e.point {
      PowerGrows(e.point, d.point - 1);
    }
  }

  /** At the same point no digits are missing at the end. */
  lemma SameCount(d: Decimal, e: Decimal)
    requires d.Normal() && e.Normal() && d.Value() == e.Value() && d.point == e.point
    ensures |d.digits| >= |e.digits|
  {
    hide Power, ScaleByTen, Weighed, TenTo;
    var k, l, n := |d.digits|, |e.digits|, d.point;
    if k < l {
      var w, p := Weighed(d.digits), TenTo(l - k - 1);
      assert w * (10 * p) == 10 * (w * p);
      TenToNext(l - k);
      WeighedLast(e.digits);
      SameScaled(d, e);
    }
  }

  lemma TenToNext(n: nat)
    requires n > 0
    ensures TenTo(n) == 10 * TenTo(n - 1)
  {
  }

  lemma SameScaled(d: Decimal, e: Decimal)
    requires d.Normal() && e.Normal() && d.Value() == e.Value() && d.point == e.point && |d.digits| <= |e.digits|
    ensures Weighed(d.digits) * TenTo(|e.digits| - |d.digits|) == Weighed(e.digits)
  {
    hide Power, ScaleByTen, Weighed, TenTo;
    var k, l, n := |d.digits|, |e.digits|, d.point;
    var v, w, p := Weighed(d.digits), Weighed(e.digits), TenTo(l - k);
    ScaleIs(v as real, n - k);
    ScaleIs(w as real, n - l);
    TenPower(l - k);
    PowerSum(l - k, n - l);
    Regroup(v as real, p as real, Power(n - l));
    Cancel(v as real * p as real, w as real, Power(n - l));
    assert (v * p) as real == v as real * p as real;
  }

  lemma Cancel(a: real, b: real, q: real)
    requires a * q == b * q && q > 0.0
    ensures a == b
  {
    assert (a - b) * q == 0.0;
  }

  lemma {:induction false} SameDigits(a: seq<nat>, b: seq<nat>)
    requires AreDigits(a) && AreDigits(b) && |a| == |b| && Weighed(a) == Weighed(b)
    ensures a == b
  {
    if a != [] {
      WeighedLast(a);
      WeighedLast(b);
      SameDigits(a[..|a| - 1], b[..|b| - 1]);
      assert a == a[..|a| - 1] + [a[|a| - 1]] && b == b[..|b| - 1] + [b[|b| - 1]];
    }
  }

  lemma OneDecimal(d: Decimal, e: Decimal)
    requires d.Normal() && e.Normal() && d.Value() == e.Value()
    ensures d == e
  {
    hide Power, ScaleByTen;
    SamePoint(d, e);
    SamePoint(e, d);
    SameCount(d, e);
    SameCount(e, d);
    SameScaled(d, e);
    assert TenTo(0) == 1;
    SameDigits(d.digits, e.digits);
  }

  /** A number other than zero has one text. */
  lemma OneText(s: string, t: string, r: real)
    requires Denotes(s, r) && Denotes(t, r) && r != 0.0
    ensures s == t
  {
    hide Power, ScaleByTen, DecimalText;
    var a, d: Decimal :| DenotesDecimal(s, r, a, d);
    var b, e: Decimal :| DenotesDecimal(t, r, b, e);
    Positive(d);
    Positive(e);
    OneDecimal(d, e);
  }

  lemma Positive(d: Decimal)
    requires d.Normal()
    ensures d.Value() > 0.0
  {
    hide ScaleByTen;
    Magnitude(d);
    ScaleIs(1.0, d.point - 1);
  }

  /** Zero is denoted by its two texts only. */
  lemma ZeroTexts(s: string)
    requires Denotes(s, 0.0)
    ensures s == "0" || s == "-0"
  {
    hide ScaleByTen, DecimalText;
    if s != "0" && s != "-0" {
      var a, d: Decimal :| DenotesDecimal(s, 0.0, a, d);
      Positive(d);
    }
  }

  // ---------------------------------------------------------------------
  // The characters of a number
  // ---------------------------------------------------------------------

  /** Decimal digits, sign, point, exponent, `Infinity` and `NaN`. */
  const NUMBER_CHARS: string := "0123456789+-.eInfityNa"

  predicate NumberChars(s: string) {
    forall i :: 0 <= i < |s| ==> s[i] in NUMBER_CHARS
  }

  lemma DigitChars(s: string)
    requires forall i :: 0 <= i < |s| ==> '0' <= s[i] <= '9'
    ensures NumberChars(s)
  {
    forall i | 0 <= i < |s| ensures s[i] in NUMBER_CHARS {
      var d := s[i] as int - '0' as int;
      assert NUMBER_CHARS[d] == s[i];
    }
  }

  lemma CharsConcat(s: string, t: string)
    requires NumberChars(s) && NumberChars(t)
    ensures NumberChars(s + t)
  {
    hide NUMBER_CHARS;
  }

  lemma ExponentChars(e: int)
    ensures NumberChars(ExponentText(e))
  {
    hide NUMBER_CHARS, NumberChars, NatText;
    var n := if e < 0 then -e else e;
    NatTextDigits(n);
    DigitChars(NatText(n));
    PointChar();
    CharsConcat(if e < 0 then "-" else "+", NatText(n));
    CharsConcat("e", (if e < 0 then "-" else "+") + NatText(n));
  }

  lemma DigitsTextChars(ds: seq<nat>)
    requires AreDigits(ds)
    ensures NumberChars(DigitsText(ds))
  {
    DigitsOnly(ds);
    DigitChars(DigitsText(ds));
  }

  lemma DecimalChars(d: Decimal)
    requires d.Normal()
    ensures NumberChars(DecimalText(d)) && DecimalText(d) != []
  {
    hide NUMBER_CHARS;
    var ds, k, n := d.digits, |d.digits|, d.point;
    PointChar();
    if k <= n <= 21 {
      DigitsTextChars(ds + Zeros(n - k));
    } else if 0 < n <= 21 {
      DigitsTextChars(ds[..n]);
      DigitsTextChars(ds[n..]);
    } else if -6 < n <= 0 {
      DigitsTextChars(Zeros(-n) + ds);
    } else {
      DigitsTextChars(ds);
      DigitsTextChars(ds[..1]);
      DigitsTextChars(ds[1..]);
      ExponentChars(n - 1);
    }
  }

  lemma PointChar()
    ensures NumberChars("e") && NumberChars("+") && NumberChars(".") && NumberChars("-") && NumberChars("0.") && NumberChars("0") && NumberChars("-0")
    ensures NumberChars("NaN") && NumberChars("Infinity") && NumberChars("-Infinity")
  {
  }

  lemma NumberTextChars(s: string)
    requires IsNumberText(s)
    ensures NumberChars(s) && s != []
  {
    hide NUMBER_CHARS, DecimalText;
    PointChar();
    if exists r :: Denotes(s, r) {
      var r :| Denotes(s, r);
      if s != "0" && s != "-0" {
        var negative, d: Decimal :| DenotesDecimal(s, r, negative, d);
        DecimalChars(d);
      }
    }
  }
}
