/** Numbers as the grammar of RFC 8259 section 6 writes them, and the number such a text denotes. */
module JsonNumerals {
  import opened JsonText
  import opened JsonParse
  import opened JsonRoundTrip

  type Digit = d: int | 0 <= d < 10

  datatype Power = NoPower | Power(letter: Char, sign: CString, digits: seq<Digit>)

  datatype Numeral = Numeral(minus: bool, whole: seq<Digit>, fraction: seq<Digit>, exponent: Power)

  // ---- the text of a numeral ---------------------------------------------------------------------

  function DigitChar(d: Digit): Char {
    var n: int := d;
    48 + n
  }

  function DigitText(d: seq<Digit>): (w: CString)
    ensures |w| == |d|
  {
    seq(|d|, k requires 0 <= k < |d| => DigitChar(d[k]))
  }

  function SignText(minus: bool): CString {
    if minus then [MINUS] else []
  }

  function FractionText(d: seq<Digit>): CString {
    if d == [] then [] else [46] + DigitText(d)
  }

  function ExponentText(e: Power): CString {
    if e.NoPower? then [] else [e.letter] + (e.sign + DigitText(e.digits))
  }

  function NumeralText(n: Numeral): CString {
    SignText(n.minus) + (DigitText(n.whole) + (FractionText(n.fraction) + ExponentText(n.exponent)))
  }

  predicate IsExponent(e: Power) {
    e.Power? ==> (e.letter == 101 || e.letter == 69) && (e.sign == [] || e.sign == [43] || e.sign == [MINUS])
  }

  /** A number of the grammar: digits before the point, without a leading zero, and in the exponent. The
      parser also takes one leading zero, a minus without digits and an exponent without digits. */
  predicate IsNumeral(n: Numeral, strict: bool) {
    && IsExponent(n.exponent)
    && if strict then
      && n.whole != [] && (n.whole[0] == 0 ==> |n.whole| == 1)
      && (n.exponent.Power? ==> n.exponent.digits != [])
    else
      && (n.whole == [] ==> n.minus) && (|n.whole| > 1 && n.whole[0] == 0 ==> n.whole[1] != 0)
  }

  /** What may follow a numeral: nothing that continues it. */
  predicate EndsNumeral(n: Numeral, c: int) {
    && EndsNumber(c)
    && (n.exponent.Power? && n.exponent.digits == [] && n.exponent.sign == [] ==> c != 43 && c != MINUS)
  }

  // ---- the number it denotes ---------------------------------------------------------------------

  function Ten(k: nat): real {
    if k == 0 then 1.0 else Ten(k - 1) * 10.0
  }

  lemma {:induction false} TenIsPositive(k: nat)
    ensures Ten(k) > 0.0
  {
    if k > 0 {
      TenIsPositive(k - 1);
    }
  }

  /** Ten to the power e. */
  function TenTo(e: int): real {
    TenIsPositive(if e < 0 then -e else e);
    if e >= 0 then Ten(e) else 1.0 / Ten(-e)
  }

  /** The sum of the digits d[k], each times ten to the power top - k. */
  function PlaceSum(d: seq<Digit>, top: int): real {
    if d == [] then 0.0
    else
      var k := |d| - 1;
      PlaceSum(d[..k], top) + d[k] as real * TenTo(top - k)
  }

  function ExponentValue(e: Power): int {
    if e.NoPower? then 0
    else
      var n := PlaceSum(e.digits, |e.digits| - 1).Floor;
      if e.sign == [MINUS] then -n else n
  }

  function NumeralValue(n: Numeral): real {
    var m := (PlaceSum(n.whole, |n.whole| - 1) + PlaceSum(n.fraction, -1)) * TenTo(ExponentValue(n.exponent));
    if n.minus then -m else m
  }

  // ---- powers of ten -----------------------------------------------------------------------------

  lemma Reciprocal(t: real)
    requires t > 0.0
    ensures 1.0 / t == 10.0 * (1.0 / (t * 10.0))
  {
    var a := 1.0 / (t * 10.0);
    assert a * (t * 10.0) == 1.0;
    assert (10.0 * a) * t == 1.0;
    Quotients(10.0 * a, t);
  }

  lemma Quotients(a: real, t: real)
    requires t > 0.0 && a * t == 1.0
    ensures 1.0 / t == a
  {
  }

  lemma TenToNext(e: int)
    ensures TenTo(e + 1) == 10.0 * TenTo(e)
  {
    if e < 0 {
      TenIsPositive(-e - 1);
      Reciprocal(Ten(-e - 1));
    }
  }

  lemma {:induction false} Power10Is(e: int)
    ensures Power10(e) == TenTo(e)
    decreases if e < 0 then -e else e
  {
    if e > 0 {
      Power10Is(e - 1);
      TenToNext(e - 1);
    } else if e < 0 {
      Power10Is(e + 1);
      TenToNext(e);
    }
  }

  lemma TenfoldProduct(a: real, b: real, c: real)
    requires a * b == c
    ensures a * (10.0 * b) == 10.0 * c
  {
  }

  lemma TenthProduct(a: real, b: real, c: real)
    requires a * (10.0 * b) == 10.0 * c
    ensures a * b == c
  {
    assert a * (10.0 * b) == 10.0 * (a * b);
  }

  lemma {:induction false} TenToSum(a: int, b: int)
    ensures TenTo(a) * TenTo(b) == TenTo(a + b)
    decreases if b < 0 then -b else b
  {
    hide TenTo;
    if b == 0 {
      TenToZero();
    } else if b > 0 {
      TenToSum(a, b - 1);
      TenToNext(b - 1);
      TenToNext(a + b - 1);
      TenfoldProduct(TenTo(a), TenTo(b - 1), TenTo(a + b - 1));
    } else {
      TenToSum(a, b + 1);
      TenToNext(b);
      TenToNext(a + b);
      TenthProduct(TenTo(a), TenTo(b), TenTo(a + b));
    }
  }

  lemma TenToZero()
    ensures TenTo(0) == 1.0 && TenTo(1) == 10.0
  {
    assert Ten(1) == Ten(0) * 10.0;
  }

  // ---- sums of digits ----------------------------------------------------------------------------

  lemma Distributes(a: real, d: real, t: real, u: real, r: real)
    requires t * u == r
    ensures (a + d * t) * u == a * u + d * r
  {
    assert d * t * u == d * (t * u);
  }

  lemma {:induction false} PlaceSumScaled(d: seq<Digit>, top: int, e: int)
    ensures PlaceSum(d, top) * TenTo(e) == PlaceSum(d, top + e)
  {
    hide TenTo;
    if d != [] {
      var k := |d| - 1;
      PlaceSumScaled(d[..k], top, e);
      TenToSum(top - k, e);
      Distributes(PlaceSum(d[..k], top), d[k] as real, TenTo(top - k), TenTo(e), TenTo(top - k + e));
    }
  }

  lemma {:induction false} PlaceSumParts(a: seq<Digit>, b: seq<Digit>, top: int)
    ensures PlaceSum(a + b, top) == PlaceSum(a, top) + PlaceSum(b, top - |a|)
  {
    hide TenTo;
    if b == [] {
      assert a + b == a;
    } else {
      var k := |b| - 1;
      assert (a + b)[..|a| + k] == a + b[..k];
      PlaceSumParts(a, b[..k], top);
    }
  }

  /** One more digit at the end. */
  lemma PlaceSumExtended(p: seq<Digit>, d: Digit)
    ensures PlaceSum(p + [d], |p|) == PlaceSum(p, |p| - 1) * 10.0 + d as real
  {
    hide TenTo;
    TenToZero();
    PlaceSumScaled(p, |p| - 1, 1);
    assert (p + [d])[..|p|] == p;
  }

  // ---- reading digits ----------------------------------------------------------------------------

  lemma DigitAt(s: CString, i: nat, d: seq<Digit>)
    requires Has(s, i, DigitText(d)) && d != []
    ensures i < |s| && s[i] == DigitChar(d[0]) && IsDigit(At(s, i)) && Has(s, i + 1, DigitText(d[1..]))
  {
    assert DigitText(d) == [DigitChar(d[0])] + DigitText(d[1..]);
    HasParts(s, i, [DigitChar(d[0])], DigitText(d[1..]));
    HasAt(s, i, DigitChar(d[0]));
  }

  lemma {:induction false} DigitsAdd(s: CString, i: nat, p: seq<Digit>, d: seq<Digit>)
    requires Has(s, i, DigitText(d)) && !IsDigit(At(s, i + |d|))
    ensures i + |d| <= |s|
    ensures Digits(Exactly(), s, i, PlaceSum(p, |p| - 1)) == (PlaceSum(p + d, |p| + |d| - 1), i + |d|)
    decreases |d|
  {
    hide PlaceSum, Has, DigitText;
    if d == [] {
      assert p + d == p;
      NothingHere(s, i);
    } else {
      DigitAt(s, i, d);
      PlaceSumExtended(p, d[0]);
      assert p + d == p + [d[0]] + d[1..];
      DigitsAdd(s, i + 1, p + [d[0]], d[1..]);
    }
  }

  lemma StrictIsNumeral(n: Numeral)
    requires IsNumeral(n, true)
    ensures IsNumeral(n, false)
  {
  }

  lemma NothingHere(s: CString, i: nat)
    requires Has(s, i, DigitText([]))
    ensures i <= |s|
  {
  }

  lemma {:induction false} IntDigitsAdd(s: CString, i: nat, p: seq<Digit>, n: int, d: seq<Digit>)
    requires Has(s, i, DigitText(d)) && !IsDigit(At(s, i + |d|)) && n as real == PlaceSum(p, |p| - 1)
    ensures i + |d| <= |s| && IntDigits(s, i, n).1 == i + |d|
    ensures IntDigits(s, i, n).0 as real == PlaceSum(p + d, |p| + |d| - 1)
    decreases |d|
  {
    hide PlaceSum, Has, DigitText;
    if d == [] {
      assert p + d == p;
      NothingHere(s, i);
    } else {
      DigitAt(s, i, d);
      PlaceSumExtended(p, d[0]);
      assert p + d == p + [d[0]] + d[1..];
      assert (n * 10 + d[0]) as real == n as real * 10.0 + d[0] as real;
      IntDigitsAdd(s, i + 1, p + [d[0]], n * 10 + d[0], d[1..]);
    }
  }

  // ---- reading a numeral ---------------------------------------------------------------------------

  lemma FromNothing(s: CString, i: nat, d: seq<Digit>)
    requires Has(s, i, DigitText(d)) && !IsDigit(At(s, i + |d|))
    ensures i + |d| <= |s| && Digits(Exactly(), s, i, 0.0) == (PlaceSum(d, |d| - 1), i + |d|)
  {
    DigitsAdd(s, i, [], d);
    assert [] + d == d;
  }

  lemma WholeIsRead(s: CString, i: nat, d: seq<Digit>)
    requires Has(s, i, DigitText(d)) && !IsDigit(At(s, i + |d|)) && (|d| > 1 && d[0] == 0 ==> d[1] != 0)
    ensures i + |d| <= |s| && IntegerPart(Exactly(), s, i) == (PlaceSum(d, |d| - 1), i + |d|)
  {
    hide Digits, DigitText, Has, PlaceSum, IntegerPart, At, IsDigit;
    if d == [] {
      NoDigitsSum();
      NothingHere(s, i);
      NoDigitsHere(s, i);
    } else {
      DigitAt(s, i, d);
      DigitIsZero(d[0]);
      if d[0] == 0 {
        LeadingZero(d);
        BehindZero(s, i, d, d[1..]);
      } else {
        FromNothing(s, i, d);
        FromDigit(s, i);
      }
    }
  }

  lemma DigitIsZero(d: Digit)
    ensures DigitChar(d) == ZERO <==> d == 0
  {
  }

  lemma NoDigitsHere(s: CString, i: nat)
    requires i <= |s| && !IsDigit(At(s, i))
    ensures IntegerPart(Exactly(), s, i) == (0.0, i)
  {
    hide Digits;
  }

  lemma FromDigit(s: CString, i: nat)
    requires i < |s| && IsDigit(At(s, i)) && s[i] != ZERO
    ensures IntegerPart(Exactly(), s, i) == Digits(Exactly(), s, i, 0.0)
  {
    hide Digits;
  }

  lemma ZeroAlone(s: CString, i: nat)
    requires i < |s| && s[i] == ZERO && !IsDigit(At(s, i + 1))
    ensures IntegerPart(Exactly(), s, i) == (0.0, i + 1)
  {
    hide Digits;
  }

  lemma ZeroBefore(s: CString, i: nat)
    requires i + 1 < |s| && s[i] == ZERO && IsDigit(At(s, i + 1)) && s[i + 1] != ZERO
    ensures IntegerPart(Exactly(), s, i) == Digits(Exactly(), s, i + 1, 0.0)
  {
    hide Digits;
  }

  lemma BehindZero(s: CString, i: nat, d: seq<Digit>, rest: seq<Digit>)
    requires i < |s| && s[i] == ZERO && |d| == 1 + |rest| && PlaceSum(d, |d| - 1) == PlaceSum(rest, |d| - 2)
    requires Has(s, i + 1, DigitText(rest)) && !IsDigit(At(s, i + |d|)) && (rest != [] ==> rest[0] != 0)
    ensures i + |d| <= |s| && IntegerPart(Exactly(), s, i) == (PlaceSum(d, |d| - 1), i + |d|)
  {
    hide Digits, DigitText, Has, PlaceSum, IntegerPart, At, IsDigit;
    if rest == [] {
      NoDigitsSum();
      ZeroAlone(s, i);
    } else {
      DigitAt(s, i + 1, rest);
      DigitIsZero(rest[0]);
      FromNothing(s, i + 1, rest);
      ZeroBefore(s, i);
    }
  }

  lemma LeadingZero(d: seq<Digit>)
    requires d != [] && d[0] == 0
    ensures PlaceSum(d, |d| - 1) == PlaceSum(d[1..], |d| - 2)
  {
    hide TenTo;
    var z: seq<Digit> := [0];
    assert d == z + d[1..];
    PlaceSumParts(z, d[1..], |d| - 1);
    assert z[..0] == [];
    assert PlaceSum(z, |d| - 1) == 0.0;
  }

  lemma FractionIsRead(s: CString, i: nat, p: seq<Digit>, f: seq<Digit>)
    requires Has(s, i, FractionText(f)) && !IsDigit(At(s, i + |FractionText(f)|)) && (f == [] ==> At(s, i) != 46)
    ensures i + |FractionText(f)| <= |s|
    ensures Fraction(Exactly(), s, i, PlaceSum(p, |p| - 1)) == (PlaceSum(p + f, |p| + |f| - 1), -|f|, i + |FractionText(f)|)
  {
    hide Digits, DigitText, PlaceSum, Has, Fraction;
    if f == [] {
      FractionEnd(s, i, f);
      assert p + f == p;
      NoFraction(s, i, PlaceSum(p, |p| - 1));
    } else {
      PointAt(s, i, f);
      SomeFraction(s, i, p, f);
    }
  }

  lemma NoFraction(s: CString, i: nat, n: real)
    requires i <= |s| && At(s, i) != 46
    ensures Fraction(Exactly(), s, i, n) == (n, 0, i)
  {
  }

  lemma SomeFraction(s: CString, i: nat, p: seq<Digit>, f: seq<Digit>)
    requires f != [] && Has(s, i + 1, DigitText(f)) && !IsDigit(At(s, i + 1 + |f|))
    requires At(s, i) == 46 && IsDigit(At(s, i + 1))
    ensures i + 1 + |f| <= |s|
    ensures Fraction(Exactly(), s, i, PlaceSum(p, |p| - 1)) == (PlaceSum(p + f, |p| + |f| - 1), -|f|, i + 1 + |f|)
  {
    hide Digits, DigitText, PlaceSum, Has, Fraction, At, IsDigit;
    DigitsAdd(s, i + 1, p, f);
    FractionIs(s, i, PlaceSum(p, |p| - 1), PlaceSum(p + f, |p| + |f| - 1), f);
  }

  lemma PointAt(s: CString, i: nat, f: seq<Digit>)
    requires f != [] && Has(s, i, [46] + DigitText(f))
    ensures i < |s| && At(s, i) == 46 && IsDigit(At(s, i + 1)) && Has(s, i + 1, DigitText(f))
  {
    hide DigitText, Has;
    HasParts(s, i, [46], DigitText(f));
    HasAt(s, i, 46);
    DigitAt(s, i + 1, f);
  }

  lemma FractionEnd(s: CString, i: nat, f: seq<Digit>)
    requires Has(s, i, FractionText(f))
    ensures i + |FractionText(f)| <= |s|
  {
  }

  lemma FractionIs(s: CString, i: nat, n: real, m: real, f: seq<Digit>)
    requires i + 1 + |f| <= |s| && At(s, i) == 46 && IsDigit(At(s, i + 1))
    requires Digits(Exactly(), s, i + 1, n) == (m, i + 1 + |f|)
    ensures Fraction(Exactly(), s, i, n) == (m, -|f|, i + 1 + |f|)
  {
    hide Digits;
  }

  lemma NumberIs(
    s: CString, i: nat, sign: int, j: nat, n: real, k: nat, m: real, scale: int, l: nat, e: int, next: nat)
    requires i < |s| && Signed(i, s) == (sign, j) && j <= |s| && IntegerPart(Exactly(), s, j) == (n, k)
    requires k <= |s| && Fraction(Exactly(), s, k, n) == (m, scale, l) && l <= |s| && Exponent(s, l) == (e, next)
    ensures ParseNumber(Exactly(), s, i) == Ok(Number(Scaled(Exactly(), WithSign(sign, m), scale + e)), next)
  {
    hide IntegerPart, Fraction, Exponent, Scaled, WithSign, Signed;
  }

  lemma ExponentIsRead(s: CString, i: nat, e: Power)
    requires Has(s, i, ExponentText(e)) && IsExponent(e)
    requires !IsDigit(At(s, i + |ExponentText(e)|)) && (e.NoPower? ==> At(s, i) != 101 && At(s, i) != 69)
    requires e.Power? && e.digits == [] && e.sign == [] ==> At(s, i + 1) != 43 && At(s, i + 1) != MINUS
    ensures i + |ExponentText(e)| <= |s|
    ensures Exponent(s, i) == (ExponentValue(e), i + |ExponentText(e)|)
  {
    hide IntDigits, DigitText, PlaceSum;
    if e.Power? {
      HasParts(s, i, [e.letter], e.sign + DigitText(e.digits));
      HasAt(s, i, e.letter);
      HasParts(s, i + 1, e.sign, DigitText(e.digits));
      var j := i + 1 + |e.sign|;
      if e.sign != [] {
        HasAt(s, i + 1, e.sign[0]);
      }
      if e.digits != [] {
        DigitAt(s, j, e.digits);
      }
      NoDigitsSum();
      IntDigitsAdd(s, j, [], 0, e.digits);
      assert [] + e.digits == e.digits;
      var n := IntDigits(s, j, 0).0;
      assert (n as real).Floor == n;
    }
  }

  lemma NoDigitsSum()
    ensures PlaceSum([], -1) == 0.0
  {
  }

  /** What has been added up digit by digit, shifted, is the number denoted. */
  lemma AddsUp(n: Numeral)
    ensures Scaled(Exactly(), WithSign(if n.minus then -1 else 1, PlaceSum(n.whole + n.fraction, |n.whole| + |n.fraction| - 1)),
      -|n.fraction| + ExponentValue(n.exponent)) == NumeralValue(n)
  {
    hide PlaceSum, TenTo, ExponentValue, Power10;
    var w, f, e := n.whole, n.fraction, ExponentValue(n.exponent);
    var m := PlaceSum(w + f, |w| + |f| - 1);
    Power10Is(-|f| + e);
    TenToSum(-|f|, e);
    PlaceSumScaled(w + f, |w| + |f| - 1, -|f|);
    PlaceSumParts(w, f, |w| - 1);
    Associates(m, TenTo(-|f|), TenTo(e), TenTo(-|f| + e));
  }

  lemma Associates(m: real, a: real, b: real, c: real)
    requires a * b == c
    ensures m * c == (m * a) * b && (-m) * c == -((m * a) * b)
  {
  }

  lemma NumeralParts(s: CString, i: nat, n: Numeral)
    requires Has(s, i, NumeralText(n))
    ensures var a := i + |SignText(n.minus)|;
      var b := a + |n.whole|;
      var c := b + |FractionText(n.fraction)|;
      && Has(s, i, SignText(n.minus)) && Has(s, a, DigitText(n.whole)) && Has(s, b, FractionText(n.fraction))
      && Has(s, c, ExponentText(n.exponent)) && i + |NumeralText(n)| == c + |ExponentText(n.exponent)| <= |s|
  {
    hide Has, DigitText, SignText, FractionText, ExponentText;
    var f, e := FractionText(n.fraction), ExponentText(n.exponent);
    HasParts(s, i, SignText(n.minus), DigitText(n.whole) + (f + e));
    var a := i + |SignText(n.minus)|;
    HasParts(s, a, DigitText(n.whole), f + e);
    HasParts(s, a + |n.whole|, f, e);
    HasEnd(s, a + |n.whole| + |f|, e);
  }

  lemma HasEnd(s: CString, i: nat, w: CString)
    requires Has(s, i, w)
    ensures i + |w| <= |s|
  {
  }

  /** What stands behind the parts of a numeral does not continue them. */
  lemma PartsEnd(s: CString, i: nat, n: Numeral)
    requires Has(s, i, NumeralText(n)) && IsNumeral(n, false) && EndsNumeral(n, At(s, i + |NumeralText(n)|))
    ensures var b := i + |SignText(n.minus)| + |n.whole|;
      var c := b + |FractionText(n.fraction)|;
      && !IsDigit(At(s, b)) && (n.fraction == [] ==> At(s, b) != 46)
      && !IsDigit(At(s, c)) && (n.exponent.NoPower? ==> At(s, c) != 101 && At(s, c) != 69)
      && (n.exponent.Power? && n.exponent.digits == [] && n.exponent.sign == [] ==> At(s, c + 1) != 43 && At(s, c + 1) != MINUS)
  {
    hide Has, DigitText;
    NumeralParts(s, i, n);
    var b := i + |SignText(n.minus)| + |n.whole|;
    var c := b + |FractionText(n.fraction)|;
    if n.exponent.Power? {
      HasParts(s, c, [n.exponent.letter], n.exponent.sign + DigitText(n.exponent.digits));
      HasAt(s, c, n.exponent.letter);
    }
    if n.fraction != [] {
      HasParts(s, b, [46], DigitText(n.fraction));
      HasAt(s, b, 46);
    }
  }

  /** Every number of the grammar, and every other the parser takes, is read in exact arithmetic as the
      number it denotes. */
  lemma NumeralIsParsed(s: CString, i: nat, n: Numeral)
    requires Has(s, i, NumeralText(n)) && IsNumeral(n, false) && EndsNumeral(n, At(s, i + |NumeralText(n)|))
    ensures i < |s| && (s[i] == MINUS || IsDigit(s[i]))
    ensures ParseNumber(Exactly(), s, i) == Ok(Number(NumeralValue(n)), i + |NumeralText(n)|)
  {
    hide Has, DigitText, FractionText, ExponentText, NumeralText, PlaceSum, IntegerPart, Fraction, Exponent, Scaled, WithSign,
      NumeralValue, ExponentValue, ParseNumber;
    NumeralParts(s, i, n);
    PartsEnd(s, i, n);
    var w, f := n.whole, n.fraction;
    var a := i + |SignText(n.minus)|;
    var b := a + |w|;
    var c := b + |FractionText(f)|;
    if w != [] {
      DigitAt(s, a, w);
    }
    SignIsRead(s, i, n.minus);
    WholeIsRead(s, a, w);
    FractionIsRead(s, b, w, f);
    ExponentIsRead(s, c, n.exponent);
    NumberIs(s, i, if n.minus then -1 else 1, a, PlaceSum(w, |w| - 1), b, PlaceSum(w + f, |w| + |f| - 1), -|f|, c,
      ExponentValue(n.exponent), c + |ExponentText(n.exponent)|);
    AddsUp(n);
  }

  lemma SignIsRead(s: CString, i: nat, minus: bool)
    requires Has(s, i, SignText(minus)) && (minus || IsDigit(At(s, i)))
    ensures i < |s| && Signed(i, s) == (if minus then -1 else 1, i + |SignText(minus)|)
    ensures s[i] == MINUS || IsDigit(s[i])
  {
    if minus {
      HasAt(s, i, MINUS);
    }
  }

  // ---- printed integers ----------------------------------------------------------------------------

  function DigitsOf(n: nat): (d: seq<Digit>)
    ensures d != []
  {
    if n < 10 then [n] else DigitsOf(n / 10) + [n % 10]
  }

  function NumeralOf(n: int): Numeral {
    Numeral(n < 0, DigitsOf(if n < 0 then -n else n), [], NoPower)
  }

  lemma {:induction false} DecimalIsDigits(n: nat)
    ensures Decimal(n) == DigitText(DigitsOf(n))
    ensures DigitsOf(n)[0] == 0 <==> n == 0
    ensures DigitsOf(n)[0] == 0 ==> |DigitsOf(n)| == 1
  {
    if n >= 10 {
      DecimalIsDigits(n / 10);
      assert DigitText(DigitsOf(n)) == DigitText(DigitsOf(n / 10)) + [DigitChar(n % 10)];
    }
  }

  lemma {:induction false} DigitsSumUp(n: nat)
    ensures PlaceSum(DigitsOf(n), |DigitsOf(n)| - 1) == n as real
  {
    hide TenTo;
    if n < 10 {
      TenToZero();
      assert [n as Digit][..0] == [];
    } else {
      DigitsSumUp(n / 10);
      PlaceSumExtended(DigitsOf(n / 10), n % 10);
      assert n as real == (n / 10) as real * 10.0 + (n % 10) as real;
    }
  }

  /** An integer is printed as a number of the grammar without point and exponent: a minus exactly if
      it is negative, and digits without a leading zero that denote it. */
  lemma PrintedInteger(n: int)
    ensures var m := NumeralOf(n);
      && PrintInt(n) == NumeralText(m) && IsNumeral(m, true) && NumeralValue(m) == n as real
      && (m.minus <==> n < 0) && m.fraction == [] && m.exponent.NoPower?
  {
    hide PlaceSum, TenTo, Decimal, DigitText, DigitsOf;
    var k: nat := if n < 0 then -n else n;
    DecimalIsDigits(k);
    DigitsSumUp(k);
    NoDigitsSum();
    TenToZero();
    assert DigitText(DigitsOf(k)) + ([] + []) == DigitText(DigitsOf(k));
    assert k as real * 1.0 == k as real;
  }
}
