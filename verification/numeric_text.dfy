/** The textual number syntax the field decoder accepts: the integer literals
    Python's `int(text)` parses and the decimal literals `decimal.Decimal(text)`
    parses, restricted to an optional sign, digits and an optional fraction.
    Decimals are kept exactly, as Python's `Decimal` keeps them: sign,
    coefficient and scale (the negated exponent), so "3.50" and "3.5" are
    different values of equal magnitude. */
module NumericText {
  import opened Wrappers

  predicate IsDigit(c: char) {
    '0' <= c <= '9'
  }

  function DigitValue(c: char): nat
    requires IsDigit(c)
  {
    (c as int) - ('0' as int)
  }

  function DigitChar(d: nat): (c: char)
    requires d < 10
    ensures IsDigit(c) && DigitValue(c) == d
  {
    ('0' as int + d) as char
  }

  predicate AllDigits(s: string) {
    forall i | 0 <= i < |s| :: IsDigit(s[i])
  }

  function Pow10(k: nat): (p: nat)
    ensures p >= 1
  {
    if k == 0 then 1 else 10 * Pow10(k - 1)
  }

  function Zeros(k: nat): (z: string)
    ensures |z| == k && AllDigits(z)
  {
    seq(k, _ => '0')
  }

  /** The value of a digit string accumulated left to right, one digit at a
      time, as a parser reads it. */
  function DigitsValue(s: string): nat
    requires AllDigits(s)
  {
    if |s| == 0 then 0 else 10 * DigitsValue(s[..|s| - 1]) + DigitValue(s[|s| - 1])
  }

  /** Positional notation, the reference meaning of a digit string: each
      digit weighted by the power of ten of its position. */
  ghost function Positional(s: string): nat
    requires AllDigits(s)
  {
    if |s| == 0 then 0 else DigitValue(s[0]) * Pow10(|s| - 1) + Positional(s[1..])
  }

  lemma AppendAllDigits(a: string, b: string)
    requires AllDigits(a) && AllDigits(b)
    ensures AllDigits(a + b)
  {
  }

  lemma ShiftStep(x: nat, p: nat, y: nat, d: nat)
    ensures 10 * (x * p + y) + d == x * (10 * p) + (10 * y + d)
  {
  }

  /** Reading the concatenation of two digit strings shifts the first by the
      length of the second. */
  lemma {:induction false} DigitsValueAppend(a: string, b: string)
    requires AllDigits(a) && AllDigits(b)
    ensures AllDigits(a + b)
    ensures DigitsValue(a + b) == DigitsValue(a) * Pow10(|b|) + DigitsValue(b)
  {
    AppendAllDigits(a, b);
    if |b| == 0 {
      assert a + b == a;
    } else {
      var b' := b[..|b| - 1];
      var d := DigitValue(b[|b| - 1]);
      assert (a + b)[..|a + b| - 1] == a + b';
      assert (a + b)[|a + b| - 1] == b[|b| - 1];
      DigitsValueAppend(a, b');
      assert DigitsValue(a + b) == 10 * DigitsValue(a + b') + d;
      ShiftStep(DigitsValue(a), Pow10(|b'|), DigitsValue(b'), d);
      assert DigitsValue(b) == 10 * DigitsValue(b') + d;
    }
  }

  /** The left-to-right accumulation computes the positional value. */
  lemma {:induction false} DigitsValueIsPositional(s: string)
    requires AllDigits(s)
    ensures DigitsValue(s) == Positional(s)
  {
    if |s| > 0 {
      var head, tail := s[..1], s[1..];
      assert s == head + tail;
      DigitsValueAppend(head, tail);
      assert DigitsValue(head) == DigitValue(s[0]) by {
        assert head[..0] == [];
      }
      DigitsValueIsPositional(tail);
    }
  }

  /** Leading zeros do not change the value of a digit string. */
  lemma {:induction false} LeadingZeros(k: nat, s: string)
    requires AllDigits(s)
    ensures AllDigits(Zeros(k) + s)
    ensures DigitsValue(Zeros(k) + s) == DigitsValue(s)
  {
    DigitsValueAppend(Zeros(k), s);
    ZerosValue(k);
  }

  lemma {:induction false} ZerosValue(k: nat)
    ensures DigitsValue(Zeros(k)) == 0
  {
    if k > 0 {
      assert Zeros(k)[..k - 1] == Zeros(k - 1);
      ZerosValue(k - 1);
    }
  }

  /** The canonical decimal spelling of a natural number: no sign, no
      leading zero unless the number is zero itself. */
  function NatText(n: nat): (s: string)
    ensures |s| >= 1 && AllDigits(s)
    ensures s[0] == '0' ==> n == 0
  {
    if n < 10 then [DigitChar(n)] else NatText(n / 10) + [DigitChar(n % 10)]
  }

  lemma {:induction false} NatTextValue(n: nat)
    ensures DigitsValue(NatText(n)) == n
  {
    if n >= 10 {
      var s := NatText(n);
      assert s[..|s| - 1] == NatText(n / 10);
      NatTextValue(n / 10);
    }
  }

  // ---------------------------------------------------------------------------
  // Signs

  /** Splits an optional leading '+' or '-' off a literal: whether it was a
      minus, and the unsigned rest. */
  function SplitSign(s: string): (r: (bool, string))
    ensures r.0 <==> |s| > 0 && s[0] == '-'
    ensures |s| > 0 && (s[0] == '-' || s[0] == '+') ==> r.1 == s[1..]
    ensures !(|s| > 0 && (s[0] == '-' || s[0] == '+')) ==> r.1 == s
  {
    if |s| > 0 && s[0] == '-' then (true, s[1..])
    else if |s| > 0 && s[0] == '+' then (false, s[1..])
    else (false, s)
  }

  // ---------------------------------------------------------------------------
  // Integers

  /** The integer literals the model accepts: an optional sign followed by at
      least one digit. */
  predicate IsIntegerText(s: string) {
    if |s| > 0 && (s[0] == '+' || s[0] == '-') then |s| > 1 && AllDigits(s[1..])
    else |s| > 0 && AllDigits(s)
  }

  /** The signed integer an integer literal denotes. */
  ghost function IntegerDenotation(s: string): int
    requires IsIntegerText(s)
  {
    if s[0] == '-' then -(Positional(s[1..]) as int)
    else if s[0] == '+' then Positional(s[1..])
    else Positional(s)
  }

  /** Python's `int(text)` on the accepted syntax: the integer the text
      denotes, or None when the text is not an integer literal. */
  function ParseInt(s: string): (r: Option<int>)
    ensures r.Some? <==> IsIntegerText(s)
    ensures r.Some? ==> r.value == IntegerDenotation(s)
  {
    var (negative, digits) := SplitSign(s);
    if |digits| == 0 || !AllDigits(digits) then None
    else
      DigitsValueIsPositional(digits);
      Some(if negative then -(DigitsValue(digits) as int) else DigitsValue(digits))
  }

  /** The canonical spelling of an integer. */
  function IntText(n: int): string {
    if n < 0 then "-" + NatText(-n) else NatText(n)
  }

  lemma IntTextRoundTrip(n: int)
    ensures ParseInt(IntText(n)) == Some(n)
  {
    var digits := NatText(if n < 0 then -n else n);
    NatTextValue(if n < 0 then -n else n);
    if n < 0 {
      assert IntText(n)[1..] == digits;
    }
  }

  // ---------------------------------------------------------------------------
  // Decimals

  /** An exact decimal: the value (-1)^negative * coefficient / 10^scale.
      Python's `Decimal` keeps the same triple (its exponent is -scale), so
      trailing fraction zeros and the sign of zero are preserved. */
  datatype Decimal = Decimal(negative: bool, coefficient: nat, scale: nat)

  /** The exact rational value of a decimal. */
  ghost function Exact(d: Decimal): real {
    (if d.negative then -1.0 else 1.0) * (d.coefficient as real / Pow10(d.scale) as real)
  }

  /** Position of the first decimal point, if any. */
  function FindPoint(s: string): (r: Option<nat>)
    ensures r.Some? ==> r.value < |s| && s[r.value] == '.' && forall j | 0 <= j < r.value :: s[j] != '.'
    ensures r.None? ==> forall j | 0 <= j < |s| :: s[j] != '.'
  {
    if |s| == 0 then None
    else if s[0] == '.' then Some(0)
    else
      var rest := FindPoint(s[1..]);
      if rest.Some? then Some(rest.value + 1) else None
  }

  /** The digits before the point of an unsigned decimal literal. */
  function WholePart(body: string): string {
    match FindPoint(body)
    case None => body
    case Some(p) => body[..p]
  }

  /** The digits after the point of an unsigned decimal literal (empty when
      there is no point). */
  function FractionPart(body: string): string {
    match FindPoint(body)
    case None => ""
    case Some(p) => body[p + 1..]
  }

  /** The decimal literals the model accepts: an optional sign, then digits
      with at most one point, and at least one digit in all ("5", "5.",
      ".5", "-3.50"). */
  predicate IsDecimalText(s: string) {
    IsDecimalBody(SplitSign(s).1)
  }

  /** An unsigned decimal literal: digits and points, no two points, and
      not a lone point. */
  predicate IsDecimalBody(body: string) {
    && (forall i | 0 <= i < |body| :: IsDigit(body[i]) || body[i] == '.')
    && (forall i, j | 0 <= i < j < |body| :: body[i] != '.' || body[j] != '.')
    && (|body| >= 2 || (|body| == 1 && IsDigit(body[0])))
  }

  /** The digits before the point and after it are what the grammar allows
      exactly when the literal is a decimal literal. */
  lemma DecimalTextSplits(s: string)
    ensures var body := SplitSign(s).1;
      IsDecimalText(s)
      <==> (AllDigits(WholePart(body)) && AllDigits(FractionPart(body))
            && |WholePart(body)| + |FractionPart(body)| > 0)
  {
    var body := SplitSign(s).1;
    match FindPoint(body)
    case None =>
    case Some(p) =>
      var whole, fraction := body[..p], body[p + 1..];
      assert forall k | 0 <= k < p :: whole[k] == body[k];
      assert forall k | p + 1 <= k < |body| :: fraction[k - p - 1] == body[k];
      if AllDigits(whole) && AllDigits(fraction) {
        forall i | 0 <= i < |body| ensures IsDigit(body[i]) || body[i] == '.' {
          if i < p { assert IsDigit(whole[i]); } else if i > p { assert IsDigit(fraction[i - p - 1]); }
        }
        forall i, j | 0 <= i < j < |body| ensures body[i] != '.' || body[j] != '.' {
          if j < p { assert IsDigit(whole[j]); } else if j > p { assert IsDigit(fraction[j - p - 1]); }
        }
      }
      if IsDecimalText(s) {
        assert IsDecimalBody(body);
        forall k | 0 <= k < |fraction| ensures IsDigit(fraction[k]) {
          var at := k + p + 1;
          assert fraction[k] == body[at];
          assert body[p] != '.' || body[at] != '.';
        }
      }
  }

  /** Python's `decimal.Decimal(text)` on the accepted syntax: the exact
      decimal the text denotes, with the number of fraction digits as its
      scale, or None when the text is not a decimal literal. */
  function ParseDecimal(s: string): (r: Option<Decimal>)
    ensures r.Some? <==> IsDecimalText(s)
    ensures r.Some? ==> (r.value.negative <==> |s| > 0 && s[0] == '-')
    ensures r.Some? ==> r.value.scale == |FractionPart(SplitSign(s).1)|
  {
    DecimalTextSplits(s);
    var (negative, body) := SplitSign(s);
    var whole, fraction := WholePart(body), FractionPart(body);
    if AllDigits(whole) && AllDigits(fraction) && |whole| + |fraction| > 0 then
      DigitsValueAppend(whole, fraction);
      Some(Decimal(negative, DigitsValue(whole + fraction), |fraction|))
    else None
  }

  /** The exact value a decimal literal denotes in positional notation: the
      whole digits plus the fraction digits scaled down by their count,
      negated under a minus sign. */
  ghost function DecimalDenotation(s: string): real
    requires IsDecimalText(s)
  {
    DecimalTextSplits(s);
    var body := SplitSign(s).1;
    (if |s| > 0 && s[0] == '-' then -1.0 else 1.0)
    * (Positional(WholePart(body)) as real
       + Positional(FractionPart(body)) as real / Pow10(|FractionPart(body)|) as real)
  }

  /** A parsed decimal has exactly the value its literal denotes. */
  lemma ParseDecimalExact(s: string)
    requires IsDecimalText(s)
    ensures Exact(ParseDecimal(s).value) == DecimalDenotation(s)
  {
    DecimalTextSplits(s);
    var body := SplitSign(s).1;
    var whole, fraction := WholePart(body), FractionPart(body);
    DigitsValueAppend(whole, fraction);
    DigitsValueIsPositional(whole);
    DigitsValueIsPositional(fraction);
    ScaleDown(DigitsValue(whole), DigitsValue(fraction), Pow10(|fraction|));
  }

  lemma ScaleDown(w: nat, f: nat, p: nat)
    requires p >= 1
    ensures (w * p + f) as real / p as real == w as real + f as real / p as real
  {
  }

  /** A literal assembled from a sign, whole digits and fraction digits; the
      point is written only when there are fraction digits. */
  function Spell(negative: bool, whole: string, fraction: string): string {
    (if negative then "-" else "") + whole + (if |fraction| == 0 then "" else "." + fraction)
  }

  /** The coefficient's digits, zero-padded so that at least one digit
      stands before the point. */
  function PaddedDigits(d: Decimal): (padded: string)
    ensures AllDigits(padded) && |padded| > d.scale
    ensures DigitsValue(padded) == d.coefficient
  {
    var digits := NatText(d.coefficient);
    NatTextValue(d.coefficient);
    if |digits| <= d.scale then
      LeadingZeros(d.scale + 1 - |digits|, digits);
      Zeros(d.scale + 1 - |digits|) + digits
    else digits
  }

  /** The plain spelling of a decimal with exactly `scale` fraction digits:
      "3.50" for Decimal(false, 350, 2), "-0.05" for Decimal(true, 5, 2). */
  function DecimalText(d: Decimal): string {
    var padded := PaddedDigits(d);
    var cut := |padded| - d.scale;
    Spell(d.negative, padded[..cut], padded[cut..])
  }

  lemma PointAfterDigits(w: string, f: string)
    requires AllDigits(w)
    ensures FindPoint(w + "." + f) == Some(|w|)
  {
    var s := w + "." + f;
    assert s[|w|] == '.';
    var r := FindPoint(s);
    assert r.Some?;
    assert forall j | 0 <= j < |w| :: s[j] == w[j];
  }

  lemma NoPointInDigits(w: string)
    requires AllDigits(w)
    ensures FindPoint(w) == None
  {
  }

  /** A spelled literal splits back into the parts it was assembled from. */
  lemma SpellSplits(negative: bool, whole: string, fraction: string)
    requires AllDigits(whole) && AllDigits(fraction) && |whole| >= 1
    ensures var body := SplitSign(Spell(negative, whole, fraction)).1;
      SplitSign(Spell(negative, whole, fraction)).0 == negative
      && WholePart(body) == whole && FractionPart(body) == fraction
  {
    var body := whole + (if |fraction| == 0 then "" else "." + fraction);
    var s := Spell(negative, whole, fraction);
    assert s == (if negative then "-" else "") + body;
    assert IsDigit(body[0]);
    assert SplitSign(s).1 == body by {
      if negative {
        assert s[1..] == body;
      }
    }
    if |fraction| == 0 {
      assert body == whole;
      NoPointInDigits(whole);
    } else {
      assert body == whole + "." + fraction;
      PointAfterDigits(whole, fraction);
      assert body[..|whole|] == whole;
      assert body[|whole| + 1..] == fraction;
    }
  }

  /** Parsing a spelled literal gives the decimal its parts denote. */
  lemma ParseSpelled(negative: bool, whole: string, fraction: string)
    requires AllDigits(whole) && AllDigits(fraction) && |whole| >= 1
    ensures AllDigits(whole + fraction)
    ensures ParseDecimal(Spell(negative, whole, fraction))
            == Some(Decimal(negative, DigitsValue(whole + fraction), |fraction|))
  {
    SpellSplits(negative, whole, fraction);
    DigitsValueAppend(whole, fraction);
  }

  /** Every decimal survives being spelled out and parsed again, scale and
      sign of zero included. */
  lemma {:induction false} DecimalTextRoundTrip(d: Decimal)
    ensures ParseDecimal(DecimalText(d)) == Some(d)
  {
    var padded := PaddedDigits(d);
    var cut := |padded| - d.scale;
    var whole, fraction := padded[..cut], padded[cut..];
    assert DecimalText(d) == Spell(d.negative, whole, fraction);
    assert whole + fraction == padded;
    ParseSpelled(d.negative, whole, fraction);
    assert |fraction| == d.scale;
  }
}
