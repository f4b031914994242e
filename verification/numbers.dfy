/** Numbers as the clients see them: Python's `float(text)` for the readings
    they receive, `str(n)` of a non-negative integer for the bracelet
    identifier, and the decimal text a bracelet sends for a reading. */
module Numbers {
  import opened Results

  /** A Python float as far as the threshold comparisons can tell: a finite
      value (kept exact), a signed infinity, or NaN. */
  datatype Float = Finite(value: real) | Infinity(negative: bool) | NaN

  function Negate(x: Float): Float {
    match x
    case Finite(v) => Finite(-v)
    case Infinity(n) => Infinity(!n)
    case NaN => NaN
  }

  predicate IsDigit(c: char) {
    '0' <= c <= '9'
  }

  predicate AllDigits(s: string) {
    forall i :: 0 <= i < |s| ==> IsDigit(s[i])
  }

  function DigitValue(c: char): nat
    requires IsDigit(c)
  {
    c as int - '0' as int
  }

  function DigitChar(d: nat): (c: char)
    requires d < 10
    ensures IsDigit(c) && DigitValue(c) == d
  {
    ('0' as int + d) as char
  }

  /** The number a string of decimal digits denotes, most significant first. */
  function DigitsValue(s: string): nat
    requires AllDigits(s)
    decreases |s|
  {
    if |s| == 0 then 0 else DigitsValue(s[..|s| - 1]) * 10 + DigitValue(s[|s| - 1])
  }

  function Pow10(n: nat): (r: nat)
    ensures r >= 1
  {
    if n == 0 then 1 else 10 * Pow10(n - 1)
  }

  /** The ASCII white space `float` strips from both ends of its argument:
      tab, line feed, vertical tab, form feed, carriage return and space.
      The separators U+001C to U+001F are not among them. */
  predicate IsSpace(c: char) {
    '\t' <= c <= '\r' || c == ' '
  }

  function TrimStart(s: string): string
    decreases |s|
  {
    if |s| > 0 && IsSpace(s[0]) then TrimStart(s[1..]) else s
  }

  function TrimEnd(s: string): string
    decreases |s|
  {
    if |s| > 0 && IsSpace(s[|s| - 1]) then TrimEnd(s[..|s| - 1]) else s
  }

  /** Python's `s.strip()` restricted to ASCII white space. */
  function Strip(s: string): string {
    TrimEnd(TrimStart(s))
  }

  /** A text that neither starts nor ends with white space is its own strip. */
  lemma StripUnpadded(s: string)
    requires |s| > 0 && !IsSpace(s[0]) && !IsSpace(s[|s| - 1])
    ensures Strip(s) == s
  {
  }

  function Lower(c: char): char {
    if 'A' <= c <= 'Z' then (c as int + 32) as char else c
  }

  /** `s` spells the lower-case `word` in any mix of letter cases. */
  predicate SpellsIgnoringCase(s: string, word: string) {
    |s| == |word| && forall i :: 0 <= i < |s| ==> Lower(s[i]) == word[i]
  }

  /** Index of the first character of `s` in `marks`, or `|s|` when none is. */
  function IndexOfAny(s: string, marks: set<char>): (r: nat)
    ensures r <= |s|
    ensures r < |s| ==> s[r] in marks
    ensures forall j :: 0 <= j < r ==> s[j] !in marks
    decreases |s|
  {
    if |s| == 0 then 0
    else if s[0] in marks then 0
    else 1 + IndexOfAny(s[1..], marks)
  }

  /** The exponent of a literal: an optional sign and at least one digit. */
  function ParseExponent(s: string): Option<int> {
    if |s| > 0 && (s[0] == '+' || s[0] == '-') then
      var digits := s[1..];
      if |digits| > 0 && AllDigits(digits) then
        var magnitude: int := DigitsValue(digits);
        Some(if s[0] == '-' then -magnitude else magnitude)
      else None
    else if |s| > 0 && AllDigits(s) then Some(DigitsValue(s))
    else None
  }

  function Scale(m: real, e: int): real {
    if e >= 0 then m * Pow10(e) as real else m / Pow10(-e) as real
  }

  /** The value of the digits after a decimal point. */
  function Fraction(digits: string): real
    requires AllDigits(digits)
  {
    DigitsValue(digits) as real / Pow10(|digits|) as real
  }

  /** An unsigned decimal literal: digits, an optional point with more digits
      (at least one digit overall), and an optional exponent. */
  function ParseDecimal(u: string): (r: Option<real>)
    ensures r.Some? ==> r.value >= 0.0
  {
    var e := IndexOfAny(u, {'e', 'E'});
    var mantissa := u[..e];
    var point := IndexOfAny(mantissa, {'.'});
    var whole := mantissa[..point];
    var frac := if point < |mantissa| then mantissa[point + 1..] else "";
    if AllDigits(whole) && AllDigits(frac) && |whole| + |frac| >= 1 then
      var magnitude := DigitsValue(whole) as real + Fraction(frac);
      if e == |u| then Some(magnitude)
      else
        match ParseExponent(u[e + 1..])
        case Some(x) => Some(Scale(magnitude, x))
        case None => None
    else None
  }

  function ParseUnsigned(u: string): (r: Option<Float>)
    ensures r.Some? && r.value.Finite? ==> r.value.value >= 0.0
    ensures r.Some? && r.value.Infinity? ==> !r.value.negative
  {
    if SpellsIgnoringCase(u, "inf") || SpellsIgnoringCase(u, "infinity") then Some(Infinity(false))
    else if SpellsIgnoringCase(u, "nan") then Some(NaN)
    else
      match ParseDecimal(u)
      case Some(v) => Some(Finite(v))
      case None => None
  }

  /** Python's `float(s)` on text: `None` where Python raises `ValueError`. */
  function ParseFloat(s: string): (r: Option<Float>)
    ensures |Strip(s)| == 0 ==> r.None?
    ensures r.Some? && r.value.Finite? && r.value.value < 0.0 ==> Strip(s)[0] == '-'
    ensures r.Some? && r.value == Infinity(true) ==> Strip(s)[0] == '-'
  {
    var t := Strip(s);
    if |t| > 0 && (t[0] == '+' || t[0] == '-') then
      match ParseUnsigned(t[1..])
      case Some(x) => Some(if t[0] == '-' then Negate(x) else x)
      case None => None
    else ParseUnsigned(t)
  }

  /** Python's `str(n)` for a non-negative integer. */
  function NatToString(n: nat): (r: string)
    ensures |r| >= 1 && AllDigits(r)
    ensures DigitsValue(r) == n
    ensures r[0] == '0' ==> r == "0"
    decreases n
  {
    if n < 10 then [DigitChar(n)]
    else
      var r := NatToString(n / 10) + [DigitChar(n % 10)];
      assert r[..|r| - 1] == NatToString(n / 10);
      r
  }

  /** The decimal text of a reading a bracelet sends: a sign, the integer
      digits, a point and the fraction digits, as `str` prints a float of
      moderate size. */
  datatype Decimal = Decimal(negative: bool, whole: string, frac: string) {

    predicate Valid() {
      |whole| >= 1 && AllDigits(whole) && AllDigits(frac)
    }

    /** The digits and the point, without the sign. */
    function Unsigned(): string {
      whole + "." + frac
    }

    function Render(): string {
      if negative then "-" + Unsigned() else Unsigned()
    }

    function Magnitude(): real
      requires Valid()
    {
      DigitsValue(whole) as real + Fraction(frac)
    }

    function Value(): real
      requires Valid()
    {
      if negative then -Magnitude() else Magnitude()
    }
  }

  /** Reading back the text of a decimal gives its exact value. */
  lemma ParseRender(d: Decimal)
    requires d.Valid()
    ensures ParseFloat(d.Render()) == Some(Finite(d.Value()))
  {
    var u := d.Unsigned();
    var m := d.Magnitude();
    ParseUnsignedDecimal(d);
    if d.negative {
      ParseNegative(u, m);
      assert d.Render() == "-" + u && d.Value() == -m;
    } else {
      ParseNonNegative(u, m);
      assert d.Render() == u && d.Value() == m;
    }
  }

  /** The unsigned text of a decimal starts with a digit, ends with no
      white space, and reads back as the decimal's magnitude. */
  lemma ParseUnsignedDecimal(d: Decimal)
    requires d.Valid()
    ensures |d.Unsigned()| > 0 && IsDigit(d.Unsigned()[0])
    ensures !IsSpace(d.Unsigned()[|d.Unsigned()| - 1])
    ensures ParseUnsigned(d.Unsigned()) == Some(Finite(d.Magnitude()))
  {
    UnsignedShape(d);
    ParseUnsignedPlain(d);
  }

  lemma UnsignedShape(d: Decimal)
    requires d.Valid()
    ensures |d.Unsigned()| > 0 && IsDigit(d.Unsigned()[0])
    ensures !IsSpace(d.Unsigned()[|d.Unsigned()| - 1])
  {
    var u := d.Unsigned();
    assert u[0] == d.whole[0];
    if |d.frac| > 0 {
      assert u[|u| - 1] == d.frac[|d.frac| - 1];
    }
  }

  lemma ParseNonNegative(u: string, m: real)
    requires |u| > 0 && IsDigit(u[0]) && !IsSpace(u[|u| - 1])
    requires ParseUnsigned(u) == Some(Finite(m))
    ensures ParseFloat(u) == Some(Finite(m))
  {
    StripUnpadded(u);
  }

  /** A minus sign in front of an unsigned literal negates its value. */
  lemma ParseNegative(u: string, m: real)
    requires |u| > 0 && !IsSpace(u[|u| - 1])
    requires ParseUnsigned(u) == Some(Finite(m))
    ensures ParseFloat("-" + u) == Some(Finite(-m))
  {
    var s := "-" + u;
    StripSigned(u);
    assert s[1..] == u;
  }

  lemma StripSigned(u: string)
    requires |u| > 0 && !IsSpace(u[|u| - 1])
    ensures Strip("-" + u) == "-" + u
  {
    var s := "-" + u;
    assert s[0] == '-' && s[|s| - 1] == u[|u| - 1];
    StripUnpadded(s);
  }

  lemma ParseUnsignedPlain(d: Decimal)
    requires d.Valid()
    ensures ParseUnsigned(d.Unsigned()) == Some(Finite(d.Magnitude()))
  {
    var u := d.Unsigned();
    assert u[0] == d.whole[0];
    assert !SpellsIgnoringCase(u, "inf") && !SpellsIgnoringCase(u, "infinity");
    assert !SpellsIgnoringCase(u, "nan");
    ParseDecimalPlain(d);
  }

  lemma ParseDecimalPlain(d: Decimal)
    requires d.Valid()
    ensures ParseDecimal(d.Unsigned()) == Some(d.Magnitude())
  {
    var u := d.Unsigned();
    NoExponentMark(d);
    assert u[..|u|] == u;
    DecimalPoint(d);
    assert u[..|d.whole|] == d.whole;
    assert u[|d.whole| + 1..] == d.frac;
  }

  lemma NoExponentMark(d: Decimal)
    requires d.Valid()
    ensures IndexOfAny(d.Unsigned(), {'e', 'E'}) == |d.Unsigned()|
  {
    var u := d.Unsigned();
    forall j | 0 <= j < |u|
      ensures u[j] !in {'e', 'E'}
    {
      if j < |d.whole| {
        assert u[j] == d.whole[j];
      } else if j > |d.whole| {
        assert u[j] == d.frac[j - |d.whole| - 1];
      }
    }
  }

  lemma DecimalPoint(d: Decimal)
    requires d.Valid()
    ensures IndexOfAny(d.Unsigned(), {'.'}) == |d.whole|
  {
    var u := d.Unsigned();
    assert u[|d.whole|] == '.';
    forall j | 0 <= j < |d.whole|
      ensures u[j] !in {'.'}
    {
      assert u[j] == d.whole[j];
    }
  }
}
