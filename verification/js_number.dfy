/** `Number(string)`: the ECMAScript StringToNumber conversion, as the
    configuration loader applies it to `TTS_MAX_INPUT_BYTES`. Values are kept
    as exact reals; of the rounding to a binary64 double only the two effects
    that decide `Number.isFinite(n) && n > 0` are modelled: overflow to an
    infinity and underflow to zero. */
module JsNumber {
  import opened Wrappers
  import Text
  import Decimal

  datatype Num = Finite(value: real) | NaN | PosInfinity | NegInfinity

  function Pow(b: nat, e: nat): (r: nat)
    ensures b > 0 ==> r > 0
  {
    if e == 0 then 1 else b * Pow(b, e - 1)
  }

  /** Half-way between the largest finite double and 2^1024: magnitudes at or
      above it round to an infinity. */
  const OverflowBoundary: real :=
    179769313486231580793728971405303415079934132710037826936173778980444968292764750946649017977587207096330286416692887910946555547851940402630657488671505820681908902000708383676273854845817711531764475730270069855571366959622842914819860834936475292719074168444365510704342711559699508093042880177904174497792.0

  /** Half of the smallest positive double, 2^-1075: non-zero magnitudes at or
      below it round to zero. */
  const UnderflowBoundary: real :=
    1.0 / 404804506614621236704990693437834614099113299528284236713802716054860679135990693783920767402874248990374155728633623822779617474771586953734026799881477019843034848553132722728933815484186432682479535356945490137124014966849385397236206711298319112681620113024717539104666829230461005064372655017292012526615415482186989568.0

  /** The effects of rounding an exact value to a double that matter here. */
  function Round(v: real): (n: Num)
    ensures n.Finite? ==> (n.value == 0.0 || n.value == v)
    ensures n.Finite? && n.value > 0.0 ==> n.value == v
    ensures 0.0 < v < OverflowBoundary && v > UnderflowBoundary ==> n == Finite(v)
  {
    if v >= OverflowBoundary then PosInfinity
    else if v <= -OverflowBoundary then NegInfinity
    else if -UnderflowBoundary <= v <= UnderflowBoundary then Finite(0.0)
    else Finite(v)
  }

  predicate IsDecimalDigit(c: char) {
    '0' <= c <= '9'
  }

  /** The value of a digit character in `base` (2, 8, 10 or 16), if it is one. */
  function DigitIn(c: char, base: nat): Option<nat> {
    var v :=
      if '0' <= c <= '9' then c as int - '0' as int
      else if 'a' <= c <= 'f' then c as int - 'a' as int + 10
      else if 'A' <= c <= 'F' then c as int - 'A' as int + 10
      else 99;
    if 0 <= v < base then Some(v) else None
  }

  predicate AllDigitsIn(s: string, base: nat) {
    forall i | 0 <= i < |s| :: DigitIn(s[i], base).Some?
  }

  /** Positional value of a digit string in `base`, most significant first. */
  function DigitsValue(s: string, base: nat): nat
    requires AllDigitsIn(s, base)
  {
    if s == [] then 0
    else DigitsValue(s[..|s| - 1], base) * base + DigitIn(s[|s| - 1], base).value
  }

  /** Number of leading decimal digits. */
  function LeadingDigits(s: string): (n: nat)
    ensures n <= |s|
    ensures forall i | 0 <= i < n :: IsDecimalDigit(s[i])
    ensures n < |s| ==> !IsDecimalDigit(s[n])
  {
    if s == [] || !IsDecimalDigit(s[0]) then 0 else 1 + LeadingDigits(s[1..])
  }

  /** ExponentPart: empty, or `e`/`E`, an optional sign and at least one digit. */
  function Exponent(t: string): Option<int> {
    if t == [] then Some(0)
    else if t[0] != 'e' && t[0] != 'E' then None
    else
      var r := t[1..];
      var negative := r != [] && r[0] == '-';
      var ds := if r != [] && (r[0] == '-' || r[0] == '+') then r[1..] else r;
      if ds == [] || !AllDigitsIn(ds, 10) then None
      else
        var magnitude: int := DigitsValue(ds, 10);
        Some(if negative then -magnitude else magnitude)
  }

  /** `m * 10^(e - fractionDigits)`, exactly. */
  function Scale(m: nat, fractionDigits: nat, e: int): real {
    var shift := e - fractionDigits;
    if shift >= 0 then (m * Pow(10, shift)) as real
    else (m as real) / (Pow(10, -shift) as real)
  }

  lemma DecimalDigitsAreBase10(s: string)
    requires forall i | 0 <= i < |s| :: IsDecimalDigit(s[i])
    ensures AllDigitsIn(s, 10)
  {
  }

  /** The value of a run of decimal digits. */
  function DecimalValue(ds: string): nat
    requires forall i | 0 <= i < |ds| :: IsDecimalDigit(ds[i])
  {
    DecimalDigitsAreBase10(ds);
    DigitsValue(ds, 10)
  }

  lemma DigitRunsJoin(x: string, y: string)
    requires forall i | 0 <= i < |x| :: IsDecimalDigit(x[i])
    requires forall i | 0 <= i < |y| :: IsDecimalDigit(y[i])
    ensures forall i | 0 <= i < |x + y| :: IsDecimalDigit((x + y)[i])
  {
    forall i | 0 <= i < |x + y| ensures IsDecimalDigit((x + y)[i]) {
      if i >= |x| {
        assert (x + y)[i] == y[i - |x|];
      }
    }
  }

  /** StrUnsignedDecimalLiteral without `Infinity`: digits with an optional
      fraction (either side of the point may be empty, not both) and an
      optional exponent. */
  function UnsignedDecimal(u: string): Option<real> {
    var a := LeadingDigits(u);
    var intPart := u[..a];
    var rest := u[a..];
    if rest != [] && rest[0] == '.' then
      var afterPoint := rest[1..];
      var b := LeadingDigits(afterPoint);
      var frac := afterPoint[..b];
      if a == 0 && b == 0 then None
      else
        match Exponent(afterPoint[b..])
        case None => None
        case Some(e) =>
          DigitRunsJoin(intPart, frac);
          Some(Scale(DecimalValue(intPart + frac), b, e))
    else if a == 0 then None
    else
      match Exponent(rest)
      case None => None
      case Some(e) =>
        Some(Scale(DecimalValue(intPart), 0, e))
  }

  /** `Number(s)`: white space trimmed; the empty string is 0; `0x`, `0o`, `0b`
      prefixes read an unsigned integer in base 16, 8, 2; otherwise an
      optionally signed decimal literal or `Infinity`; anything else is NaN. */
  function ToNumber(s: string): Num {
    var t := Text.Trim(s);
    if t == [] then Finite(0.0)
    else if |t| >= 2 && t[0] == '0' && t[1] in "xXoObB" then
      var base := if t[1] in "xX" then 16 else if t[1] in "oO" then 8 else 2;
      var ds := t[2..];
      if ds != [] && AllDigitsIn(ds, base) then Round(DigitsValue(ds, base) as real) else NaN
    else
      var negative := t[0] == '-';
      var u := if t[0] == '-' || t[0] == '+' then t[1..] else t;
      if u == "Infinity" then (if negative then NegInfinity else PosInfinity)
      else
        match UnsignedDecimal(u)
        case None => NaN
        case Some(v) => Round(if negative then -v else v)
  }

  lemma {:induction false} DigitsValueAgrees(s: string)
    requires forall i | 0 <= i < |s| :: '0' <= s[i] <= '9'
    ensures AllDigitsIn(s, 10) && DigitsValue(s, 10) == Decimal.DigitsValue(s)
  {
    if s != [] {
      DigitsValueAgrees(s[..|s| - 1]);
    }
  }

  /** A non-negative integer written out in decimal converts back to itself,
      as long as it is below the double range. */
  lemma DecimalStringConverts(n: nat)
    requires (n as real) < OverflowBoundary
    ensures ToNumber(Decimal.NatString(n)) == Finite(n as real)
  {
    var s := Decimal.NatString(n);
    Decimal.NatStringRoundTrip(n);
    DigitsValueAgrees(s);
    PlainDigitsConvert(s);
    assert n == 0 || (n as real) > UnderflowBoundary;
  }

  /** The literal "4000" converts to 4000 (stated for a variable equal to it,
      which keeps the verifier from evaluating the conversion on the literal). */
  lemma FourThousandConverts(s: string, n: nat)
    requires s == "4000" && n == 4000
    ensures ToNumber(s) == Finite(4000.0)
  {
    assert Decimal.NatString(n) == s;
    DecimalStringConverts(n);
  }

  /** Digits without a base prefix convert to their decimal value. */
  lemma PlainDigitsConvert(s: string)
    requires s != [] && forall i | 0 <= i < |s| :: IsDecimalDigit(s[i])
    ensures AllDigitsIn(s, 10)
    ensures ToNumber(s) == Round(DigitsValue(s, 10) as real)
  {
    TrimKeepsDigits(s);
    UnsignedDecimalOfDigits(s);
    var t := Text.Trim(s);
    assert |t| >= 2 ==> t[1] !in "xXoObB";
    assert t[0] != '-' && t[0] != '+';
    assert t != "Infinity";
  }

  lemma TrimKeepsDigits(s: string)
    requires s != [] && forall i | 0 <= i < |s| :: IsDecimalDigit(s[i])
    ensures Text.Trim(s) == s
  {
    assert !Text.IsJsSpace(s[0]) && !Text.IsJsSpace(s[|s| - 1]);
    assert Text.Leading(s) == 0;
    assert Text.Trailing(s) == 0;
  }

  lemma UnsignedDecimalOfDigits(s: string)
    requires s != [] && forall i | 0 <= i < |s| :: IsDecimalDigit(s[i])
    ensures AllDigitsIn(s, 10)
    ensures UnsignedDecimal(s) == Some(DigitsValue(s, 10) as real)
  {
    LeadingDigitsAll(s);
    assert s[..|s|] == s;
    assert s[|s|..] == [];
    assert Exponent(s[|s|..]) == Some(0);
    assert Scale(DecimalValue(s), 0, 0) == DigitsValue(s, 10) as real;
  }

  lemma {:induction false} LeadingDigitsAll(s: string)
    requires forall i | 0 <= i < |s| :: IsDecimalDigit(s[i])
    ensures LeadingDigits(s) == |s|
  {
    if s != [] {
      LeadingDigitsAll(s[1..]);
    }
  }
}
