/**
 * Conversions between stored logical units and the displayed units
 * (centimetres, millimetres or inches), and the numeric parsing of a length
 * typed into the table.
 */
module Units {
  import opened Wrappers
  import opened Geometry

  /** Inches per centimetre, as the application rounds it. */
  const CmToInch: real := 0.393701
  /** Millimetres per inch, used for board thicknesses. */
  const MmPerInch: real := 25.4

  datatype Unit = Metric | Imperial
  datatype SubUnit = Cm | Mm

  predicate IsDigit(c: char) { '0' <= c <= '9' }

  /** The ASCII white space `parseFloat` skips before a number. */
  predicate IsSpace(c: char) { c == ' ' || c == '\t' || c == '\n' || c == '\r' }

  /** `s` without its leading white space. */
  function TrimStart(s: string): (r: string)
    ensures |r| <= |s| && r == s[|s| - |r|..]
    ensures r == [] || !IsSpace(r[0])
    ensures forall i :: 0 <= i < |s| - |r| ==> IsSpace(s[i])
  {
    if s != [] && IsSpace(s[0]) then TrimStart(s[1..]) else s
  }

  /** Length of the run of decimal digits at the head of `s`. */
  function DigitRun(s: string): (n: nat)
    ensures n <= |s|
    ensures forall i :: 0 <= i < n ==> IsDigit(s[i])
    ensures n < |s| ==> !IsDigit(s[n])
  {
    if s != [] && IsDigit(s[0]) then 1 + DigitRun(s[1..]) else 0
  }

  predicate AllDigits(s: string) {
    forall i :: 0 <= i < |s| ==> IsDigit(s[i])
  }

  /** The value of a string of decimal digits, most significant first. */
  function DigitsValue(ds: string): nat
    requires AllDigits(ds)
  {
    if ds == [] then 0
    else 10 * DigitsValue(ds[..|ds| - 1]) + ((ds[|ds| - 1] as int) - ('0' as int))
  }

  /**
   * The exponent of a well-formed exponent part `[eE][+-]?digits` at the head
   * of `s`; 0 when there is none (the longest numeric prefix then ends before
   * the `e`).
   */
  function ExponentValue(s: string): int {
    if |s| >= 2 && (s[0] == 'e' || s[0] == 'E') then
      var digits := if s[1] == '+' || s[1] == '-' then s[2..] else s[1..];
      var n := DigitRun(digits);
      if n == 0 then 0
      else if s[1] == '-' then -(DigitsValue(digits[..n]) as int)
      else DigitsValue(digits[..n]) as int
    else 0
  }

  /**
   * The parts of the longest numeric prefix of a text: its sign, the digits
   * before and after the decimal point, and the text that follows them.
   */
  datatype Scan = Scan(negative: bool, intDigits: string, fracDigits: string, tail: string)

  /**
   * Splits `s` as `parseFloat` reads it: leading white space, an optional
   * sign, a run of digits, and when a `.` follows, a second run of digits.
   */
  function ScanNumber(s: string): (sc: Scan)
    ensures AllDigits(sc.intDigits) && AllDigits(sc.fracDigits)
  {
    var t := TrimStart(s);
    var u := if |t| > 0 && (t[0] == '+' || t[0] == '-') then t[1..] else t;
    var n := DigitRun(u);
    var rest := u[n..];
    if |rest| > 0 && rest[0] == '.' then
      var after := rest[1..];
      var f := DigitRun(after);
      DigitPrefix(u, n);
      DigitPrefix(after, f);
      Scan(|t| > 0 && t[0] == '-', u[..n], after[..f], after[f..])
    else
      DigitPrefix(u, n);
      Scan(|t| > 0 && t[0] == '-', u[..n], [], rest)
  }

  lemma DigitPrefix(s: string, n: nat)
    requires n == DigitRun(s)
    ensures AllDigits(s[..n])
  {
  }

  /** The number a scan spells: mantissa times ten to the exponent, signed. */
  function ScanValue(sc: Scan): real
    requires AllDigits(sc.intDigits) && AllDigits(sc.fracDigits)
  {
    var magnitude := Scale(Mantissa(sc.intDigits, sc.fracDigits), ExponentValue(sc.tail));
    if sc.negative then -magnitude else magnitude
  }

  /** `int.frac` as a real number. */
  function Mantissa(intDigits: string, fracDigits: string): real
    requires AllDigits(intDigits) && AllDigits(fracDigits)
  {
    DigitsValue(intDigits) as real + DigitsValue(fracDigits) as real / Pow10(|fracDigits|) as real
  }

  /** `m` times ten to the power `e`. */
  function Scale(m: real, e: int): real {
    if e >= 0 then m * Pow10(e) as real else m / Pow10(-e) as real
  }

  /**
   * JavaScript's `parseFloat` on decimal literals: the value of the longest
   * prefix of the form `[+-]? digits? (. digits?)? exponent?` after leading
   * white space, provided it holds at least one mantissa digit; `None` (NaN)
   * otherwise.
   */
  function ParseFloat(s: string): (r: Option<real>)
  {
    var sc := ScanNumber(s);
    if sc.intDigits == [] && sc.fracDigits == [] then None else Some(ScanValue(sc))
  }

  /** A text without any decimal digit is not a number. */
  lemma ParseFloatNeedsDigit(s: string)
    requires forall i :: 0 <= i < |s| ==> !IsDigit(s[i])
    ensures ParseFloat(s) == None
  {
    var t := TrimStart(s);
    var u := if |t| > 0 && (t[0] == '+' || t[0] == '-') then t[1..] else t;
    assert NoDigit(u) by {
      forall i | 0 <= i < |u| ensures !IsDigit(u[i]) {
        assert u[i] == s[|s| - |u| + i];
      }
    }
    NoDigitRun(u);
    var rest := u[0..];
    if |rest| > 0 && rest[0] == '.' {
      NoDigitRun(rest[1..]);
    }
  }

  predicate NoDigit(s: string) {
    forall i :: 0 <= i < |s| ==> !IsDigit(s[i])
  }

  lemma NoDigitRun(s: string)
    requires NoDigit(s)
    ensures DigitRun(s) == 0
    ensures forall k :: 0 <= k <= |s| ==> NoDigit(s[k..])
  {
  }

  /** A plain string of digits parses to the number it spells. */
  lemma ParseFloatDigits(s: string)
    requires s != [] && AllDigits(s)
    ensures ParseFloat(s) == Some(DigitsValue(s) as real)
  {
    ScanDigits(s);
    WholeValue(s);
  }

  lemma ScanDigits(s: string)
    requires s != [] && AllDigits(s)
    ensures ScanNumber(s) == Scan(false, s, [], [])
  {
    assert TrimStart(s) == s;
    AllDigitRun(s);
    assert s[..|s|] == s;
  }

  lemma WholeValue(s: string)
    requires AllDigits(s)
    ensures ScanValue(Scan(false, s, [], [])) == DigitsValue(s) as real
  {
    assert ExponentValue([]) == 0;
    WholeMantissa(s);
  }

  lemma WholeMantissa(ds: string)
    requires AllDigits(ds)
    ensures Mantissa(ds, []) == DigitsValue(ds) as real
  {
    assert DigitsValue([]) == 0;
    assert Pow10(0) == 1;
  }

  lemma AllDigitRun(s: string)
    requires AllDigits(s)
    ensures DigitRun(s) == |s|
  {
  }

  /** The numeric part of `parseInputToPx`: displayed units to logical units. */
  function DisplayToPx(num: real, unit: Unit, sub: SubUnit): (px: real)
    ensures px > 0.0 <==> num > 0.0
  {
    var cm := if unit == Imperial then num / CmToInch else if sub == Mm then num / 10.0 else num;
    cm * PixelsPerCm
  }

  /** `pxToDisplay`: logical units to the displayed unit. */
  function PxToDisplay(px: real, unit: Unit, sub: SubUnit): (v: real)
    ensures DisplayToPx(v, unit, sub) == px
  {
    var valCm := px / PixelsPerCm;
    if unit == Imperial then valCm * CmToInch
    else if sub == Mm then valCm * 10.0
    else valCm
  }

  /** Displaying a converted value gives back the value typed. */
  lemma DisplayRoundTrip(v: real, unit: Unit, sub: SubUnit)
    ensures PxToDisplay(DisplayToPx(v, unit, sub), unit, sub) == v
  {
  }

  /**
   * `parseInputToPx`: `null` exactly when `parseFloat` finds no number;
   * otherwise a length that displays as the number typed.
   */
  function ParseInputToPx(val: string, unit: Unit, sub: SubUnit): (r: Option<real>)
    ensures r.None? <==> ParseFloat(val).None?
    ensures r.Some? ==> PxToDisplay(r.value, unit, sub) == ParseFloat(val).value
    ensures r.Some? ==> (r.value > 0.0 <==> ParseFloat(val).value > 0.0)
  {
    match ParseFloat(val)
    case None => None
    case Some(num) => DisplayRoundTrip(num, unit, sub); Some(DisplayToPx(num, unit, sub))
  }

  /** `valToDisplay`: a thickness in millimetres to the displayed unit. */
  function ValToDisplay(mm: real, unit: Unit, sub: SubUnit): (v: real)
  {
    if unit == Imperial then mm / MmPerInch
    else if sub == Mm then mm
    else mm / 10.0
  }

  /** `displayToVal`: a displayed thickness back to millimetres. */
  function DisplayToVal(disp: real, unit: Unit, sub: SubUnit): (mm: real)
    ensures ValToDisplay(mm, unit, sub) == disp
  {
    if unit == Imperial then disp * MmPerInch
    else if sub == Mm then disp
    else disp * 10.0
  }

  lemma ThicknessRoundTrip(mm: real, unit: Unit, sub: SubUnit)
    ensures DisplayToVal(ValToDisplay(mm, unit, sub), unit, sub) == mm
  {
  }
}
