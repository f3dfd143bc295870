/** Scalar coercion: `to_int`, `to_str` and `check_input`
    (pyjstat/pyjstat.py:64-96, 145-160), and the `float(version) >= 2.0`
    test of `check_version_2` (pyjstat/pyjstat.py:99-119). */
module Coercion {
  import opened Wrappers
  import opened JsonStat

  predicate IsDigit(c: char) {
    '0' <= c <= '9'
  }

  predicate AllDigits(s: string) {
    forall i :: 0 <= i < |s| ==> IsDigit(s[i])
  }

  function DigitsValue(s: string): nat
    requires AllDigits(s)
    decreases |s|
  {
    if |s| == 0 then 0
    else 10 * DigitsValue(s[..|s| - 1]) + (s[|s| - 1] as int - '0' as int)
  }

  /** The strings Python's `int(s)` accepts, as far as this model goes: an
      optional sign followed by at least one ASCII digit. */
  predicate IsIntLiteral(s: string) {
    || (|s| > 0 && AllDigits(s))
    || (|s| > 1 && (s[0] == '-' || s[0] == '+') && AllDigits(s[1..]))
  }

  /** `int(s)` on a string; None stands for the ValueError. */
  function ParseInt(s: string): (r: Option<int>)
    ensures r.Some? <==> IsIntLiteral(s)
  {
    if |s| > 0 && AllDigits(s) then Some(DigitsValue(s))
    else if |s| > 1 && s[0] == '-' && AllDigits(s[1..]) then Some(-(DigitsValue(s[1..]) as int))
    else if |s| > 1 && s[0] == '+' && AllDigits(s[1..]) then Some(DigitsValue(s[1..]))
    else None
  }

  function DigitChar(d: nat): char
    requires d < 10
  {
    ('0' as int + d) as char
  }

  /** The decimal digits of `n`, most significant first, without leading zeros. */
  function NatDigits(n: nat): (s: string)
    ensures |s| > 0 && AllDigits(s)
    ensures s[0] == '0' <==> n == 0
    ensures n == 0 ==> s == "0"
  {
    if n < 10 then [DigitChar(n)] else NatDigits(n / 10) + [DigitChar(n % 10)]
  }

  /** `str(n)` for an integer. */
  function Decimal(n: int): (s: string)
    ensures |s| > 0 && (AllDigits(s) <==> n >= 0)
  {
    if n < 0 then
      var s := "-" + NatDigits(-n);
      assert !IsDigit(s[0]);
      s
    else NatDigits(n)
  }

  lemma {:induction false} NatDigitsValue(n: nat)
    ensures DigitsValue(NatDigits(n)) == n
  {
    if n >= 10 {
      NatDigitsValue(n / 10);
      var s := NatDigits(n);
      assert s[..|s| - 1] == NatDigits(n / 10);
    }
  }

  /** `int(str(n)) == n`. */
  lemma DecimalRoundTrip(n: int)
    ensures ParseInt(Decimal(n)) == Some(n)
  {
    if n < 0 {
      NatDigitsValue(-n);
      assert Decimal(n)[1..] == NatDigits(-n);
    } else {
      NatDigitsValue(n);
    }
  }

  /** `int(x)` for a float: truncation toward zero. */
  function Truncate(x: real): (i: int)
    ensures x >= 0.0 ==> 0.0 <= i as real <= x < i as real + 1.0
    ensures x < 0.0 ==> i as real - 1.0 < x <= i as real <= 0.0
  {
    if x >= 0.0 then x.Floor else -((-x).Floor)
  }

  /** `to_int`: an integer-looking value becomes an integer, any other
      string stays as it is; `int(None)` raises TypeError, which `to_int`
      does not catch. */
  function ToInt(c: Cell): (r: Result<Cell, Error>)
    ensures r.Ok? <==> !c.NullCell?
    ensures r.Ok? ==> r.value.IntCell? || r.value == c
    ensures c.StrCell? ==> r == Ok(if IsIntLiteral(c.s) then IntCell(ParseInt(c.s).value) else c)
    ensures c.IntCell? ==> r == Ok(c)
    ensures c.RealCell? ==> r == Ok(IntCell(Truncate(c.x)))
  {
    match c
    case IntCell(i) => Ok(c)
    case StrCell(s) => (match ParseInt(s) case Some(n) => Ok(IntCell(n)) case None => Ok(c))
    case RealCell(x) => Ok(IntCell(Truncate(x)))
    case NullCell => Err(TypeError)
  }

  /** `to_str`: an integer becomes its decimal string and a string is
      returned as it is (`str` of a string is the string itself). The
      decimal form of a float is Python's float formatting, which this model
      does not include. */
  function ToStr(c: Cell): (r: Result<string, Error>)
    ensures r.Ok? <==> c.IntCell? || c.StrCell?
    ensures c.StrCell? ==> r == Ok(c.s)
    ensures c.IntCell? ==> r.Ok? && ParseInt(r.value) == Some(c.i)
  {
    match c
    case IntCell(i) => DecimalRoundTrip(i); Ok(Decimal(i))
    case StrCell(s) => Ok(s)
    case RealCell(_) => Err(Unsupported("str() of a float"))
    case NullCell => Err(TypeError)
  }

  /** `to_int(to_str(x)) == to_int(x)`: coercing to the string form loses
      nothing `to_int` can see. */
  lemma ToIntAfterToStr(c: Cell)
    requires ToStr(c).Ok?
    ensures ToInt(StrCell(ToStr(c).value)) == ToInt(c)
  {
  }

  /** Two integers with the same decimal form are equal. */
  lemma DecimalInjective(a: int, b: int)
    requires Decimal(a) == Decimal(b)
    ensures a == b
  {
    DecimalRoundTrip(a);
    DecimalRoundTrip(b);
  }

  datatype Naming = ByLabel | ById

  function NamingKey(n: Naming): string {
    match n
    case ByLabel => "label"
    case ById => "id"
  }

  /** `check_input`: the naming must be "label" or "id", otherwise ValueError. */
  function CheckInput(naming: string): (r: Result<Naming, Error>)
    ensures r.Ok? <==> naming == "label" || naming == "id"
    ensures r.Ok? ==> NamingKey(r.value) == naming
    ensures r.Err? ==> r.error.ValueError?
  {
    if naming == "label" then Ok(ByLabel)
    else if naming == "id" then Ok(ById)
    else Err(ValueError("naming must be \"label\" or \"id\""))
  }

  function Pow10(k: nat): (p: nat)
    ensures p >= 1
  {
    if k == 0 then 1 else 10 * Pow10(k - 1)
  }

  /** Position of the first '.' in `s`, or |s| when there is none. */
  function DotPosition(s: string): (p: nat)
    ensures p <= |s| && (p < |s| ==> s[p] == '.')
    ensures forall i :: 0 <= i < p ==> s[i] != '.'
  {
    if |s| == 0 then 0
    else if s[0] == '.' then 0
    else 1 + DotPosition(s[1..])
  }

  /** `float(s)` for the plain decimal forms a version string takes
      ("2", "2.0", "1.3", ".5", "2."); None stands for the ValueError. */
  function ParseDecimalNumber(s: string): (r: Option<real>)
    ensures r.Some? ==> r.value >= 0.0
    ensures r.Some? ==> exists w, f :: DecimalSplit(s, w, f) && r.value == DecimalValue(w, f)
  {
    var p := DotPosition(s);
    var whole := s[..p];
    var frac := if p < |s| then s[p + 1..] else "";
    if |whole| + |frac| > 0 && AllDigits(whole) && AllDigits(frac) then
      assert p < |s| ==> s == whole + "." + frac;
      assert DecimalSplit(s, whole, frac);
      Some(DecimalValue(whole, frac))
    else None
  }

  /** `s` is the digits `w`, or the digits `w`, a dot and the digits `f`,
      with at least one digit in all. */
  predicate DecimalSplit(s: string, w: string, f: string) {
    AllDigits(w) && AllDigits(f) && |w| + |f| > 0 && (s == w + "." + f || (s == w && f == ""))
  }

  /** The number written `w.f`. */
  function DecimalValue(w: string, f: string): real
    requires AllDigits(w) && AllDigits(f)
  {
    DigitsValue(w) as real + DigitsValue(f) as real / Pow10(|f|) as real
  }

  /** Every digits-dot-digits string parses, to the number it writes. */
  lemma ParseDecimalOfSplit(s: string, w: string, f: string)
    requires DecimalSplit(s, w, f)
    ensures ParseDecimalNumber(s) == Some(DecimalValue(w, f))
  {
    var p := DotPosition(s);
    if s == w + "." + f {
      assert s[|w|] == '.';
      assert forall i :: 0 <= i < |w| ==> s[i] == w[i] && s[i] != '.';
      assert s[..p] == w && s[p + 1..] == f;
    } else {
      assert forall i :: 0 <= i < |s| ==> s[i] != '.';
      assert s[..p] == w;
    }
  }

  /** `float(version) >= 2.0 if version else False`: a missing or empty
      version is not 2.0; an unparsable one raises ValueError. */
  function CheckVersion2(version: Option<string>): (r: Result<bool, Error>)
    ensures (version.None? || version == Some("")) ==> r == Ok(false)
    ensures r.Err? <==> version.Some? && version.value != "" && ParseDecimalNumber(version.value).None?
    ensures r.Ok? && version.Some? && version.value != "" ==>
      r.value == (ParseDecimalNumber(version.value).value >= 2.0)
  {
    if version.None? || version.value == "" then Ok(false)
    else match ParseDecimalNumber(version.value)
      case None => Err(ValueError("could not convert string to float"))
      case Some(x) => Ok(x >= 2.0)
  }
}
