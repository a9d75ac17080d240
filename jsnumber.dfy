/**
  The two ways the application turns text into a number, over exact reals:
  `Number(s)` (the whole string, after trimming, must be a numeric literal)
  and `parseFloat(s)` (the longest decimal prefix after leading whitespace).
  `None` stands for `NaN`.
 */
module JsNumber {
  import opened Common
  import JsString

  predicate IsDigit(c: char)
  {
    '0' <= c <= '9'
  }

  predicate IsDigits(s: string)
  {
    forall i :: 0 <= i < |s| ==> IsDigit(s[i])
  }

  /** The value of `s` read in base `radix`, when every character is a digit of that base. */
  function DigitOf(c: char, radix: nat): Option<nat>
  {
    var d :=
      if '0' <= c <= '9' then c as int - '0' as int
      else if 'a' <= c <= 'z' then c as int - 'a' as int + 10
      else if 'A' <= c <= 'Z' then c as int - 'A' as int + 10
      else radix;
    if d < radix then Some(d) else None
  }

  function RadixValue(s: string, radix: nat): Option<nat>
  {
    if s == [] then Some(0)
    else match (RadixValue(s[..|s| - 1], radix), DigitOf(s[|s| - 1], radix))
      case (Some(v), Some(d)) => Some(v * radix + d)
      case _ => None
  }

  lemma {:induction false} DecimalDigitsHaveValue(s: string)
    requires IsDigits(s)
    ensures RadixValue(s, 10).Some?
  {
    if s != [] {
      DecimalDigitsHaveValue(s[..|s| - 1]);
    }
  }

  function Pow10(n: nat): (r: nat)
    ensures r >= 1
  {
    if n == 0 then 1 else 10 * Pow10(n - 1)
  }

  /** The first index whose character satisfies `p`, or `|s|` when there is none. */
  function FirstWhere(s: string, p: char -> bool): (k: nat)
    ensures k <= |s|
    ensures forall j :: 0 <= j < k ==> !p(s[j])
    ensures k < |s| ==> p(s[k])
  {
    if s == [] || p(s[0]) then 0 else 1 + FirstWhere(s[1..], p)
  }

  /** An exponent: an optional sign followed by at least one decimal digit. */
  function Exponent(s: string): Option<int>
  {
    var neg := s != [] && s[0] == '-';
    var digits := if s != [] && (s[0] == '+' || s[0] == '-') then s[1..] else s;
    if digits != [] && IsDigits(digits) then
      match RadixValue(digits, 10)
      case Some(v) =>
        var e: int := if neg then -(v as int) else v;
        Some(e)
      case None => None
    else None
  }

  function Scale(x: real, e: int): real
  {
    if e >= 0 then x * (Pow10(e) as real) else x / (Pow10(-e) as real)
  }

  predicate IsExponentMark(c: char)
  {
    c == 'e' || c == 'E'
  }

  predicate IsPoint(c: char)
  {
    c == '.'
  }

  /** Digits, an optional `.` and fraction digits, with at least one digit in all. */
  function Mantissa(m: string): (r: Option<real>)
    ensures r.Some? ==> m != [] && (IsDigit(m[0]) || m[0] == '.')
  {
    var d := FirstWhere(m, IsPoint);
    var whole := m[..d];
    var fraction := if d < |m| then m[d + 1..] else [];
    if IsDigits(whole) && IsDigits(fraction) && |whole| + |fraction| > 0 then
      match (RadixValue(whole, 10), RadixValue(fraction, 10))
      case (Some(w), Some(f)) =>
        assert whole != [] ==> m[0] == whole[0];
        Some(w as real + f as real / Pow10(|fraction|) as real)
      case _ => None
    else None
  }

  /**
    An unsigned decimal literal: a mantissa, then an optional exponent
    introduced by `e` or `E`.
   */
  function UnsignedDecimal(s: string): (r: Option<real>)
    ensures r.Some? ==> s != [] && (IsDigit(s[0]) || s[0] == '.')
  {
    var e := FirstWhere(s, IsExponentMark);
    var exponent := if e < |s| then Exponent(s[e + 1..]) else Some(0);
    match (Mantissa(s[..e]), exponent)
    case (Some(m), Some(x)) =>
      assert s[..e][0] == s[0];
      Some(Scale(m, x))
    case _ => None
  }

  /** A decimal literal with an optional sign. */
  function SignedDecimal(s: string): (r: Option<real>)
    ensures r.Some? ==> s != [] && (IsDigit(s[0]) || s[0] in "+-.")
  {
    if s != [] && (s[0] == '+' || s[0] == '-') then
      match UnsignedDecimal(s[1..])
      case Some(v) => Some(if s[0] == '-' then -v else v)
      case None => None
    else UnsignedDecimal(s)
  }

  /** A `0x`, `0o` or `0b` integer literal (no sign is allowed before one). */
  function NonDecimal(s: string): (r: Option<real>)
    ensures r.Some? ==> |s| > 2 && s[0] == '0'
  {
    if |s| > 2 && s[0] == '0' then
      var radix :=
        if s[1] == 'x' || s[1] == 'X' then 16
        else if s[1] == 'o' || s[1] == 'O' then 8
        else if s[1] == 'b' || s[1] == 'B' then 2
        else 0;
      if radix == 0 then None
      else match RadixValue(s[2..], radix)
        case Some(v) => Some(v as real)
        case None => None
    else None
  }

  /** `Number(s)`: the trimmed text must be empty (zero) or a numeric literal as a whole. */
  function ToNumber(s: string): Option<real>
  {
    var t := JsString.Trim(s);
    if t == [] then Some(0.0)
    else match NonDecimal(t)
      case Some(v) => Some(v)
      case None => SignedDecimal(t)
  }

  /** `!isNaN(Number(s))`. */
  predicate IsNumeric(s: string)
  {
    ToNumber(s).Some?
  }

  /** The value `read` gives the longest prefix of `t[..k]` it accepts. */
  function LongestPrefix(t: string, k: nat, read: string -> Option<real>): Option<real>
    requires k <= |t|
    decreases k
  {
    match read(t[..k])
    case Some(v) => Some(v)
    case None => if k == 0 then None else LongestPrefix(t, k - 1, read)
  }

  /** The value read is that of a prefix no longer prefix of which is accepted; none when no prefix is. */
  lemma {:induction false} LongestPrefixMeaning(t: string, k: nat, read: string -> Option<real>)
    requires k <= |t|
    ensures LongestPrefix(t, k, read).Some? ==> exists j :: (0 <= j <= k &&
      read(t[..j]) == LongestPrefix(t, k, read) && forall i :: j < i <= k ==> read(t[..i]).None?)
    ensures LongestPrefix(t, k, read).None? ==> forall i :: 0 <= i <= k ==> read(t[..i]).None?
    decreases k
  {
    if read(t[..k]).None? && k > 0 {
      LongestPrefixMeaning(t, k - 1, read);
    }
  }

  /** `parseFloat(s)` on text: leading white space is skipped, then the longest decimal prefix is read. */
  function ParseFloatText(s: string): Option<real>
  {
    var t := JsString.TrimStart(s);
    LongestPrefix(t, |t|, SignedDecimal)
  }

  /**
    `parseFloat` reads the longest prefix of the text after its leading white
    space that is a decimal literal, and is `NaN` when no prefix is one.
   */
  lemma ParseFloatTextMeaning(s: string)
    ensures var t := JsString.TrimStart(s);
      && (ParseFloatText(s).Some? ==> exists j :: (0 <= j <= |t| && SignedDecimal(t[..j]) == ParseFloatText(s) &&
            forall i :: j < i <= |t| ==> SignedDecimal(t[..i]).None?))
      && (ParseFloatText(s).None? ==> forall i :: 0 <= i <= |t| ==> SignedDecimal(t[..i]).None?)
  {
    var t := JsString.TrimStart(s);
    LongestPrefixMeaning(t, |t|, SignedDecimal);
  }

  /** Text that starts with something other than a digit, a sign, `.` or whitespace is `NaN`. */
  lemma NotNumericByFirstChar(s: string)
    requires s != [] && !IsDigit(s[0]) && s[0] !in "+-." && !JsString.IsWhitespace(s[0])
    ensures !IsNumeric(s)
  {
    var t := JsString.Trim(s);
    assert t == JsString.TrimEnd(JsString.TrimStart(s));
    assert JsString.TrimStart(s) == s;
    assert t != [] && t[0] == s[0];
  }

  lemma UnsignedDigits(s: string)
    requires s != [] && IsDigits(s)
    ensures RadixValue(s, 10).Some?
    ensures UnsignedDecimal(s) == Some(RadixValue(s, 10).value as real)
  {
    DecimalDigitsHaveValue(s);
    var e := FirstWhere(s, IsExponentMark);
    assert e < |s| ==> IsDigit(s[e]);
    assert s[..e] == s;
    var d := FirstWhere(s, IsPoint);
    assert d < |s| ==> IsDigit(s[d]);
    assert s[..d] == s;
    assert RadixValue([], 10) == Some(0);
    var v := RadixValue(s, 10).value as real;
    assert Mantissa(s) == Some(v);
    assert Scale(v, 0) == v;
  }

  /** A plain run of decimal digits is numeric, with its decimal value. */
  lemma DigitsAreNumeric(s: string)
    requires s != [] && IsDigits(s)
    ensures RadixValue(s, 10).Some?
    ensures ToNumber(s) == Some(RadixValue(s, 10).value as real)
  {
    UnsignedDigits(s);
    DigitsAreTrimmed(s);
    DigitsAreNotNonDecimal(s);
    NumberOfTrimmedDecimal(s);
  }

  lemma DigitsAreNotNonDecimal(s: string)
    requires IsDigits(s)
    ensures NonDecimal(s) == None
  {
    assert |s| > 2 ==> IsDigit(s[1]);
  }

  /** Text that is already trimmed and is no `0x`/`0o`/`0b` literal is read as a signed decimal. */
  lemma NumberOfTrimmedDecimal(s: string)
    requires JsString.Trim(s) == s && s != []
    requires NonDecimal(s) == None
    ensures ToNumber(s) == SignedDecimal(s)
  {
  }

  lemma DigitsAreTrimmed(s: string)
    requires IsDigits(s)
    ensures JsString.Trim(s) == s
  {
    assert JsString.IsTrimmed(s);
  }

  /** A single decimal digit is the number it names. */
  lemma SingleDigitIsNumeric(c: char)
    requires IsDigit(c)
    ensures ToNumber([c]) == Some((c as int - '0' as int) as real)
  {
    DigitsAreNumeric([c]);
    SingleDigitValue(c);
  }

  lemma SingleDigitValue(c: char)
    requires IsDigit(c)
    ensures RadixValue([c], 10) == Some(c as int - '0' as int)
  {
    assert [c][..0] == [];
    assert DigitOf(c, 10) == Some(c as int - '0' as int);
  }
}
