/** The JavaScript string/number conversions the controls use: `Number.prototype.toString(radix)`
    on integers, `parseInt(s)` without a radix, and the unary `+s` (ToNumber) on strings.
    Numbers are exact: a digit string denotes its exact value, with no rounding to
    double precision. */
module JsText {

  /** An integer-valued JavaScript number, or NaN. */
  datatype IntOrNaN = NaN | Int(i: int)

  /** A JavaScript number produced by ToNumber: NaN, a finite value, or an infinity. */
  datatype Number = NotANumber | Finite(r: real) | Infinite(negative: bool)

  /** StrWhiteSpaceChar of ECMAScript: WhiteSpace and LineTerminator code points. */
  predicate IsWhiteSpace(c: char) {
    || c == '\t' || c == '\n' || c == '\U{B}' || c == '\U{C}' || c == '\r' || c == ' '
    || c == '\U{A0}' || c == '\U{1680}' || ('\U{2000}' <= c <= '\U{200A}')
    || c == '\U{2028}' || c == '\U{2029}' || c == '\U{202F}' || c == '\U{205F}'
    || c == '\U{3000}' || c == '\U{FEFF}'
  }

  /** The value of `c` as a digit in base `radix`, or -1 when it is not one. */
  function DigitValue(c: char, radix: nat): (d: int)
    requires 2 <= radix <= 36
    ensures -1 <= d < radix as int
  {
    var v :=
      if '0' <= c <= '9' then c as int - '0' as int
      else if 'a' <= c <= 'z' then c as int - 'a' as int + 10
      else if 'A' <= c <= 'Z' then c as int - 'A' as int + 10
      else -1;
    if v < radix then v else -1
  }

  predicate IsDigit(c: char, radix: nat)
    requires 2 <= radix <= 36
  {
    DigitValue(c, radix) >= 0
  }

  /** The lower-case digit character for `d`. */
  function DigitChar(d: nat, radix: nat): (c: char)
    requires 2 <= radix <= 36 && d < radix
    ensures DigitValue(c, radix) == d
  {
    if d < 10 then ('0' as int + d) as char else ('a' as int + d - 10) as char
  }

  /** Euclidean division by a radix strictly shrinks a number at least as large. */
  lemma DivStep(n: nat, radix: nat)
    requires 2 <= radix <= n
    ensures 0 < n / radix < n
    ensures n == (n / radix) * radix + n % radix && 0 <= n % radix < radix
  {
    var q := n / radix;
    var r := n % radix;
    assert n == q * radix + r && 0 <= r < radix;
    MulAtLeastDouble(q, radix);
  }

  lemma MulAtLeastDouble(q: nat, radix: nat)
    requires 2 <= radix
    ensures q * radix >= q + q
  {
    var k := radix - 2;
    assert q * radix == q * k + q + q;
    MulNat(q, k);
  }

  /** Digits of a natural number in base `radix`, most significant first, no leading zero. */
  function NatToString(n: nat, radix: nat): (s: string)
    requires 2 <= radix <= 36
    ensures |s| > 0
    ensures forall i :: 0 <= i < |s| ==> IsDigit(s[i], radix)
    ensures n > 0 ==> s[0] != '0'
    decreases n
  {
    if n < radix then
      var c := DigitChar(n, radix);
      assert n > 0 ==> c != '0';
      [c]
    else
      DivStep(n, radix);
      var p := NatToString(n / radix, radix);
      var c := DigitChar(n % radix, radix);
      assert (p + [c])[0] == p[0];
      assert forall i :: 0 <= i < |p| ==> (p + [c])[i] == p[i];
      p + [c]
  }

  /** `n.toString(radix)` for an integer n. */
  function IntToString(n: int, radix: nat): string
    requires 2 <= radix <= 36
  {
    if n < 0 then "-" + NatToString(-n, radix) else NatToString(n, radix)
  }

  /** `toUpperCase` on the ASCII letters of a digit string. */
  function UpperCase(s: string): (u: string)
    ensures |u| == |s|
    ensures forall i :: 0 <= i < |s| ==> u[i] == (if 'a' <= s[i] <= 'z' then (s[i] as int - 32) as char else s[i])
  {
    if s == [] then [] else
      var c := s[0];
      [if 'a' <= c <= 'z' then (c as int - 32) as char else c] + UpperCase(s[1..])
  }

  lemma MulNat(a: nat, b: nat)
    ensures a * b >= 0
  {
  }

  /** The value of a string made only of base-`radix` digits. */
  function DigitsValue(s: string, radix: nat): nat
    requires 2 <= radix <= 36
    requires forall i :: 0 <= i < |s| ==> IsDigit(s[i], radix)
  {
    if s == [] then 0 else
      var d := DigitValue(s[|s| - 1], radix);
      assert IsDigit(s[|s| - 1], radix);
      var high: nat := DigitsValue(s[..|s| - 1], radix);
      MulNat(high, radix);
      high * radix + d
  }

  /** Reading back the digits of n gives n. */
  lemma {:induction false} NatToStringRoundTrip(n: nat, radix: nat)
    requires 2 <= radix <= 36
    ensures DigitsValue(NatToString(n, radix), radix) == n
    decreases n
  {
    var s := NatToString(n, radix);
    if n >= radix {
      DivStep(n, radix);
      var p := NatToString(n / radix, radix);
      assert s == p + [DigitChar(n % radix, radix)];
      assert s[..|s| - 1] == p;
      NatToStringRoundTrip(n / radix, radix);
    }
  }

  /** The number of leading characters of `s` that are base-`radix` digits. */
  function LeadingDigits(s: string, radix: nat): (n: nat)
    requires 2 <= radix <= 36
    ensures n <= |s|
    ensures forall i :: 0 <= i < n ==> IsDigit(s[i], radix)
    ensures n < |s| ==> !IsDigit(s[n], radix)
  {
    if s == [] || !IsDigit(s[0], radix) then 0 else 1 + LeadingDigits(s[1..], radix)
  }

  /** A string made of digits is all digits. */
  lemma {:induction false} LeadingDigitsOfDigits(s: string, radix: nat)
    requires 2 <= radix <= 36
    requires forall i :: 0 <= i < |s| ==> IsDigit(s[i], radix)
    ensures LeadingDigits(s, radix) == |s|
  {
    if s != [] {
      LeadingDigitsOfDigits(s[1..], radix);
    }
  }

  /** `s` with its leading StrWhiteSpaceChar characters removed. */
  function TrimStart(s: string): (t: string)
    ensures |t| <= |s| && t == s[|s| - |t|..]
    ensures t != [] ==> !IsWhiteSpace(t[0])
    ensures forall i :: 0 <= i < |s| - |t| ==> IsWhiteSpace(s[i])
  {
    if s != [] && IsWhiteSpace(s[0]) then TrimStart(s[1..]) else s
  }

  /** `s` with its trailing StrWhiteSpaceChar characters removed. */
  function TrimEnd(s: string): (t: string)
    ensures |t| <= |s| && t == s[..|t|]
    ensures t != [] ==> !IsWhiteSpace(t[|t| - 1])
    ensures forall i :: |t| <= i < |s| ==> IsWhiteSpace(s[i])
  {
    if s != [] && IsWhiteSpace(s[|s| - 1]) then TrimEnd(s[..|s| - 1]) else s
  }

  /** `parseInt(s)` with no radix argument: leading white space is skipped, one
      sign is accepted, a `0x`/`0X` prefix selects base 16, and the longest run of
      digits that follows is read; without any digit the result is NaN. */
  function ParseInt(s: string): IntOrNaN {
    ParseSigned(TrimStart(s))
  }

  function ParseSigned(t: string): IntOrNaN {
    if t != [] && t[0] == '-' then
      match ParseUnsigned(t[1..])
      case Int(m) => Int(-m)
      case NaN => NaN
    else if t != [] && t[0] == '+' then ParseUnsigned(t[1..])
    else ParseUnsigned(t)
  }

  predicate HasHexPrefix(u: string) {
    |u| >= 2 && u[0] == '0' && (u[1] == 'x' || u[1] == 'X')
  }

  function ParseUnsigned(u: string): (r: IntOrNaN)
    ensures r.Int? ==> r.i >= 0
  {
    if HasHexPrefix(u) then ParseDigitRun(u[2..], 16) else ParseDigitRun(u, 10)
  }

  /** The value of the longest digit run at the start of `v`, NaN if there is none. */
  function ParseDigitRun(v: string, radix: nat): (r: IntOrNaN)
    requires 2 <= radix <= 36
    ensures r.Int? <==> v != [] && IsDigit(v[0], radix)
    ensures r.Int? ==> r.i >= 0
  {
    var n := LeadingDigits(v, radix);
    if n == 0 then NaN else Int(DigitsValue(v[..n], radix))
  }

  /** A decimal digit string never looks like the start of a hexadecimal literal. */
  lemma DecimalNotHex(m: nat)
    ensures !HasHexPrefix(NatToString(m, 10))
  {
    var d := NatToString(m, 10);
    if |d| >= 2 {
      assert IsDigit(d[1], 10);
    }
  }

  /** A decimal digit is one of '0'..'9'. */
  lemma DecimalDigitRange(c: char)
    requires IsDigit(c, 10)
    ensures '0' <= c <= '9'
  {
  }

  /** A decimal numeral starts with '-' or a digit, never with white space. */
  lemma DecimalUntrimmed(n: int)
    ensures TrimStart(IntToString(n, 10)) == IntToString(n, 10)
  {
    var s := IntToString(n, 10);
    var d := NatToString(if n < 0 then -n else n, 10);
    DecimalDigitRange(d[0]);
    assert s[0] == '-' || s[0] == d[0];
    assert !IsWhiteSpace(s[0]);
  }

  /** The digits of a natural number read back as that number. */
  lemma UnsignedOfDecimal(m: nat)
    ensures ParseUnsigned(NatToString(m, 10)) == Int(m)
  {
    var d := NatToString(m, 10);
    DecimalNotHex(m);
    LeadingDigitsOfDigits(d, 10);
    assert d[..|d|] == d;
    NatToStringRoundTrip(m, 10);
  }

  /** Decimal printing and `parseInt` are inverse: `parseInt(String(n)) == n`. */
  lemma ParseIntOfDecimal(n: int)
    ensures ParseInt(IntToString(n, 10)) == Int(n)
  {
    var m: nat := if n < 0 then -n else n;
    var d := NatToString(m, 10);
    var s := IntToString(n, 10);
    DecimalUntrimmed(n);
    UnsignedOfDecimal(m);
    DecimalDigitRange(d[0]);
    if n < 0 {
      assert s[1..] == d;
    } else {
      assert s == d;
    }
  }

  /** 10 to the power e, for any integer e. */
  function Pow10(e: int): (p: real)
    ensures p > 0.0
    decreases if e < 0 then -e else e
  {
    if e == 0 then 1.0
    else if e > 0 then 10.0 * Pow10(e - 1)
    else Pow10(e + 1) / 10.0
  }

  /** An unsigned StrUnsignedDecimalLiteral other than `Infinity`: digits, an optional
      fraction after `.`, at least one digit in all, and an optional exponent. */
  function UnsignedDecimal(u: string): Option<real> {
    var i := LeadingDigits(u, 10);
    var (frac, afterFrac) := FractionPart(u[i..]);
    if i + |frac| == 0 then None
    else match ExponentPart(afterFrac)
      case None => None
      case Some(x) => Some(Mantissa(u[..i], frac) * Pow10(x))
  }

  /** The digits after a leading `.`, and what follows them. */
  function FractionPart(a: string): (r: (string, string))
    ensures forall k :: 0 <= k < |r.0| ==> IsDigit(r.0[k], 10)
    ensures a == [] ==> r == ([], [])
  {
    if a != [] && a[0] == '.' then
      var f := LeadingDigits(a[1..], 10);
      (a[1..1 + f], a[1 + f..])
    else ([], a)
  }

  /** The value of an optional exponent `e`/`E` with an optional sign; None when
      anything else is left over. */
  function ExponentPart(a: string): Option<int> {
    if a == [] then Some(0)
    else if a[0] != 'e' && a[0] != 'E' then None
    else
      var e := a[1..];
      var ed := if e != [] && (e[0] == '-' || e[0] == '+') then e[1..] else e;
      if ed == [] || LeadingDigits(ed, 10) != |ed| then None
      else
        var x: int := DigitsValue(ed, 10);
        Some(if e[0] == '-' then -x else x)
  }

  /** The value of integer digits followed by fraction digits. */
  function Mantissa(intPart: string, frac: string): real
    requires forall k :: 0 <= k < |intPart| ==> IsDigit(intPart[k], 10)
    requires forall k :: 0 <= k < |frac| ==> IsDigit(frac[k], 10)
  {
    DigitsValue(intPart, 10) as real + DigitsValue(frac, 10) as real / Pow10(|frac|)
  }

  /** `0x`, `0o` and `0b` literals (no sign allowed). */
  function NonDecimal(t: string): (r: Option<real>)
    requires |t| >= 2 && t[0] == '0'
  {
    var radix := if t[1] == 'x' || t[1] == 'X' then 16 else if t[1] == 'o' || t[1] == 'O' then 8 else 2;
    var ds := t[2..];
    if ds == [] || LeadingDigits(ds, radix) != |ds| then None else Some(DigitsValue(ds, radix) as real)
  }

  predicate HasRadixPrefix(t: string) {
    |t| >= 2 && t[0] == '0' && t[1] in "xXoObB"
  }

  /** Unary `+s` on a string (ECMAScript StringToNumber): surrounding white space is
      ignored, an empty string is 0, and anything that is not a numeric literal is NaN. */
  function StringToNumber(s: string): Number {
    TrimmedToNumber(TrimEnd(TrimStart(s)))
  }

  /** StringToNumber on a string without surrounding white space. */
  function TrimmedToNumber(t: string): Number {
    if t == [] then Finite(0.0)
    else if HasRadixPrefix(t) then
      match NonDecimal(t)
      case Some(v) => Finite(v)
      case None => NotANumber
    else
      var neg := t[0] == '-';
      var u := if t[0] == '-' || t[0] == '+' then t[1..] else t;
      if u == "Infinity" then Infinite(neg)
      else match UnsignedDecimal(u)
        case Some(v) => Finite(if neg then -v else v)
        case None => NotANumber
  }

  /** `+String(n) == n` for every integer n. */
  lemma StringToNumberOfDecimal(n: int)
    ensures StringToNumber(IntToString(n, 10)) == Finite(n as real)
  {
    var m: nat := if n < 0 then -n else n;
    var d := NatToString(m, 10);
    var s := IntToString(n, 10);
    DecimalHasNoSpaces(n);
    UnsignedDecimalOfDigits(m);
    DecimalDigitRange(d[0]);
    assert !HasRadixPrefix(s) by {
      if n >= 0 {
        assert s == d;
      }
    }
    assert d != "Infinity";
    if n < 0 {
      assert s[1..] == d;
    } else {
      assert s == d;
    }
  }

  /** A decimal numeral has no white space to trim. */
  lemma DecimalHasNoSpaces(n: int)
    ensures TrimEnd(TrimStart(IntToString(n, 10))) == IntToString(n, 10)
  {
    var m: nat := if n < 0 then -n else n;
    var d := NatToString(m, 10);
    var s := IntToString(n, 10);
    DecimalDigitRange(d[0]);
    DecimalDigitRange(d[|d| - 1]);
    assert !IsWhiteSpace(s[0]) by {
      assert s[0] == '-' || s[0] == d[0];
    }
    assert TrimStart(s) == s;
    assert !IsWhiteSpace(s[|s| - 1]) by {
      assert s[|s| - 1] == d[|d| - 1];
    }
  }

  /** The digits of m read as a decimal literal denote m. */
  lemma UnsignedDecimalOfDigits(m: nat)
    ensures UnsignedDecimal(NatToString(m, 10)) == Some(m as real)
  {
    var d := NatToString(m, 10);
    LeadingDigitsOfDigits(d, 10);
    assert d[..|d|] == d && d[|d|..] == [];
    assert FractionPart([]) == ([], []);
    assert ExponentPart([]) == Some(0);
    NatToStringRoundTrip(m, 10);
    assert Mantissa(d, []) == m as real;
  }

  /** White space around a numeric string does not change its value. */
  lemma StringToNumberIgnoresSpaces(s: string)
    ensures StringToNumber(" " + s + "\t") == StringToNumber(s)
  {
    var w := " " + s + "\t";
    assert TrimStart(w) == TrimStart(s + "\t") by {
      assert w[1..] == s + "\t";
    }
    TrimStartEndCommute(s);
  }

  /** Trimming the start of `s + "\t"` and then the end is the same as trimming `s`. */
  lemma {:induction false} TrimStartEndCommute(s: string)
    ensures TrimEnd(TrimStart(s + "\t")) == TrimEnd(TrimStart(s))
  {
    if s != [] && IsWhiteSpace(s[0]) {
      assert (s + "\t")[1..] == s[1..] + "\t";
      TrimStartEndCommute(s[1..]);
    } else if s == [] {
      TrimTabAlone();
    } else {
      TrimTabAfterText(s);
    }
  }

  lemma TrimTabAlone()
    ensures TrimEnd(TrimStart([] + "\t")) == TrimEnd(TrimStart([]))
  {
    assert [] + "\t" == "\t";
    assert TrimStart("\t") == [];
  }

  /** Text that does not start with white space keeps its start; the tab goes at the
      end. */
  lemma TrimTabAfterText(s: string)
    requires s != [] && !IsWhiteSpace(s[0])
    ensures TrimEnd(TrimStart(s + "\t")) == TrimEnd(TrimStart(s))
  {
    assert TrimStart(s + "\t") == s + "\t";
    assert TrimStart(s) == s;
    assert (s + "\t")[..|s|] == s;
  }

  import opened Wrappers
}
