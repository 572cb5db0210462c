/** The tooltip of the shared widget base: `valstr`, the printf-like `numformat`
    (one `%[width][.precision]kind` directive, padded and substituted into the
    template) and `showtip`'s choice of template. */
module Tooltip {
  import opened Wrappers
  import opened JsNumber
  import opened JsText
  import opened Sequences
  import opened ValueRule

  /** `x.toFixed(c)` and `x.toString()`, the number printers the tooltip borrows. */
  datatype Printers = Printers(fixed: (real, int) -> string, show: real -> string)

  /** A directive letter: one of "dfxXs". */
  predicate IsKind(c: char) {
    c == 'd' || c == 'f' || c == 'x' || c == 'X' || c == 's'
  }

  /** `valstr(x, c, type)`: 'd', 'x' and 'X' print the 32-bit truncation of x in
      decimal, lower-case hex and upper-case hex; 'f' and 's' print with `toFixed(c)`
      and `toString()`; no other letter prints anything. */
  function ValStr(x: real, c: int, kind: Option<char>, pr: Printers): (s: string)
    ensures kind.None? || !IsKind(kind.value) ==> s == ""
  {
    match kind
    case Some('x') => IntToString(ToInt32(x), 16)
    case Some('X') => UpperCase(IntToString(ToInt32(x), 16))
    case Some('d') => IntToString(ToInt32(x), 10)
    case Some('f') => pr.fixed(x, c)
    case Some('s') => pr.show(x)
    case _ => ""
  }

  /** 'd' prints what `parseInt` reads back as the value truncated toward zero (for
      values within 32 bits). */
  lemma ValStrDecimalReadsBack(x: real, c: int, pr: Printers)
    requires -TwoTo31 as real < x < TwoTo31 as real
    ensures ParseInt(ValStr(x, c, Some('d'), pr)) == Int(Trunc(x))
  {
    var n := ToInt32(x);
    assert ValStr(x, c, Some('d'), pr) == IntToString(n, 10);
    ParseIntOfDecimal(n);
    ToInt32Small(x);
  }

  /** 'x' prints the hexadecimal digits of a non-negative value's integer part. */
  lemma ValStrHexReadsBack(x: real, c: int, pr: Printers)
    requires 0.0 <= x < TwoTo31 as real
    ensures var s := ValStr(x, c, Some('x'), pr);
            (forall i :: 0 <= i < |s| ==> IsDigit(s[i], 16)) && DigitsValue(s, 16) == Trunc(x)
  {
    ToInt32Small(x);
    NatToStringRoundTrip(Trunc(x), 16);
  }

  /** 'X' prints the same digits as 'x' with the letters in upper case. */
  lemma ValStrUpperHex(x: real, c: int, pr: Printers)
    ensures ValStr(x, c, Some('X'), pr) == UpperCase(ValStr(x, c, Some('x'), pr))
  {
  }

  /** The directive `numformat` reads: the width before '.', the precision after it
      (each NaN once a non-digit is met), and the letter that ends it, if any. */
  datatype Directive = Directive(width: IntOrNaN, precision: IntOrNaN, kind: Option<char>)

  /** `parseInt` of a single character: its value for a decimal digit, NaN for
      anything else (see `ParseIntOfChar`). */
  function CharDigit(ch: char): IntOrNaN {
    if '0' <= ch <= '9' then Int(ch as int - '0' as int) else NaN
  }

  /** `c[m] = c[m] * 10 + parseInt(ch)`, where NaN swallows everything. */
  function Accumulate(acc: IntOrNaN, ch: char): IntOrNaN {
    match (acc, CharDigit(ch))
    case (Int(a), Int(d)) => Int(a * 10 + d)
    case _ => NaN
  }

  /** The directive scan from index j: stop at a letter of "dfxXs" or the end; a '.'
      switches from width to precision; any other character is a digit of the current
      field. */
  function Scan(s: string, j: nat, width: IntOrNaN, precision: IntOrNaN, afterDot: bool): (d: Directive)
    ensures d.kind.Some? ==> IsKind(d.kind.value)
    decreases |s| - j
  {
    if j >= |s| then Directive(width, precision, None)
    else if IsKind(s[j]) then Directive(width, precision, Some(s[j]))
    else if s[j] == '.' then Scan(s, j + 1, width, precision, true)
    else if afterDot then Scan(s, j + 1, width, Accumulate(precision, s[j]), true)
    else Scan(s, j + 1, Accumulate(width, s[j]), precision, false)
  }

  /** The directive of a template: scanned from just after its first '%' (from its
      start when there is none). */
  function DirectiveOf(s: string): Directive {
    Scan(s, IndexOf(s, '%') + 1, Int(0), Int(0), false)
  }

  /** The text of a directive: '%', the width, '.', the precision and the letter. */
  function DirectiveText(width: nat, precision: nat, kind: char): string {
    "%" + NatToString(width, 10) + "." + NatToString(precision, 10) + [kind]
  }

  lemma DigitRun(c: char)
    requires '0' <= c <= '9'
    ensures ParseDigitRun([c], 10) == Int(c as int - '0' as int)
  {
    assert IsDigit(c, 10);
    assert [c][1..] == [] && [c][..1] == [c];
    assert LeadingDigits([c], 10) == 1;
    assert DigitsValue([c], 10) == DigitValue(c, 10);
  }

  lemma SignAlone(c: char)
    requires c == '-' || c == '+'
    ensures ParseSigned([c]) == NaN
  {
    assert [c][1..] == [];
    assert ParseDigitRun([], 10) == NaN;
  }

  lemma UnsignedAlone(c: char)
    requires c != '-' && c != '+'
    ensures ParseSigned([c]) == ParseDigitRun([c], 10)
  {
    assert !HasHexPrefix([c]);
  }

  lemma TrimWhite(c: char)
    requires IsWhiteSpace(c)
    ensures TrimStart([c]) == []
  {
    assert [c][1..] == [];
  }

  lemma TrimKept(c: char)
    requires !IsWhiteSpace(c)
    ensures TrimStart([c]) == [c]
  {
  }

  lemma ParseIntWhite(c: char)
    requires IsWhiteSpace(c)
    ensures ParseInt([c]) == NaN
  {
    TrimWhite(c);
    assert ParseSigned([]) == ParseDigitRun([], 10);
  }

  lemma ParseIntSign(c: char)
    requires c == '-' || c == '+'
    ensures ParseInt([c]) == NaN
  {
    TrimKept(c);
    SignAlone(c);
  }

  lemma ParseIntDigit(c: char)
    requires '0' <= c <= '9'
    ensures ParseInt([c]) == Int(c as int - '0' as int)
  {
    assert !IsWhiteSpace(c);
    TrimKept(c);
    UnsignedAlone(c);
    DigitRun(c);
  }

  lemma ParseIntOther(c: char)
    requires !IsWhiteSpace(c) && c != '-' && c != '+' && !('0' <= c <= '9')
    ensures ParseInt([c]) == NaN
  {
    TrimKept(c);
    UnsignedAlone(c);
    NonDigitRun(c);
  }

  /** `parseInt` of one character is `CharDigit`. */
  lemma ParseIntOfChar(c: char)
    ensures ParseInt([c]) == CharDigit(c)
  {
    if IsWhiteSpace(c) {
      ParseIntWhite(c);
    } else if c == '-' || c == '+' {
      ParseIntSign(c);
    } else if '0' <= c <= '9' {
      ParseIntDigit(c);
    } else {
      ParseIntOther(c);
    }
  }

  lemma NonDigitRun(c: char)
    requires !('0' <= c <= '9')
    ensures ParseDigitRun([c], 10) == NaN
  {
    assert !IsDigit(c, 10);
  }

  /** A decimal numeral reads back as its value, digit by digit. */
  lemma NumeralDigits(n: nat)
    ensures forall i :: 0 <= i < |NatToString(n, 10)| ==> IsDigit(NatToString(n, 10)[i], 10)
    ensures DigitsValue(NatToString(n, 10), 10) == n
  {
    NatToStringRoundTrip(n, 10);
  }

  /** One decimal digit of the width: the field becomes ten times itself plus it. */
  lemma ScanWidthStep(s: string, k: nat, acc: nat, precision: IntOrNaN)
    requires k < |s| && '0' <= s[k] <= '9'
    ensures Scan(s, k, Int(acc), precision, false) == Scan(s, k + 1, Int(acc * 10 + (s[k] as int - '0' as int)), precision, false)
  {
    assert !IsKind(s[k]) && s[k] != '.';
  }

  /** One decimal digit of the precision: the field becomes ten times itself plus it. */
  lemma ScanPrecisionStep(s: string, k: nat, width: IntOrNaN, acc: nat)
    requires k < |s| && '0' <= s[k] <= '9'
    ensures Scan(s, k, width, Int(acc), true) == Scan(s, k + 1, width, Int(acc * 10 + (s[k] as int - '0' as int)), true)
  {
    assert !IsKind(s[k]) && s[k] != '.';
  }

  /** Scanning a run of digits at the start of the width reads their value v. */
  lemma {:induction false} ScanWidthDigits(s: string, j: nat, digits: string, v: nat, precision: IntOrNaN)
    requires j + |digits| <= |s| && s[j..j + |digits|] == digits
    requires forall i :: 0 <= i < |digits| ==> IsDigit(digits[i], 10)
    requires v == DigitsValue(digits, 10)
    ensures Scan(s, j, Int(0), precision, false) == Scan(s, j + |digits|, Int(v), precision, false)
    decreases |digits|
  {
    if digits != [] {
      var n := |digits| - 1;
      var init := digits[..n];
      assert s[j..j + n] == init;
      var u := DigitsValue(init, 10);
      ScanWidthDigits(s, j, init, u, precision);
      DecimalDigitRange(digits[n]);
      assert s[j + n] == digits[n];
      ScanWidthStep(s, j + n, u, precision);
    }
  }

  /** Scanning a run of digits at the start of the precision reads their value v. */
  lemma {:induction false} ScanPrecisionDigits(s: string, j: nat, digits: string, v: nat, width: IntOrNaN)
    requires j + |digits| <= |s| && s[j..j + |digits|] == digits
    requires forall i :: 0 <= i < |digits| ==> IsDigit(digits[i], 10)
    requires v == DigitsValue(digits, 10)
    ensures Scan(s, j, width, Int(0), true) == Scan(s, j + |digits|, width, Int(v), true)
    decreases |digits|
  {
    if digits != [] {
      var n := |digits| - 1;
      var init := digits[..n];
      assert s[j..j + n] == init;
      var u := DigitsValue(init, 10);
      ScanPrecisionDigits(s, j, init, u, width);
      DecimalDigitRange(digits[n]);
      assert s[j + n] == digits[n];
      ScanPrecisionStep(s, j + n, width, u);
    }
  }

  /** ns is a decimal numeral whose value is n. */
  predicate Numeral(ns: string, n: nat) {
    (forall i :: 0 <= i < |ns| ==> IsDigit(ns[i], 10)) && DigitsValue(ns, 10) == n
  }

  /** The decimal numeral of n is a numeral for n. */
  lemma NumeralOf(n: nat)
    ensures Numeral(NatToString(n, 10), n)
  {
    NumeralDigits(n);
  }

  /** From index j, s holds the numeral w, '.', the numeral p and the letter. */
  predicate LaidOut(s: string, j: nat, w: string, p: string, kind: char) {
    j + |w| + 1 + |p| < |s| && s[j..j + |w|] == w && s[j + |w|] == '.' &&
    s[j + |w| + 1..j + |w| + 1 + |p|] == p && s[j + |w| + 1 + |p|] == kind
  }

  /** A directive laid out from index j, just after its '%': its width numeral w,
      '.', its precision numeral p and the letter scan back as that directive. */
  lemma ScanDirectiveAt(s: string, j: nat, w: string, p: string, width: nat, precision: nat, kind: char)
    requires IsKind(kind) && Numeral(w, width) && Numeral(p, precision)
    requires LaidOut(s, j, w, p, kind)
    ensures Scan(s, j, Int(0), Int(0), false) == Directive(Int(width), Int(precision), Some(kind))
  {
    ScanWidthDigits(s, j, w, width, Int(0));
    ScanAtDot(s, j + |w|, Int(width));
    ScanPrecisionDigits(s, j + |w| + 1, p, precision, Int(width));
    ScanAtLetter(s, j + |w| + 1 + |p|, Int(width), Int(precision));
  }

  /** The '.' switches the scan from the width to the precision. */
  lemma ScanAtDot(s: string, j: nat, width: IntOrNaN)
    requires j < |s| && s[j] == '.'
    ensures Scan(s, j, width, Int(0), false) == Scan(s, j + 1, width, Int(0), true)
  {
    assert !IsKind('.');
  }

  /** The letter ends the scan. */
  lemma ScanAtLetter(s: string, j: nat, width: IntOrNaN, precision: IntOrNaN)
    requires j < |s| && IsKind(s[j])
    ensures Scan(s, j, width, precision, true) == Directive(width, precision, Some(s[j]))
  {
  }

  /** Where the parts of a serialised directive sit in its text. */
  lemma DirectiveParts(width: nat, precision: nat, kind: char)
    ensures var w, p, d := NatToString(width, 10), NatToString(precision, 10), DirectiveText(width, precision, kind);
            |d| == |w| + |p| + 3 && d[0] == '%' && d[1..1 + |w|] == w && d[1 + |w|] == '.' &&
            d[2 + |w|..2 + |w| + |p|] == p && d[2 + |w| + |p|] == kind
  {
    var w, p := NatToString(width, 10), NatToString(precision, 10);
    var a := "%" + w;
    var b := a + ".";
    var c := b + p;
    assert a[1..] == w;
    assert c[|b|..] == p;
  }

  /** The middle of `a + b + c` is b. */
  lemma Middle(a: string, b: string, c: string, i: nat, j: nat)
    requires i <= j <= |b|
    ensures (a + b + c)[|a| + i..|a| + j] == b[i..j]
  {
    var s := a + b + c;
    assert forall k :: i <= k < j ==> s[|a| + k] == b[k];
  }

  /** Where the parts of a serialised directive sit in the text around it, counted
      from just after its '%'. */
  lemma DirectiveLayout(pre: string, width: nat, precision: nat, kind: char, post: string)
    ensures LaidOut(pre + DirectiveText(width, precision, kind) + post, |pre| + 1,
                    NatToString(width, 10), NatToString(precision, 10), kind)
  {
    var w, p, d := NatToString(width, 10), NatToString(precision, 10), DirectiveText(width, precision, kind);
    DirectiveParts(width, precision, kind);
    var j := |pre| + 1;
    Middle(pre, d, post, 1, 1 + |w|);
    assert |pre| + (1 + |w|) == j + |w|;
    Middle(pre, d, post, 2 + |w|, 2 + |w| + |p|);
    assert |pre| + (2 + |w|) == j + |w| + 1 && |pre| + (2 + |w| + |p|) == j + |w| + 1 + |p|;
    MiddleAt(pre, d, post, 1 + |w|);
    MiddleAt(pre, d, post, 2 + |w| + |p|);
  }

  /** A character of `rest` read in `pre + rest`. */
  lemma PrefixAt(pre: string, rest: string, k: nat)
    requires k < |rest|
    ensures (pre + rest)[|pre| + k] == rest[k]
  {
  }

  lemma Assoc(a: string, b: string, c: string)
    ensures a + b + c == a + (b + c)
  {
  }

  /** One character in the middle of `a + b + c`. */
  lemma MiddleAt(a: string, b: string, c: string, i: nat)
    requires i < |b|
    ensures (a + b + c)[|a| + i] == b[i]
  {
  }

  /** Serialising a directive and scanning it back gives the same directive: the
      width, the precision and the letter survive any text before it that holds no
      '%'. */
  lemma DirectiveRoundTrip(pre: string, width: nat, precision: nat, kind: char, post: string)
    requires '%' !in pre && IsKind(kind)
    ensures DirectiveOf(pre + DirectiveText(width, precision, kind) + post) ==
            Directive(Int(width), Int(precision), Some(kind))
  {
    ScanDirectiveIn(pre, width, precision, kind, post);
    DirectiveFound(pre, width, precision, kind, post);
  }

  /** Scanning from just after the directive's '%' reads the directive back. */
  lemma ScanDirectiveIn(pre: string, width: nat, precision: nat, kind: char, post: string)
    requires IsKind(kind)
    ensures Scan(pre + DirectiveText(width, precision, kind) + post, |pre| + 1, Int(0), Int(0), false) ==
            Directive(Int(width), Int(precision), Some(kind))
  {
    var s, w, p := pre + DirectiveText(width, precision, kind) + post, NatToString(width, 10), NatToString(precision, 10);
    DirectiveLayout(pre, width, precision, kind, post);
    NumeralOf(width);
    NumeralOf(precision);
    ScanDirectiveAt(s, |pre| + 1, w, p, width, precision, kind);
  }

  /** The first '%' of the text is the directive's when the text before holds none. */
  lemma DirectiveFound(pre: string, width: nat, precision: nat, kind: char, post: string)
    requires '%' !in pre
    ensures IndexOf(pre + DirectiveText(width, precision, kind) + post, '%') == |pre|
  {
    var d := DirectiveText(width, precision, kind);
    assert d[0] == '%';
    Assoc(pre, d, post);
    IndexOfAfter(pre, d + post, '%');
  }

  /** The characters the regular-expression `.` does not match. */
  predicate IsLineTerminator(c: char) {
    c == '\n' || c == '\r' || c == '\U{2028}' || c == '\U{2029}'
  }

  /** The last directive letter from index j up to the end of its line, or `best`
      when there is none. */
  function LastKindOnLine(s: string, j: nat, best: int): (q: int)
    ensures q == best || (j <= q < |s| && IsKind(s[q]))
    decreases |s| - j
  {
    if j >= |s| || IsLineTerminator(s[j]) then best
    else LastKindOnLine(s, j + 1, if IsKind(s[j]) then j else best)
  }

  /** Where `/%.*[xXdfs]/` matches at or after index p: the first '%' with a
      directive letter later on its line, up to the last such letter. */
  function MatchFrom(s: string, p: nat): (m: Option<(nat, nat)>)
    ensures m.Some? ==> p <= m.value.0 < m.value.1 < |s| && s[m.value.0] == '%' && IsKind(s[m.value.1])
    decreases |s| - p
  {
    if p >= |s| then None
    else
      var q := LastKindOnLine(s, p + 1, -1);
      if s[p] == '%' && q >= 0 then Some((p, q)) else MatchFrom(s, p + 1)
  }

  /** `s.replace(/%.*[xXdfs]/, r)`: the matched span replaced, or s unchanged. */
  function ReplaceDirective(s: string, r: string): string {
    match MatchFrom(s, 0)
    case None => s
    case Some((a, b)) => s[..a] + r + s[b + 1..]
  }

  /** On a line without terminators, the last letter after j is what the scan finds. */
  lemma {:induction false} LastKindOfLine(s: string, j: nat, best: int, q: int)
    requires forall k :: j <= k < |s| ==> !IsLineTerminator(s[k])
    requires j <= q < |s| && IsKind(s[q]) && forall k :: q < k < |s| ==> !IsKind(s[k])
    ensures LastKindOnLine(s, j, best) == q
    decreases |s| - j
  {
    if j < q {
      LastKindOfLine(s, j + 1, if IsKind(s[j]) then j else best, q);
    } else {
      LastKindNone(s, j + 1, q);
    }
  }

  lemma {:induction false} LastKindNone(s: string, j: nat, best: int)
    requires forall k :: j <= k < |s| ==> !IsKind(s[k])
    ensures LastKindOnLine(s, j, best) == best
    decreases |s| - j
  {
    if j < |s| && !IsLineTerminator(s[j]) {
      LastKindNone(s, j + 1, best);
    }
  }

  /** The match skips everything before the first '%'. */
  lemma {:induction false} MatchSkips(s: string, p: nat, i: nat)
    requires p <= i < |s| && forall k :: p <= k < i ==> s[k] != '%'
    ensures MatchFrom(s, p) == MatchFrom(s, i)
    decreases i - p
  {
    if p < i {
      MatchSkips(s, p + 1, i);
    }
  }

  /** On a template whose first '%' is followed, on the same line, by directive
      letters, the replaced span runs from that '%' to the last of those letters. */
  lemma ReplaceSpan(pre: string, mid: string, post: string, r: string)
    requires '%' !in pre
    requires mid != [] && IsKind(mid[|mid| - 1])
    requires forall k :: 0 <= k < |mid| ==> !IsLineTerminator(mid[k])
    requires forall k :: 0 <= k < |post| ==> !IsKind(post[k]) && !IsLineTerminator(post[k])
    ensures ReplaceDirective(pre + "%" + mid + post, r) == pre + r + post
  {
    var s := pre + "%" + mid + post;
    var i := |pre|;
    var q := i + |mid|;
    assert s[i] == '%' && s[q] == mid[|mid| - 1];
    assert forall k :: i + 1 <= k < |s| ==> !IsLineTerminator(s[k]) by {
      forall k | i + 1 <= k < |s| ensures !IsLineTerminator(s[k]) {
        if k <= q {
          assert s[k] == mid[k - i - 1];
        } else {
          assert s[k] == post[k - q - 1];
        }
      }
    }
    assert forall k :: q < k < |s| ==> !IsKind(s[k]) by {
      forall k | q < k < |s| ensures !IsKind(s[k]) {
        assert s[k] == post[k - q - 1];
      }
    }
    LastKindOfLine(s, i + 1, -1, q);
    if i > 0 {
      MatchSkips(s, 0, i);
    }
    assert s[..i] == pre && s[q + 1..] == post;
  }

  /** 15 spaces, the most padding `numformat` adds. */
  const Blanks: string := "               "

  /** Padding to a positive width: 15 spaces are put in front and the last `width`
      characters kept, so a longer piece is cut from the left. */
  function Pad(r: string, width: IntOrNaN): (p: string)
    ensures !(width.Int? && width.i > 0) ==> p == r
    ensures width.Int? && width.i > 0 ==> |p| == if width.i < |Blanks| + |r| then width.i else |Blanks| + |r|
  {
    if width.Int? && width.i > 0 then
      var t := Blanks + r;
      t[if |t| - width.i < 0 then 0 else |t| - width.i..]
    else r
  }

  /** Up to 15 spaces more than its length, a piece is right-aligned: spaces and then
      the piece itself. */
  lemma PadRightAligns(r: string, w: int)
    requires |r| <= w <= |Blanks| + |r|
    ensures var p := Pad(r, Int(w));
            |p| == w && p[w - |r|..] == r && forall k :: 0 <= k < w - |r| ==> p[k] == ' '
  {
    var p := Pad(r, Int(w));
    if w > 0 {
      var t := Blanks + r;
      assert p == t[|t| - w..];
      assert forall k :: 0 <= k < w - |r| ==> p[k] == t[|t| - w + k];
      assert p[w - |r|..] == t[|Blanks|..];
    }
  }

  /** A piece longer than the width is cut to its last `width` characters. */
  lemma PadTruncates(r: string, w: int)
    requires 0 < w < |r|
    ensures Pad(r, Int(w)) == r[|r| - w..]
  {
    var t := Blanks + r;
    assert t[|t| - w..] == r[|r| - w..];
  }

  /** `numformat(s, x)`: undefined for an undefined value; otherwise the piece for x
      (or "x,y" for a pair), padded to the width, replaces the directive span. A NaN
      precision prints with 0 decimals. */
  function Format(s: string, x: TipValue, pr: Printers): (r: Option<string>)
    ensures r.None? <==> x.Undefined?
  {
    if x.Undefined? then None
    else
      var d := DirectiveOf(s);
      var c := if d.precision.Int? then d.precision.i else 0;
      var piece :=
        if x.Scalar? then ValStr(x.v, c, d.kind, pr)
        else ValStr(x.x, c, d.kind, pr) + "," + ValStr(x.y, c, d.kind, pr);
      Some(ReplaceDirective(s, Pad(piece, d.width)))
  }

  /** `numformat` with its scanning loop over the template. */
  method NumFormat(s: string, x: TipValue, pr: Printers) returns (r: Option<string>)
    ensures r == Format(s, x, pr)
  {
    if x.Undefined? {
      return None;
    }
    var i := IndexOf(s, '%');
    var c0, c1 := Int(0), Int(0);
    var afterDot := false;
    var kind: Option<char> := None;
    var j := i + 1;
    while j < |s| && kind.None?
      invariant i + 1 <= j <= |s|
      invariant kind.None? ==> Scan(s, j, c0, c1, afterDot) == DirectiveOf(s)
      invariant kind.Some? ==> Directive(c0, c1, kind) == DirectiveOf(s)
      decreases |s| - j, if kind.None? then 1 else 0
    {
      if IsKind(s[j]) {
        kind := Some(s[j]);
      } else {
        if s[j] == '.' {
          afterDot := true;
        } else if afterDot {
          c1 := Accumulate(c1, s[j]);
        } else {
          c0 := Accumulate(c0, s[j]);
        }
        j := j + 1;
      }
    }
    var c := if c1.Int? then c1.i else 0;
    var piece;
    if x.Scalar? {
      piece := ValStr(x.v, c, kind, pr);
    } else {
      piece := ValStr(x.x, c, kind, pr) + "," + ValStr(x.y, c, kind, pr);
    }
    if c0.Int? && c0.i > 0 {
      piece := Pad(piece, c0);
    }
    r := Some(ReplaceDirective(s, piece));
  }

  /** `${this.digits}`: the number of decimals, or "undefined" when never set. */
  function DigitsText(digits: Option<int>): string {
    match digits
    case None => "undefined"
    case Some(d) => IntToString(d, 10)
  }

  /** The template `showtip` uses: the `tooltip` attribute, or with `valuetip` a
      `%.<digits>f` directive on its own (no tooltip) or after " : " (a tooltip
      without '%'). */
  function Template(tooltip: Option<string>, valuetip: bool, digits: Option<int>): (t: Option<string>)
    ensures !valuetip ==> t == tooltip
    ensures valuetip ==> t.Some? && '%' in t.value
  {
    if !valuetip then tooltip
    else
      var directive := "%." + DigitsText(digits) + "f";
      assert directive[0] == '%';
      match tooltip
      case None => Some(directive)
      case Some(s) =>
        if IndexOf(s, '%') < 0 then
          assert (s + " : " + directive)[|s| + 3] == '%';
          Some(s + " : " + directive)
        else Some(s)
  }

  /** What the tooltip shows: nothing unless dragged or hovered and the template is
      non-empty; otherwise the formatted value (`undefined` for no value). */
  datatype Tip = Hidden | Shown(text: Option<string>)

  function ShowTip(tooltip: Option<string>, valuetip: bool, digits: Option<int>,
                   active: bool, convValue: TipValue, pr: Printers): (tip: Tip)
    ensures !active ==> tip == Hidden
    ensures active && valuetip ==> tip.Shown?
  {
    if !active then Hidden
    else match Template(tooltip, valuetip, digits)
      case Some(s) => if s != "" then Shown(Format(s, convValue, pr)) else Hidden
      case None => Hidden
  }

  /** The text in front of the value directive `valuetip` adds. */
  function TipPrefix(tooltip: Option<string>): string {
    match tooltip
    case None => ""
    case Some(s) => s + " : "
  }

  /** `%.<d>f` from index i, with ds the numeral of d, scans as width 0, precision d,
      letter 'f'. */
  lemma ScanValueDirectiveAt(s: string, i: nat, ds: string, d: nat)
    requires Numeral(ds, d)
    requires i + |ds| + 3 <= |s| && s[i + 1] == '.' && s[i + 2..i + 2 + |ds|] == ds && s[i + 2 + |ds|] == 'f'
    ensures Scan(s, i + 1, Int(0), Int(0), false) == Directive(Int(0), Int(d), Some('f'))
  {
    ScanAtDot(s, i + 1, Int(0));
    ScanPrecisionDigits(s, i + 2, ds, d, Int(0));
    ScanAtLetter(s, i + 2 + |ds|, Int(0), Int(d));
  }

  /** Where the parts of `pre + "%.<d>f"` sit. */
  lemma ValueDirectiveLayout(pre: string, d: nat)
    ensures var ds := NatToString(d, 10);
            var s, i := pre + "%." + ds + "f", |pre|;
            i + |ds| + 3 <= |s| && s[i] == '%' && s[i + 1] == '.' && s[i + 2..i + 2 + |ds|] == ds && s[i + 2 + |ds|] == 'f'
  {
    var ds := NatToString(d, 10);
    var rest := "%." + ds + "f";
    assert rest[2..2 + |ds|] == ds;
    Middle(pre, rest, [], 2, 2 + |ds|);
    assert pre + "%." + ds + "f" == pre + rest + [];
  }

  lemma ValueDirective(pre: string, d: nat)
    requires '%' !in pre
    ensures DirectiveOf(pre + "%." + NatToString(d, 10) + "f") == Directive(Int(0), Int(d), Some('f'))
  {
    var ds := NatToString(d, 10);
    var rest := "%." + ds + "f";
    var s := pre + "%." + ds + "f";
    assert s == pre + rest;
    IndexOfAfter(pre, rest, '%');
    ValueDirectiveLayout(pre, d);
    NumeralDigits(d);
    ScanValueDirectiveAt(s, |pre|, ds, d);
  }

  /** The text in front of the value directive holds no '%' when the tooltip has none. */
  lemma TipPrefixPlain(tooltip: Option<string>)
    requires tooltip.Some? ==> '%' !in tooltip.value
    ensures '%' !in TipPrefix(tooltip)
  {
    if tooltip.Some? {
      var pre := TipPrefix(tooltip);
      assert forall k :: 0 <= k < |pre| ==> pre[k] == (tooltip.value + " : ")[k];
    }
  }

  /** With `valuetip`, a tooltip without '%' gets the value directive appended. */
  lemma ValueTemplate(tooltip: Option<string>, digits: Option<int>)
    requires tooltip.Some? ==> '%' !in tooltip.value
    ensures Template(tooltip, true, digits) == Some(TipPrefix(tooltip) + "%." + DigitsText(digits) + "f")
  {
    var directive := "%." + DigitsText(digits) + "f";
    if tooltip.Some? {
      var s := tooltip.value;
      assert s + " : " + directive == TipPrefix(tooltip) + "%." + DigitsText(digits) + "f";
    } else {
      assert "" + "%." + DigitsText(digits) + "f" == directive;
    }
  }

  /** `numformat` on a scalar: the piece for its directive, padded, in place of the
      directive span. */
  lemma FormatScalar(s: string, x: real, pr: Printers, d: Directive, c: int)
    requires DirectiveOf(s) == d && c == (if d.precision.Int? then d.precision.i else 0)
    ensures Format(s, Scalar(x), pr) == Some(ReplaceDirective(s, Pad(ValStr(x, c, d.kind, pr), d.width)))
  {
  }

  /** A directive that ends the template: the whole of it, from '%' to the last
      letter, is replaced. */
  lemma ReplaceTrailing(pre: string, mid: string, r: string)
    requires '%' !in pre
    requires mid != [] && IsKind(mid[|mid| - 1])
    requires forall k :: 0 <= k < |mid| ==> !IsLineTerminator(mid[k])
    ensures ReplaceDirective(pre + ("%" + mid), r) == pre + r
  {
    assert pre + ("%" + mid) == pre + "%" + mid + [];
    ReplaceSpan(pre, mid, [], r);
    assert pre + r + [] == pre + r;
  }

  /** Replacing the value directive `%.<d>f` at the end of a template. */
  lemma ReplaceValueDirective(pre: string, d: nat, r: string)
    requires '%' !in pre
    ensures ReplaceDirective(pre + "%." + NatToString(d, 10) + "f", r) == pre + r
  {
    var ds := NatToString(d, 10);
    var mid := "." + ds + "f";
    assert pre + "%." + ds + "f" == pre + ("%" + mid);
    assert forall k :: 0 <= k < |mid| ==> !IsLineTerminator(mid[k]) by {
      forall k | 0 <= k < |mid| ensures !IsLineTerminator(mid[k]) {
        if 0 < k < |mid| - 1 {
          assert mid[k] == ds[k - 1];
          DecimalDigitRange(ds[k - 1]);
        }
      }
    }
    ReplaceTrailing(pre, mid, r);
  }

  /** `numformat` of a value on `pre + "%.<d>f"` prints it with d decimals. */
  lemma FormatValueDirective(pre: string, d: nat, x: real, pr: Printers)
    requires '%' !in pre
    ensures Format(pre + "%." + NatToString(d, 10) + "f", Scalar(x), pr) == Some(pre + pr.fixed(x, d))
  {
    var s := pre + "%." + NatToString(d, 10) + "f";
    ValueDirective(pre, d);
    assert ValStr(x, d, Some('f'), pr) == pr.fixed(x, d);
    FormatScalar(s, x, pr, Directive(Int(0), Int(d), Some('f')), d);
    ReplaceValueDirective(pre, d, pr.fixed(x, d));
  }

  /** With `valuetip` and known digits, a tooltip without its own directive shows its
      text, " : ", and the value printed with that many decimals. */
  lemma ValueTipShowsDigits(tooltip: Option<string>, d: nat, x: real, pr: Printers)
    requires tooltip.Some? ==> '%' !in tooltip.value
    ensures ShowTip(tooltip, true, Some(d), true, Scalar(x), pr) == Shown(Some(TipPrefix(tooltip) + pr.fixed(x, d)))
  {
    var pre := TipPrefix(tooltip);
    var ds := NatToString(d, 10);
    var s := pre + "%." + ds + "f";
    TipPrefixPlain(tooltip);
    assert Template(tooltip, true, Some(d)) == Some(s) by {
      ValueTemplate(tooltip, Some(d));
      assert DigitsText(Some(d)) == ds;
    }
    FormatValueDirective(pre, d, x, pr);
    assert s != "" by {
      assert |s| >= 3;
    }
  }

  /** `%.undefinedf` from index i scans as width 0, precision NaN and letter 'd': the
      'u' of "undefined" spoils the precision and its 'd' ends the directive. */
  lemma ScanUndefinedAt(s: string, i: nat)
    requires i + 4 < |s| && s[i + 1] == '.' && s[i + 2] == 'u' && s[i + 3] == 'n' && s[i + 4] == 'd'
    ensures Scan(s, i + 1, Int(0), Int(0), false) == Directive(Int(0), NaN, Some('d'))
  {
    assert !IsKind('.') && !IsKind('u') && !IsKind('n') && IsKind('d');
    assert Scan(s, i + 4, Int(0), NaN, true) == Directive(Int(0), NaN, Some('d'));
    assert Scan(s, i + 3, Int(0), NaN, true) == Directive(Int(0), NaN, Some('d'));
    assert Scan(s, i + 2, Int(0), Int(0), true) == Directive(Int(0), NaN, Some('d'));
  }

  /** The directive of `pre + "%.undefinedf"`. */
  lemma UndefinedDirective(pre: string)
    requires '%' !in pre
    ensures DirectiveOf(pre + "%.undefinedf") == Directive(Int(0), NaN, Some('d'))
  {
    var rest := "%.undefinedf";
    var s := pre + rest;
    IndexOfAfter(pre, rest, '%');
    var i := |pre|;
    PrefixAt(pre, rest, 1);
    PrefixAt(pre, rest, 2);
    PrefixAt(pre, rest, 3);
    PrefixAt(pre, rest, 4);
    assert rest[1] == '.' && rest[2] == 'u' && rest[3] == 'n' && rest[4] == 'd';
    ScanUndefinedAt(s, i);
  }

  /** The directive `valuetip` appends when `digits` was never set. */
  lemma UndefinedText()
    ensures "%." + DigitsText(None) + "f" == "%.undefinedf" == "%" + ".undefinedf"
    ensures var mid := ".undefinedf";
            IsKind(mid[|mid| - 1]) && forall k :: 0 <= k < |mid| ==> !IsLineTerminator(mid[k])
  {
  }

  /** `numformat` of a value on `pre + "%.undefinedf"` prints its truncated integer. */
  lemma FormatUndefinedDirective(pre: string, x: real, pr: Printers)
    requires '%' !in pre
    ensures Format(pre + "%.undefinedf", Scalar(x), pr) == Some(pre + IntToString(ToInt32(x), 10))
  {
    var s := pre + "%.undefinedf";
    var piece := IntToString(ToInt32(x), 10);
    UndefinedDirective(pre);
    assert ValStr(x, 0, Some('d'), pr) == piece;
    FormatScalar(s, x, pr, Directive(Int(0), NaN, Some('d')), 0);
    var mid := ".undefinedf";
    UndefinedText();
    ReplaceTrailing(pre, mid, piece);
  }

  /** With `digits` never set, the appended directive is `%.undefinedf`: the scan
      stops at the 'd' of "undefined", so the value prints as a truncated integer,
      and the replaced span runs to the final 'f'. */
  lemma UndefinedDigitsPrintInteger(tooltip: Option<string>, x: real, pr: Printers)
    requires tooltip.Some? ==> '%' !in tooltip.value
    ensures ShowTip(tooltip, true, None, true, Scalar(x), pr) ==
            Shown(Some(TipPrefix(tooltip) + IntToString(ToInt32(x), 10)))
  {
    var pre := TipPrefix(tooltip);
    var s := pre + "%.undefinedf";
    var piece := IntToString(ToInt32(x), 10);
    TipPrefixPlain(tooltip);
    assert Template(tooltip, true, None) == Some(s) by {
      ValueTemplate(tooltip, None);
      UndefinedText();
      assert pre + "%." + DigitsText(None) + "f" == pre + ("%." + DigitsText(None) + "f");
    }
    FormatUndefinedDirective(pre, x, pr);
    assert s != "" by {
      assert |s| >= 3;
    }
  }
}
