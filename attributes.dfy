/** Reading element attributes: `getAttr` with its typed default, and the `"ch.cc"`
    form of the `midicc` attribute. */
module Attributes {
  import opened Wrappers
  import opened JsText
  import opened Sequences

  /** What an attribute read yields or falls back to: null, a number or a string. */
  datatype AttrValue = Null | Num(n: Number) | Text(s: string)

  /** `getAttr(name, def)` on the attribute's text (None when it is absent). A missing
      or empty attribute gives the default. Against a numeric default, "true" reads
      as 1, a string that is not a number as 0, and anything else as its numeric
      value; against any other default the text itself is returned. */
  function GetAttr(attr: Option<string>, def: AttrValue): (r: AttrValue)
    ensures attr.None? || attr == Some("") ==> r == def
    ensures attr.Some? && attr.value != "" && !def.Num? ==> r == Text(attr.value)
    ensures attr.Some? && attr.value != "" && def.Num? ==> r.Num? && !r.n.NotANumber?
    ensures attr == Some("true") && def.Num? ==> r == Num(Finite(1.0))
    ensures attr.Some? && attr.value != "" && attr.value != "true" && def.Num? ==>
              r == Num(if StringToNumber(attr.value).NotANumber? then Finite(0.0) else StringToNumber(attr.value))
  {
    match attr
    case None => def
    case Some(v) =>
      if v == "" then def
      else if def.Num? then
        if v == "true" then Num(Finite(1.0))
        else
          var n := StringToNumber(v);
          if n.NotANumber? then Num(Finite(0.0)) else Num(n)
      else Text(v)
  }

  /** An integer written in decimal reads back as that number against a numeric
      default. */
  lemma GetAttrOfDecimal(k: int, def: Number)
    ensures GetAttr(Some(IntToString(k, 10)), Num(def)) == Num(Finite(k as real))
  {
    DecimalNotTrue(k);
    StringToNumberOfDecimal(k);
  }

  /** A decimal integer starts with '-' or a digit, so it is never "true". */
  lemma DecimalNotTrue(k: int)
    ensures IntToString(k, 10) != "" && IntToString(k, 10) != "true"
  {
    var s := IntToString(k, 10);
    if k < 0 {
      assert s[0] == '-';
    } else {
      assert IsDigit(s[0], 10);
      DecimalDigitRange(s[0]);
    }
  }

  /** Text that starts with a space is not "true". */
  lemma SpacedIsNotTrue(s: string)
    ensures " " + s + "\t" != "true"
  {
    assert (" " + s + "\t")[0] == ' ';
  }

  /** White space around a non-empty numeric attribute other than "true" does not
      change what it reads as. */
  lemma GetAttrIgnoresSpaces(s: string, def: Number)
    requires s != "true" && s != ""
    ensures GetAttr(Some(" " + s + "\t"), Num(def)) == GetAttr(Some(s), Num(def))
  {
    StringToNumberIgnoresSpaces(s);
    SpacedIsNotTrue(s);
  }

  /** A word that is not a number reads as 0 against a numeric default. */
  lemma GetAttrOfWord(def: Number)
    ensures GetAttr(Some("on"), Num(def)) == Num(Finite(0.0))
  {
    assert TrimStart("on") == "on";
    assert TrimEnd("on") == "on";
    assert LeadingDigits("on", 10) == 0;
    assert FractionPart("on") == ([], "on");
  }

  /** `s.substring(a, b)`: both ends clamped to [0, |s|], and swapped when reversed. */
  function Substring(s: string, a: int, b: int): (t: string)
    ensures 0 <= a <= b <= |s| ==> t == s[a..b]
  {
    var lo := if a < 0 then 0 else if a > |s| then |s| else a;
    var hi := if b < 0 then 0 else if b > |s| then |s| else b;
    if lo <= hi then s[lo..hi] else s[hi..lo]
  }

  /** `x - 1` on an integer or NaN. */
  function Decrement(x: IntOrNaN): IntOrNaN {
    match x
    case NaN => NaN
    case Int(i) => Int(i - 1)
  }

  /** The `midicc` attribute "C.N": channel `parseInt` of the text before the last '.'
      minus 1, controller `parseInt` of the text after it. */
  function ParseMidiCC(midicc: string): (binding: (IntOrNaN, IntOrNaN)) {
    var dot := LastIndexOf(midicc, '.');
    (Decrement(ParseInt(Substring(midicc, 0, dot))), ParseInt(Substring(midicc, dot + 1, |midicc|)))
  }

  /** A decimal numeral holds no '.'. */
  lemma NoDotInDecimal(k: int)
    ensures '.' !in IntToString(k, 10)
  {
    var m: nat := if k < 0 then -k else k;
    var d := NatToString(m, 10);
    assert forall i :: 0 <= i < |d| ==> d[i] != '.' by {
      forall i | 0 <= i < |d| ensures d[i] != '.' {
        assert IsDigit(d[i], 10);
      }
    }
    if k < 0 {
      assert IntToString(k, 10) == ['-'] + d;
    }
  }

  /** The last '.' of `c + "." + n` is the one between them when n holds none. */
  lemma LastDotOfJoin(c: string, n: string)
    requires '.' !in n
    ensures LastIndexOf(c + "." + n, '.') == |c|
  {
    LastIndexOfBefore(c, '.', n);
  }

  /** The two halves `ParseMidiCC` reads from `c + "." + n`. */
  lemma HalvesOfJoin(c: string, n: string)
    ensures Substring(c + "." + n, 0, |c|) == c
    ensures Substring(c + "." + n, |c| + 1, |c + "." + n|) == n
  {
    var s := c + "." + n;
    assert s[..|c|] == c && s[|c| + 1..] == n;
  }

  /** "C.N" binds channel C - 1 (channels count from 1 in the attribute, from 0 in a
      message) and controller N. */
  lemma MidiCCRoundTrip(channel: int, cc: int)
    ensures ParseMidiCC(IntToString(channel, 10) + "." + IntToString(cc, 10)) == (Int(channel - 1), Int(cc))
  {
    var c, n := IntToString(channel, 10), IntToString(cc, 10);
    NoDotInDecimal(cc);
    LastDotOfJoin(c, n);
    HalvesOfJoin(c, n);
    ParseIntOfDecimal(channel);
    ParseIntOfDecimal(cc);
  }

  lemma ParseIntOfEmpty()
    ensures ParseInt([]) == NaN
  {
    assert TrimStart([]) == [];
    assert LeadingDigits([], 10) == 0;
  }

  /** Without a '.', the channel is NaN, which no message channel equals, and the
      whole text is read as the controller. */
  lemma MidiCCWithoutDot(midicc: string)
    requires '.' !in midicc
    ensures ParseMidiCC(midicc) == (NaN, ParseInt(midicc))
  {
    assert Substring(midicc, 0, -1) == [];
    assert Substring(midicc, 0, |midicc|) == midicc;
    ParseIntOfEmpty();
  }
}
