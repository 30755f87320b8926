/** String primitives the backend relies on, written out explicitly:
    ECMAScript white space (shared by `trim` and the regular-expression
    class `\s`), ASCII upper-casing, trimming, the licence-plate
    normalisation of the booking routes, and the `isNaN(Number(x))` test
    used by slot-id resolution. */
module Text {
  import opened Common
  import opened Seqs

  /** ECMAScript WhiteSpace and LineTerminator code points. */
  predicate IsSpace(c: char)
  {
    var n := c as int;
    n == 0x09 || n == 0x0A || n == 0x0B || n == 0x0C || n == 0x0D || n == 0x20
    || n == 0xA0 || n == 0x1680 || (0x2000 <= n <= 0x200A) || n == 0x2028
    || n == 0x2029 || n == 0x202F || n == 0x205F || n == 0x3000 || n == 0xFEFF
  }

  /** The white-space set leaves every plate character alone and covers
      the non-ASCII spaces ECMAScript `trim` removes. */
  lemma SpaceSet()
    ensures forall c: char :: ('0' <= c <= '9' || 'A' <= c <= 'Z' || 'a' <= c <= 'z' || c == '-' || c == '.')
              ==> !IsSpace(c)
    ensures IsSpace(' ') && IsSpace('\t') && IsSpace('\n') && IsSpace('\r')
    ensures IsSpace('\U{00A0}') && IsSpace('\U{2028}') && IsSpace('\U{3000}') && IsSpace('\U{FEFF}')
  {
  }

  predicate IsLowerAscii(c: char)
  {
    'a' <= c <= 'z'
  }

  function Upper(c: char): (u: char)
    ensures !IsLowerAscii(u)
    ensures !IsLowerAscii(c) ==> u == c
  {
    if IsLowerAscii(c) then (c as int - 32) as char else c
  }

  predicate IsUpperAscii(c: char)
  {
    'A' <= c <= 'Z'
  }

  function Lower(c: char): (l: char)
    ensures !IsUpperAscii(l)
    ensures !IsUpperAscii(c) ==> l == c
    ensures IsUpperAscii(c) ==> Upper(l) == c
  {
    if IsUpperAscii(c) then (c as int + 32) as char else c
  }

  /** `toLowerCase`, restricted to the ASCII letters: the canonical form in
      which a document id's hex digits are stored. */
  function ToLower(s: string): (r: string)
    ensures |r| == |s|
    ensures forall i :: 0 <= i < |s| ==> r[i] == Lower(s[i])
  {
    seq(|s|, i requires 0 <= i < |s| => Lower(s[i]))
  }

  /** `toUpperCase`, restricted to the ASCII letters. */
  function ToUpper(s: string): (r: string)
    ensures |r| == |s|
    ensures forall i :: 0 <= i < |s| ==> r[i] == Upper(s[i])
  {
    seq(|s|, i requires 0 <= i < |s| => Upper(s[i]))
  }

  lemma ToUpperNoLower(s: string)
    requires forall i :: 0 <= i < |s| ==> !IsLowerAscii(s[i])
    ensures ToUpper(s) == s
  {
  }

  function TrimStart(s: string): (r: string)
    ensures |r| <= |s| && r == s[|s| - |r|..]
    ensures forall i :: 0 <= i < |s| - |r| ==> IsSpace(s[i])
    ensures |r| > 0 ==> !IsSpace(r[0])
  {
    if |s| > 0 && IsSpace(s[0]) then
      var r := TrimStart(s[1..]);
      assert s[1..][|s| - 1 - |r|..] == s[|s| - |r|..];
      r
    else s
  }

  function TrimEnd(s: string): (r: string)
    ensures |r| <= |s| && r == s[..|r|]
    ensures forall i :: |r| <= i < |s| ==> IsSpace(s[i])
    ensures |r| > 0 ==> !IsSpace(r[|r| - 1])
  {
    if |s| > 0 && IsSpace(s[|s| - 1]) then TrimEnd(s[..|s| - 1]) else s
  }

  /** `String.prototype.trim`. */
  function Trim(s: string): (r: string)
    ensures |r| <= |s|
    ensures |r| > 0 ==> !IsSpace(r[0]) && !IsSpace(r[|r| - 1])
    ensures (|s| == 0 || (!IsSpace(s[0]) && !IsSpace(s[|s| - 1]))) ==> r == s
    ensures (forall i :: 0 <= i < |s| ==> IsSpace(s[i])) ==> r == []
  {
    var t := TrimStart(s);
    assert (|s| == 0 || !IsSpace(s[0])) ==> t == s;
    assert (forall i :: 0 <= i < |s| ==> IsSpace(s[i])) ==> t == [];
    TrimEnd(t)
  }

  /** `x.toUpperCase().trim()`: the form used by most plate lookups. */
  function UpperTrim(s: string): string
  {
    Trim(ToUpper(s))
  }

  /** A worked instance: upper-casing and trimming "ab1" gives "AB1". */
  lemma UpperTrimAb1()
    ensures UpperTrim("ab1") == "AB1"
  {
    var u := ToUpper("ab1");
    assert u[0] == 'A' && u[1] == 'B' && u[2] == '1';
    assert u == "AB1";
    assert !IsSpace(u[0]) && !IsSpace(u[2]);
  }

  /** Characters that survive `replace(/[\s\-\.]/g, '')`. */
  predicate KeptInPlate(c: char)
  {
    !IsSpace(c) && c != '-' && c != '.'
  }

  /** Stripping separators from an upper-cased plate leaves only kept,
      non-lower-case characters. */
  lemma StrippedIsClean(s: string)
    ensures var t := Filter(ToUpper(s), KeptInPlate);
            && (forall i :: 0 <= i < |t| ==> KeptInPlate(t[i]) && !IsLowerAscii(t[i]))
            && Trim(t) == t
  {
    var upper := ToUpper(s);
    var t := Filter(upper, KeptInPlate);
    forall i | 0 <= i < |t|
      ensures KeptInPlate(t[i]) && !IsLowerAscii(t[i])
    {
      assert t[i] in t;
      var j :| 0 <= j < |upper| && upper[j] == t[i];
      assert upper[j] == Upper(s[j]);
    }
    if |t| > 0 {
      assert KeptInPlate(t[0]) && KeptInPlate(t[|t| - 1]);
    }
  }

  /** `x.toUpperCase().replace(/[\s\-\.]/g, '').trim()`. */
  function Normalize(s: string): (r: string)
    ensures forall i :: 0 <= i < |r| ==> KeptInPlate(r[i]) && !IsLowerAscii(r[i])
    ensures r == Filter(ToUpper(s), KeptInPlate)
  {
    StrippedIsClean(s);
    Trim(Filter(ToUpper(s), KeptInPlate))
  }

  lemma {:induction false} FilterKeepsAll(s: string)
    requires forall i :: 0 <= i < |s| ==> KeptInPlate(s[i])
    ensures Filter(s, KeptInPlate) == s
  {
    if |s| > 0 {
      FilterKeepsAll(s[1..]);
      assert s == [s[0]] + s[1..];
    }
  }

  /** Normalising an already normalised plate changes nothing. */
  lemma NormalizeIdempotent(s: string)
    ensures Normalize(Normalize(s)) == Normalize(s)
  {
    var n := Normalize(s);
    ToUpperNoLower(n);
    FilterKeepsAll(n);
  }

  /** A normalised plate has no separators and no lower-case letters, and
      equal raw plates up to case and separators normalise alike. */
  lemma NormalizeIgnoresCase(s: string)
    ensures Normalize(ToUpper(s)) == Normalize(s)
  {
    assert ToUpper(ToUpper(s)) == ToUpper(s);
  }

  // ---- `isNaN(Number(x))`: ECMAScript StringNumericLiteral ----

  predicate IsDigitIn(c: char, radix: nat)
  {
    if radix == 16 then ('0' <= c <= '9') || ('a' <= c <= 'f') || ('A' <= c <= 'F')
    else if radix == 8 then '0' <= c <= '7'
    else if radix == 2 then c == '0' || c == '1'
    else '0' <= c <= '9'
  }

  predicate AllDigits(s: string, radix: nat)
  {
    forall i :: 0 <= i < |s| ==> IsDigitIn(s[i], radix)
  }

  predicate IsDigits(s: string, radix: nat)
  {
    |s| > 0 && AllDigits(s, radix)
  }

  predicate IsDot(c: char) { c == '.' }

  predicate IsExponentMark(c: char) { c == 'e' || c == 'E' }

  /** Digits with at most one `.` and at least one digit. */
  predicate IsMantissa(m: string)
  {
    match First(m, IsDot)
    case None => IsDigits(m, 10)
    case Some(d) => |m| > 1 && AllDigits(m[..d], 10) && AllDigits(m[d + 1..], 10)
  }

  predicate IsExponent(e: string)
  {
    |e| >= 2 && IsExponentMark(e[0])
    && (IsDigits(e[1..], 10) || ((e[1] == '+' || e[1] == '-') && IsDigits(e[2..], 10)))
  }

  predicate IsUnsignedDecimal(s: string)
  {
    s == "Infinity" ||
    match First(s, IsExponentMark)
    case None => IsMantissa(s)
    case Some(k) => IsMantissa(s[..k]) && IsExponent(s[k..])
  }

  predicate IsDecimalLiteral(s: string)
  {
    IsUnsignedDecimal(s) || (|s| > 0 && (s[0] == '+' || s[0] == '-') && IsUnsignedDecimal(s[1..]))
  }

  predicate IsNonDecimalInteger(s: string)
  {
    |s| > 2 && s[0] == '0' &&
    ((s[1] in "xX" && IsDigits(s[2..], 16))
     || (s[1] in "oO" && IsDigits(s[2..], 8))
     || (s[1] in "bB" && IsDigits(s[2..], 2)))
  }

  /** `!isNaN(Number(s))`: blank strings convert to 0, literals to numbers. */
  predicate IsNumeric(s: string)
  {
    var t := Trim(s);
    t == "" || IsDecimalLiteral(t) || IsNonDecimalInteger(t)
  }

  /** A blank id (empty or white space only) converts to 0, so it counts
      as numeric. */
  lemma BlankIsNumeric(s: string)
    requires forall i :: 0 <= i < |s| ==> IsSpace(s[i])
    ensures IsNumeric(s)
  {
  }

  /** A plain run of decimal digits is numeric. */
  lemma DigitsAreNumeric(s: string)
    requires IsDigits(s, 10)
    ensures IsNumeric(s)
  {
    assert !IsSpace(s[0]) && !IsSpace(s[|s| - 1]);
    assert Trim(s) == s;
    assert forall i :: 0 <= i < |s| ==> !IsExponentMark(s[i]) && !IsDot(s[i]);
    assert First(s, IsExponentMark).None?;
    assert First(s, IsDot).None?;
  }

  /** A mantissa starts with a digit or the dot. */
  lemma MantissaStart(m: string)
    requires |m| == 0 || !(IsDigitIn(m[0], 10) || m[0] == '.')
    ensures !IsMantissa(m)
  {
    if |m| > 0 {
      match First(m, IsDot)
      case None =>
      case Some(d) =>
        assert d > 0;
        assert m[..d][0] == m[0];
    }
  }

  /** A text whose first character is neither a digit nor the dot is no
      unsigned decimal, unless it is "Infinity". */
  lemma UnsignedDecimalStart(t: string)
    requires |t| > 0 && !(IsDigitIn(t[0], 10) || t[0] == '.') && t[0] != 'I'
    ensures !IsUnsignedDecimal(t)
  {
    assert t != "Infinity";
    match First(t, IsExponentMark)
    case None => MantissaStart(t);
    case Some(k) =>
      if k == 0 {
        MantissaStart(t[..k]);
      } else {
        assert t[..k][0] == t[0];
        MantissaStart(t[..k]);
      }
  }

  /** An id that starts with a letter other than the `I` of "Infinity"
      (after trimming) is not numeric: "A1" is never read as a number. */
  lemma LetterFirstNotNumeric(s: string)
    requires |Trim(s)| > 0
    requires var c := Trim(s)[0]; (IsLowerAscii(c) || IsUpperAscii(c)) && c != 'I'
    ensures !IsNumeric(s)
  {
    UnsignedDecimalStart(Trim(s));
  }

  /** A text of '0', 'x' and hex digits with no dot, read as a decimal
      mantissa, fails at the 'x'. */
  lemma HexBodyNotMantissa(m: string)
    requires |m| >= 2 && m[1] == 'x'
    requires forall i :: 0 <= i < |m| ==> m[i] != '.'
    ensures !IsMantissa(m)
  {
    assert First(m, IsDot).None?;
  }

  /** "0x" followed by hex digits is no unsigned decimal: the `x` stops
      the mantissa whether or not an `e` digit follows. */
  lemma HexTailNotUnsignedDecimal(u: string)
    requires |u| >= 3 && u[0] == '0' && u[1] == 'x'
    requires AllDigits(u[2..], 16)
    ensures !IsUnsignedDecimal(u)
  {
    assert forall i :: 2 <= i < |u| ==> u[2..][i - 2] == u[i];
    assert forall i :: 0 <= i < |u| ==> u[i] != '.';
    assert u != "Infinity";
    match First(u, IsExponentMark)
    case None => HexBodyNotMantissa(u);
    case Some(k) =>
      assert k >= 2;
      HexBodyNotMantissa(u[..k]);
  }

  /** A text with nothing to trim, not starting with '0', is not numeric
      when neither it nor the rest after its first character reads as an
      unsigned decimal: the unsigned, signed and prefixed readings all fail. */
  lemma NoReadingNotNumeric(t: string)
    requires |t| > 0 && Trim(t) == t && t[0] != '0'
    requires !IsUnsignedDecimal(t) && !IsUnsignedDecimal(t[1..])
    ensures !IsNumeric(t)
  {
  }

  /** A signed hexadecimal literal is not numeric: `Number("-0x1A")` is
      NaN, since only unsigned literals may use the `0x` prefix. */
  lemma SignedHexNotNumeric(sign: char, digits: string)
    requires sign == '+' || sign == '-'
    requires IsDigits(digits, 16)
    ensures !IsNumeric([sign] + "0x" + digits)
  {
    var u := "0x" + digits;
    var t := [sign] + u;
    assert t == [sign] + "0x" + digits;
    assert !IsUnsignedDecimal(t[1..]) by {
      assert t[1..] == u;
      assert u[2..] == digits;
      HexTailNotUnsignedDecimal(u);
    }
    assert Trim(t) == t by {
      var last := t[|t| - 1];
      assert last == digits[|digits| - 1];
      assert IsDigitIn(last, 16);
      assert !IsSpace(t[0]) && !IsSpace(last);
    }
    UnsignedDecimalStart(t);
    NoReadingNotNumeric(t);
  }

  /** A worked instance: the id "12" is numeric, the label "A1" is not. */
  lemma NumericExamples()
    ensures IsNumeric("12") && !IsNumeric("A1")
  {
    var d := "12";
    assert IsDigitIn(d[0], 10) && IsDigitIn(d[1], 10);
    DigitsAreNumeric(d);
    var a1 := "A1";
    assert !IsSpace(a1[0]) && !IsSpace(a1[1]);
    assert Trim(a1) == a1;
    LetterFirstNotNumeric(a1);
  }

  /** `/^[0-9a-fA-F]{24}$/`: the textual form of a document id. */
  predicate IsObjectIdText(s: string)
  {
    |s| == 24 && AllDigits(s, 16)
  }

  predicate EndsWith(s: string, suffix: string)
  {
    |suffix| <= |s| && s[|s| - |suffix|..] == suffix
  }
}
