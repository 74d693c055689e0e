/**
 * The few pieces of JavaScript's string semantics the page relies on:
 * `String.prototype.trim`, the UTF-16 `length` of a string, upper-casing the
 * first letter of a field name, `Number.parseInt` without a radix, and the
 * decimal rendering of an integer count.
 */
module JsText {
  import opened Wrappers

  /** ECMAScript LineTerminator code points (what `.` in a regular expression refuses). */
  predicate IsLineTerminator(c: char)
  {
    c == '\n' || c == '\r' || c == '\U{2028}' || c == '\U{2029}'
  }

  /**
   * ECMAScript WhiteSpace and LineTerminator code points: what `trim()` strips
   * and what `\s` matches (TAB, VT, FF, SPACE, NBSP, ZWNBSP and the Space_Separator
   * category, plus the line terminators).
   */
  predicate IsWhitespace(c: char)
  {
    || c == '\t' || c == '\U{000B}' || c == '\U{000C}' || c == ' '
    || c == '\U{00A0}' || c == '\U{FEFF}' || c == '\U{1680}'
    || ('\U{2000}' <= c <= '\U{200A}')
    || c == '\U{202F}' || c == '\U{205F}' || c == '\U{3000}'
    || IsLineTerminator(c)
  }

  /** Drops leading whitespace. */
  function TrimStart(s: string): (r: string)
    ensures |r| <= |s| && r == s[|s| - |r|..]
    ensures forall i :: 0 <= i < |s| - |r| ==> IsWhitespace(s[i])
    ensures r != [] ==> !IsWhitespace(r[0])
  {
    if s != [] && IsWhitespace(s[0]) then TrimStart(s[1..]) else s
  }

  /** Drops trailing whitespace. */
  function TrimEnd(s: string): (r: string)
    ensures |r| <= |s| && r == s[..|r|]
    ensures forall i :: |r| <= i < |s| ==> IsWhitespace(s[i])
    ensures r != [] ==> !IsWhitespace(r[|r| - 1])
  {
    if s != [] && IsWhitespace(s[|s| - 1]) then TrimEnd(s[..|s| - 1]) else s
  }

  /** `s.trim()`: the value the form validator inspects. */
  function Trim(s: string): (r: string)
    ensures |r| <= |s|
    ensures r != [] ==> !IsWhitespace(r[0]) && !IsWhitespace(r[|r| - 1])
    ensures r == [] <==> forall i :: 0 <= i < |s| ==> IsWhitespace(s[i])
    ensures (s == [] || (!IsWhitespace(s[0]) && !IsWhitespace(s[|s| - 1]))) ==> r == s
  {
    var t := TrimStart(s);
    var r := TrimEnd(t);
    assert r == [] ==> t == [];
    assert (s != [] && !IsWhitespace(s[0])) ==> t == s;
    r
  }

  /** The length of the run of whitespace `s` starts with. */
  function LeadingWhitespace(s: string): (n: nat)
    ensures n <= |s|
    ensures forall i :: 0 <= i < n ==> IsWhitespace(s[i])
    ensures n < |s| ==> !IsWhitespace(s[n])
  {
    |s| - |TrimStart(s)|
  }

  /** Trimming cuts the leading whitespace run and a trailing whitespace run out of `s`. */
  lemma {:induction false} TrimSlice(s: string)
    ensures var r := Trim(s);
      && LeadingWhitespace(s) + |r| <= |s| && r == s[LeadingWhitespace(s)..LeadingWhitespace(s) + |r|]
      && forall i :: LeadingWhitespace(s) + |r| <= i < |s| ==> IsWhitespace(s[i])
  {
    var t := TrimStart(s);
    CutEnds(s, t);
    assert Trim(s) == TrimEnd(t);
    assert LeadingWhitespace(s) == |s| - |t|;
  }

  /** Cutting the trailing whitespace from the suffix `t` of `s` leaves a slice of `s` followed by whitespace. */
  lemma CutEnds(s: string, t: string)
    requires |t| <= |s| && t == s[|s| - |t|..]
    ensures var n, r := |s| - |t|, TrimEnd(t);
      && n + |r| <= |s| && r == s[n..n + |r|]
      && forall i :: n + |r| <= i < |s| ==> IsWhitespace(s[i])
  {
    var r := TrimEnd(t);
    var n := |s| - |t|;
    forall i | n + |r| <= i < |s| ensures IsWhitespace(s[i]) {
      assert s[i] == t[i - n];
    }
  }

  /** The number of UTF-16 code units of `s`: JavaScript's `s.length`. */
  function Utf16Length(s: string): (n: nat)
    ensures |s| <= n <= 2 * |s|
    ensures (forall i :: 0 <= i < |s| ==> s[i] as int < 0x1_0000) ==> n == |s|
  {
    if s == [] then 0
    else (if s[0] as int < 0x1_0000 then 1 else 2) + Utf16Length(s[1..])
  }

  /** ASCII upper-casing; the field names it is applied to are ASCII. */
  function ToUpper(c: char): char
  {
    if 'a' <= c <= 'z' then (c as int - 32) as char else c
  }

  /** `name.charAt(0).toUpperCase() + name.slice(1)`. */
  function Capitalise(name: string): string
  {
    if name == [] then [] else [ToUpper(name[0])] + name[1..]
  }

  // ---------------------------------------------------------------- parseInt

  /** The value of an alphanumeric digit in radix 36; 36 for anything else. */
  function DigitValue(c: char): nat
  {
    if '0' <= c <= '9' then c as int - '0' as int
    else if 'a' <= c <= 'z' then c as int - 'a' as int + 10
    else if 'A' <= c <= 'Z' then c as int - 'A' as int + 10
    else 36
  }

  predicate IsDigitIn(c: char, radix: nat)
  {
    DigitValue(c) < radix
  }

  /** The longest prefix of `s` made of digits of the radix. */
  function DigitPrefix(s: string, radix: nat): (r: string)
    ensures |r| <= |s| && r == s[..|r|]
    ensures forall i :: 0 <= i < |r| ==> IsDigitIn(r[i], radix)
    ensures |r| < |s| ==> !IsDigitIn(s[|r|], radix)
  {
    if s != [] && IsDigitIn(s[0], radix) then [s[0]] + DigitPrefix(s[1..], radix) else []
  }

  /** The value of a numeral, most significant digit first. */
  function NumeralValue(digits: string, radix: nat): nat
  {
    if digits == [] then 0
    else NumeralValue(digits[..|digits| - 1], radix) * radix + DigitValue(digits[|digits| - 1])
  }

  /** The value of the longest run of digits at the start of `u`; `None` when there is none. */
  function ParseDigits(u: string, radix: nat): Option<nat>
  {
    var digits := DigitPrefix(u, radix);
    if digits == [] then None else Some(NumeralValue(digits, radix))
  }

  /** An unsigned numeral: radix 16 after a `0x`/`0X` prefix, radix 10 otherwise. */
  function ParseUnsigned(u: string): Option<nat>
  {
    if |u| >= 2 && u[0] == '0' && (u[1] == 'x' || u[1] == 'X') then ParseDigits(u[2..], 16)
    else ParseDigits(u, 10)
  }

  /**
   * `Number.parseInt(s)` with no radix argument: skip leading whitespace, take an
   * optional sign, then read an unsigned numeral. No digits gives NaN, written `None`.
   */
  function ParseInt(s: string): Option<int>
  {
    var t := TrimStart(s);
    if t != [] && t[0] == '-' then WithSign(true, ParseUnsigned(t[1..]))
    else if t != [] && t[0] == '+' then WithSign(false, ParseUnsigned(t[1..]))
    else WithSign(false, ParseUnsigned(t))
  }

  function WithSign(negative: bool, magnitude: Option<nat>): Option<int>
  {
    match magnitude
    case None => None
    case Some(m) => Some(if negative then -(m as int) else m)
  }

  // ---------------------------------------------------------------- toString

  function DigitChar(d: nat): char
    requires d < 10
  {
    ('0' as int + d) as char
  }

  /** The decimal numeral of a natural number, without leading zeros. */
  function NaturalNumeral(n: nat): (r: string)
    ensures r != []
    ensures forall i :: 0 <= i < |r| ==> '0' <= r[i] <= '9'
  {
    if n < 10 then [DigitChar(n)] else NaturalNumeral(n / 10) + [DigitChar(n % 10)]
  }

  /** `String(n)` for an integer `n`: what a `textContent = n` assignment shows. */
  function Decimal(n: int): (r: string)
    ensures r != [] && (r[0] == '-' || '0' <= r[0] <= '9') && '0' <= r[|r| - 1] <= '9'
    ensures r[0] == '-' <==> n < 0
  {
    if n < 0 then "-" + NaturalNumeral(-n) else NaturalNumeral(n)
  }

  lemma {:induction false} NaturalNumeralValue(n: nat)
    ensures NumeralValue(NaturalNumeral(n), 10) == n
  {
    if n >= 10 {
      var r := NaturalNumeral(n);
      assert r[..|r| - 1] == NaturalNumeral(n / 10);
      NaturalNumeralValue(n / 10);
    }
  }

  /** A string with no leading whitespace is its own `TrimStart`. */
  lemma TrimStartNoop(s: string)
    requires s != [] && !IsWhitespace(s[0])
    ensures TrimStart(s) == s
  {
  }

  /** A string made only of digits is its own digit prefix. */
  lemma {:induction false} DigitPrefixWhole(s: string, radix: nat)
    requires forall i :: 0 <= i < |s| ==> IsDigitIn(s[i], radix)
    ensures DigitPrefix(s, radix) == s
  {
    if s != [] {
      DigitPrefixWhole(s[1..], radix);
    }
  }

  /** A numeral made only of decimal digits is read whole. */
  lemma {:induction false} ParseUnsignedNumeral(numeral: string)
    requires numeral != []
    requires forall i :: 0 <= i < |numeral| ==> '0' <= numeral[i] <= '9'
    ensures ParseUnsigned(numeral) == Some(NumeralValue(numeral, 10))
  {
    assert !(|numeral| >= 2 && (numeral[1] == 'x' || numeral[1] == 'X'));
    forall i | 0 <= i < |numeral| ensures IsDigitIn(numeral[i], 10) {
      assert '0' <= numeral[i] <= '9';
    }
    DigitPrefixWhole(numeral, 10);
  }

  /** `parseInt` of a plain decimal numeral. */
  lemma {:induction false} ParseIntNumeral(numeral: string)
    requires numeral != []
    requires forall i :: 0 <= i < |numeral| ==> '0' <= numeral[i] <= '9'
    ensures ParseInt(numeral) == Some(NumeralValue(numeral, 10))
  {
    ParseUnsignedNumeral(numeral);
    assert '0' <= numeral[0] <= '9';
    TrimStartNoop(numeral);
  }

  /** A leading minus sign negates what follows it. */
  lemma {:induction false} ParseIntMinus(unsigned: string)
    ensures ParseInt("-" + unsigned) == WithSign(true, ParseUnsigned(unsigned))
  {
    var s := "-" + unsigned;
    assert s[0] == '-';
    TrimStartNoop(s);
    assert s[1..] == unsigned;
  }

  /** `parseInt` of "-" followed by a plain decimal numeral is the negated value of the numeral. */
  lemma {:induction false} ParseIntNegatedNumeral(numeral: string)
    requires numeral != []
    requires forall i :: 0 <= i < |numeral| ==> '0' <= numeral[i] <= '9'
    ensures ParseInt("-" + numeral) == Some(-(NumeralValue(numeral, 10) as int))
  {
    assert ParseUnsigned(numeral) == Some(NumeralValue(numeral, 10)) by {
      ParseUnsignedNumeral(numeral);
    }
    assert ParseInt("-" + numeral) == WithSign(true, ParseUnsigned(numeral)) by {
      ParseIntMinus(numeral);
    }
  }

  /** Reading a rendered count back with `parseInt` gives the count again. */
  lemma {:induction false} ParseIntInvertsDecimal(n: int)
    ensures ParseInt(Decimal(n)) == Some(n)
  {
    var m: nat := if n < 0 then -n else n;
    var numeral := NaturalNumeral(m);
    NaturalNumeralValue(m);
    if n < 0 {
      assert Decimal(n) == "-" + numeral;
      ParseIntNegatedNumeral(numeral);
    } else {
      assert Decimal(n) == numeral;
      ParseIntNumeral(numeral);
    }
  }

  /** The decimal numeral of an integer has no surrounding whitespace, so trimming keeps it. */
  lemma {:induction false} DecimalIsTrimmed(n: int)
    ensures Trim(Decimal(n)) == Decimal(n)
  {
    var s := Decimal(n);
    assert !IsWhitespace(s[0]) && !IsWhitespace(s[|s| - 1]);
  }

  /** A string whose first non-blank character is neither a sign nor a digit is NaN. */
  lemma {:induction false} ParseIntRejectsNonNumeric(s: string)
    requires TrimStart(s) != []
    requires var c := TrimStart(s)[0]; c != '-' && c != '+' && !('0' <= c <= '9')
    ensures ParseInt(s) == None
  {
  }
}
