/** The few JavaScript string operations the booking system relies on:
    `Number.prototype.toString` and `padStart` for non-negative integers,
    `parseInt` on digit strings, `trim`, the `\s` character class and the
    `<` order on strings. */
module Text {
  import opened Base

  predicate IsDigit(c: char) { '0' <= c <= '9' }

  function DigitChar(d: int): (c: char)
    requires 0 <= d <= 9
    ensures IsDigit(c) && c as int - '0' as int == d
  {
    ('0' as int + d) as char
  }

  /** `n.toString()` for a non-negative integer. */
  function Decimal(n: nat): (s: string)
    ensures |s| > 0 && forall i :: 0 <= i < |s| ==> IsDigit(s[i])
    decreases n
  {
    if n < 10 then [DigitChar(n)] else Decimal(n / 10) + [DigitChar(n % 10)]
  }

  /** `n.toString().padStart(width, '0')`. */
  function PadDecimal(n: nat, width: nat): string
  {
    var s := Decimal(n);
    if |s| >= width then s else seq(width - |s|, _ => '0') + s
  }

  /** Two-digit rendering of the integers 0 to 99. */
  lemma PadTwoDigits(n: nat)
    requires n < 100
    ensures PadDecimal(n, 2) == [DigitChar(n / 10), DigitChar(n % 10)]
  {
    if n >= 10 {
      assert Decimal(n / 10) == [DigitChar(n / 10)];
    }
  }

  /** Number of leading decimal digits of `s`. */
  function DigitPrefixLength(s: string): (k: nat)
    ensures k <= |s|
    ensures forall i :: 0 <= i < k ==> IsDigit(s[i])
    ensures k < |s| ==> !IsDigit(s[k])
  {
    if s != [] && IsDigit(s[0]) then 1 + DigitPrefixLength(s[1..]) else 0
  }

  /** The value of a string of decimal digits. */
  function DigitsValue(s: string): nat
    requires forall i :: 0 <= i < |s| ==> IsDigit(s[i])
  {
    if s == [] then 0
    else
      assert IsDigit(s[|s| - 1]);
      10 * DigitsValue(s[..|s| - 1]) + (s[|s| - 1] as int - '0' as int)
  }

  /** `parseInt(s)` for strings made of digits and other characters
      (None stands for NaN): the value of the leading run of digits, read
      in base 10. The leading white space and sign that `parseInt` also
      accepts, and the `0x` prefix that makes it read hexadecimal when no
      radix is given, are not modelled. */
  function ParseInt(s: string): Option<int>
  {
    var k := DigitPrefixLength(s);
    if k == 0 then None else Some(DigitsValue(s[..k]))
  }

  /** Reading back a two-digit rendering gives the number, whatever
      non-digit text follows it. */
  lemma ParsePadded(n: nat, rest: string)
    requires n < 100
    requires rest == [] || !IsDigit(rest[0])
    ensures ParseInt(PadDecimal(n, 2) + rest) == Some(n)
  {
    PadTwoDigits(n);
    var s := PadDecimal(n, 2) + rest;
    assert s[0] == DigitChar(n / 10) && s[1] == DigitChar(n % 10);
    assert s[1..][1..] == rest;
    assert DigitPrefixLength(s) == 2;
    assert s[..2] == [DigitChar(n / 10), DigitChar(n % 10)];
    assert s[..2][..1] == [DigitChar(n / 10)];
    assert [DigitChar(n / 10)][..0] == [];
    assert DigitsValue([DigitChar(n / 10)]) == n / 10;
    assert DigitsValue(s[..2]) == 10 * (n / 10) + n % 10;
  }

  /** Reading back a two-digit rendering gives the number. */
  lemma ParseTwoDigits(n: nat)
    requires n < 100
    ensures ParseInt(PadDecimal(n, 2)) == Some(n)
  {
    ParsePadded(n, []);
    assert PadDecimal(n, 2) + [] == PadDecimal(n, 2);
  }

  /** The characters JavaScript's `\s` and `String.prototype.trim` treat as
      white space: tab, line feed, vertical tab, form feed, carriage return,
      space, no-break space, the Unicode space separators, the line and
      paragraph separators and the byte order mark. */
  predicate IsJsWhitespace(c: char)
  {
    var n := c as int;
    (9 <= n <= 13) || n == 32 || n == 0xA0 || n == 0x1680 || (0x2000 <= n <= 0x200A)
    || n == 0x2028 || n == 0x2029 || n == 0x202F || n == 0x205F || n == 0x3000 || n == 0xFEFF
  }

  /** Number of leading white-space characters of `s`. */
  function LeadingSpace(s: string): (k: nat)
    ensures k <= |s|
    ensures forall j :: 0 <= j < k ==> IsJsWhitespace(s[j])
    ensures k < |s| ==> !IsJsWhitespace(s[k])
  {
    if s != [] && IsJsWhitespace(s[0]) then 1 + LeadingSpace(s[1..]) else 0
  }

  /** Where the text of `s[lo..hi]` ends once trailing white space is cut,
      when everything from `hi` on is white space. */
  function ContentEnd(s: string, lo: nat, hi: nat): (e: nat)
    requires lo <= hi <= |s|
    requires forall j :: hi <= j < |s| ==> IsJsWhitespace(s[j])
    ensures lo <= e <= hi
    ensures forall j :: e <= j < |s| ==> IsJsWhitespace(s[j])
    ensures e > lo ==> !IsJsWhitespace(s[e - 1])
    decreases hi
  {
    if hi > lo && IsJsWhitespace(s[hi - 1]) then ContentEnd(s, lo, hi - 1) else hi
  }

  /** `s.trim()`: `s` without its leading and trailing white space; the
      result is a contiguous part of `s`, everything cut away is white
      space, and the result neither starts nor ends with white space. */
  function Trim(s: string): (r: string)
    ensures var i := LeadingSpace(s);
      i + |r| <= |s| && r == s[i..i + |r|]
      && (forall k :: 0 <= k < i ==> IsJsWhitespace(s[k]))
      && (forall k :: i + |r| <= k < |s| ==> IsJsWhitespace(s[k]))
    ensures r == [] || (!IsJsWhitespace(r[0]) && !IsJsWhitespace(r[|r| - 1]))
  {
    var i := LeadingSpace(s);
    var e := ContentEnd(s, i, |s|);
    s[i..e]
  }

  /** A character outside the Basic Multilingual Plane, which JavaScript
      stores as a surrogate pair of two UTF-16 code units. */
  predicate IsAstral(c: char)
  {
    c as int >= 0x10000
  }

  /** JavaScript's `s.length`: the number of UTF-16 code units, one per
      character of the Basic Multilingual Plane and two per other
      character. */
  function Utf16Length(s: string): (n: nat)
    ensures n == |s| + |Filter(s, IsAstral)|
    ensures |s| <= n <= 2 * |s|
    ensures n == |s| <==> forall k :: 0 <= k < |s| ==> !IsAstral(s[k])
    decreases |s|
  {
    if s == [] then 0
    else
      var n := (if IsAstral(s[0]) then 2 else 1) + Utf16Length(s[1..]);
      assert forall k :: 0 < k < |s| ==> s[k] == s[1..][k - 1];
      n
  }

  /** JavaScript's `a < b` on strings: lexicographic order of the
      characters, a proper prefix coming first. */
  predicate StrLess(a: string, b: string)
  {
    if b == [] then false
    else if a == [] then true
    else if a[0] != b[0] then a[0] < b[0]
    else StrLess(a[1..], b[1..])
  }

  /** The test "is the character `x`". */
  function Is(x: char): char -> bool
  {
    c => c == x
  }

  /** `s.split(sep)` for a one-character separator: the pieces between
      separators, in order; one piece when `sep` does not occur. */
  function Split(s: string, sep: char): (parts: seq<string>)
    ensures |parts| >= 1
    decreases |s|
  {
    match FindFirst(s, Is(sep))
    case None => [s]
    case Some(i) => [s[..i]] + Split(s[i + 1..], sep)
  }

  /** A text with one separator splits into the parts before and after it. */
  lemma SplitOnce(a: string, b: string, sep: char)
    requires sep !in a && sep !in b
    ensures Split(a + [sep] + b, sep) == [a, b]
  {
    var t := a + [sep] + b;
    assert t[|a|] == sep;
    forall j | 0 <= j < |a| ensures !Is(sep)(t[j]) {
      assert t[j] == a[j];
    }
    assert FindFirst(t, Is(sep)) == Some(|a|);
    assert t[..|a|] == a && t[|a| + 1..] == b;
    assert FindFirst(b, Is(sep)) == None;
  }
}
