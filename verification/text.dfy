/**
 * The string operations the source calls: `trim`, `length` (UTF-16 code
 * units), `toLowerCase` (ASCII letters only), `includes`, the default
 * `Array.prototype.sort` order on strings, and integer-to-string conversion
 * as template literals perform it.
 */
module Text {

  /** ECMAScript WhiteSpace and LineTerminator code points: what `trim` removes. */
  predicate IsWhitespace(c: char) {
    var n := c as int;
    || n == 0x09 || n == 0x0A || n == 0x0B || n == 0x0C || n == 0x0D
    || n == 0x20 || n == 0xA0 || n == 0x1680
    || (0x2000 <= n <= 0x200A)
    || n == 0x2028 || n == 0x2029 || n == 0x202F || n == 0x205F
    || n == 0x3000 || n == 0xFEFF
  }

  ghost predicate AllWhitespace(s: string) {
    forall k :: 0 <= k < |s| ==> IsWhitespace(s[k])
  }

  /** Index of the first non-whitespace character, or `|s|`. */
  function TrimStartIndex(s: string): (i: nat)
    ensures i <= |s|
    ensures AllWhitespace(s[..i])
    ensures i < |s| ==> !IsWhitespace(s[i])
  {
    if |s| == 0 || !IsWhitespace(s[0]) then 0
    else
      var k := TrimStartIndex(s[1..]);
      assert forall m :: 0 <= m < k ==> s[..k + 1][m + 1] == s[1..][..k][m];
      k + 1
  }

  /** One past the last non-whitespace character at or after `lo`, or `lo`. */
  function TrimEndIndex(s: string, lo: nat): (j: nat)
    requires lo <= |s|
    ensures lo <= j <= |s|
    ensures AllWhitespace(s[j..])
    ensures j > lo ==> !IsWhitespace(s[j - 1])
    decreases |s| - lo
  {
    if |s| == lo || !IsWhitespace(s[|s| - 1]) then |s|
    else
      var j := TrimEndIndex(s[..|s| - 1], lo);
      assert forall m :: 0 <= m < |s[j..]| - 1 ==> s[j..][m] == s[..|s| - 1][j..][m];
      j
  }

  /** `s.trim()`: the slice left after removing whitespace at both ends. */
  function Trim(s: string): (r: string)
    ensures exists i, j :: 0 <= i <= j <= |s| && r == s[i..j] && AllWhitespace(s[..i]) && AllWhitespace(s[j..])
    ensures |r| > 0 ==> !IsWhitespace(r[0]) && !IsWhitespace(r[|r| - 1])
  {
    var i := TrimStartIndex(s);
    var j := TrimEndIndex(s, i);
    assert 0 <= i <= j <= |s| && s[i..j] == s[i..j] && AllWhitespace(s[..i]) && AllWhitespace(s[j..]);
    s[i..j]
  }

  /** Trimming removes nothing at all exactly when the string is blank. */
  lemma TrimEmptyIffBlank(s: string)
    ensures Trim(s) == "" <==> AllWhitespace(s)
  {
    var i, j :| 0 <= i <= j <= |s| && Trim(s) == s[i..j] && AllWhitespace(s[..i]) && AllWhitespace(s[j..]);
    if Trim(s) == "" {
      assert i == j;
      forall k | 0 <= k < |s|
        ensures IsWhitespace(s[k])
      {
        if k < i {
          assert s[..i][k] == s[k];
        } else {
          assert s[j..][k - j] == s[k];
        }
      }
    }
  }

  /** Trimming twice is trimming once. */
  lemma TrimIdempotent(s: string)
    ensures Trim(Trim(s)) == Trim(s)
  {
    var t := Trim(s);
    var i, j :| 0 <= i <= j <= |t| && Trim(t) == t[i..j] && AllWhitespace(t[..i]) && AllWhitespace(t[j..]);
    if |t| > 0 {
      if i > 0 {
        assert t[..i][0] == t[0];
      }
      if j < |t| {
        assert t[j..][|t| - 1 - j] == t[|t| - 1];
      }
    }
  }

  /** Whether a character lies in the Basic Multilingual Plane, one UTF-16 unit. */
  predicate InBmp(c: char) {
    c as int <= 0xFFFF
  }

  /** `s.length`: UTF-16 code units, two for a code point above U+FFFF. */
  function Utf16Length(s: string): (n: nat)
    ensures |s| <= n <= 2 * |s|
    ensures n == |s| <==> forall k :: 0 <= k < |s| ==> InBmp(s[k])
    ensures n == 2 * |s| <==> forall k :: 0 <= k < |s| ==> !InBmp(s[k])
  {
    if |s| == 0 then 0
    else
      var rest := Utf16Length(s[1..]);
      assert forall k :: 1 <= k < |s| ==> s[k] == s[1..][k - 1];
      (if InBmp(s[0]) then 1 else 2) + rest
  }

  /** Lengths add up over concatenation. */
  lemma {:induction false} Utf16LengthAppend(a: string, b: string)
    ensures Utf16Length(a + b) == Utf16Length(a) + Utf16Length(b)
  {
    if |a| == 0 {
      assert a + b == b;
    } else {
      assert (a + b)[1..] == a[1..] + b;
      Utf16LengthAppend(a[1..], b);
    }
  }

  function LowerChar(c: char): char {
    if IsUpper(c) then (c as int + 32) as char else c
  }

  predicate IsUpper(c: char) {
    'A' <= c <= 'Z'
  }

  /**
   * `s.toLowerCase()` for the ASCII letters: no capital is left, every
   * other character is kept, and a capital becomes its own small letter.
   */
  function ToLower(s: string): (r: string)
    ensures |r| == |s|
    ensures forall k :: 0 <= k < |r| ==> !IsUpper(r[k])
    ensures forall k :: 0 <= k < |s| && !IsUpper(s[k]) ==> r[k] == s[k]
    ensures forall k :: 0 <= k < |s| && IsUpper(s[k]) ==> 'a' <= r[k] <= 'z' && r[k] as int - 'a' as int == s[k] as int - 'A' as int
  {
    seq(|s|, k requires 0 <= k < |s| => LowerChar(s[k]))
  }

  /** Lower-casing twice is lower-casing once. */
  lemma ToLowerIdempotent(s: string)
    ensures ToLower(ToLower(s)) == ToLower(s)
  {
  }

  /** `term` occurs in `text` starting at position `i`. */
  predicate OccursAt(text: string, term: string, i: int) {
    0 <= i <= |text| - |term| && text[i..i + |term|] == term
  }

  /**
   * `text.includes(term)`: `term` occurs contiguously in `text`. The empty
   * term occurs in every text, and a term never occurs in a shorter text.
   */
  predicate Contains(text: string, term: string)
    ensures term == "" ==> Contains(text, term)
    ensures Contains(text, term) ==> |term| <= |text|
  {
    assert OccursAt(text, "", 0);
    exists i :: 0 <= i <= |text| - |term| && OccursAt(text, term, i)
  }

  /** Lexicographic order on code points: the default comparison of `Array.prototype.sort`. */
  predicate StringLe(a: string, b: string) {
    if |a| == 0 then true
    else if |b| == 0 then false
    else if a[0] != b[0] then a[0] < b[0]
    else StringLe(a[1..], b[1..])
  }

  lemma {:induction false} StringLeTotal(a: string, b: string)
    ensures StringLe(a, b) || StringLe(b, a)
  {
    if |a| > 0 && |b| > 0 && a[0] == b[0] {
      StringLeTotal(a[1..], b[1..]);
    }
  }

  lemma {:induction false} StringLeTransitive(a: string, b: string, c: string)
    requires StringLe(a, b) && StringLe(b, c)
    ensures StringLe(a, c)
  {
    if |a| > 0 && |b| > 0 && |c| > 0 && a[0] == b[0] == c[0] {
      StringLeTransitive(a[1..], b[1..], c[1..]);
    }
  }

  lemma {:induction false} StringLeAntisymmetric(a: string, b: string)
    requires StringLe(a, b) && StringLe(b, a)
    ensures a == b
  {
    if |a| > 0 && |b| > 0 {
      StringLeAntisymmetric(a[1..], b[1..]);
      assert a == [a[0]] + a[1..] && b == [b[0]] + b[1..];
    }
  }

  function Digit(d: int): char
    requires 0 <= d <= 9
  {
    ('0' as int + d) as char
  }

  predicate IsDigit(c: char) {
    '0' as int <= c as int <= '9' as int
  }

  /** The decimal digits of `n`, most significant first, without leading zeros. */
  function NatDigits(n: nat): (r: string)
    ensures |r| >= 1
    ensures forall k :: 0 <= k < |r| ==> IsDigit(r[k])
    ensures |r| > 1 ==> r[0] != '0'
  {
    if n < 10 then [Digit(n)] else NatDigits(n / 10) + [Digit(n % 10)]
  }

  /** The number a string of decimal digits denotes. */
  function ParseDigits(s: string): nat
    requires forall k :: 0 <= k < |s| ==> IsDigit(s[k])
  {
    if |s| == 0 then 0
    else
      assert IsDigit(s[|s| - 1]);
      ParseDigits(s[..|s| - 1]) * 10 + (s[|s| - 1] as int - '0' as int)
  }

  /** `${n}` for an integer `n`: an optional minus sign, then the digits. */
  function Decimal(n: int): (r: string)
    ensures |r| >= 1
    ensures (r[0] == '-') <==> n < 0
    ensures forall k :: 0 <= k < |r| ==> r[k] == '-' || IsDigit(r[k])
  {
    if n < 0 then "-" + NatDigits(-n) else NatDigits(n)
  }

  /** Reading the digits back gives the number: `NatDigits` loses nothing. */
  lemma {:induction false} ParseNatDigits(n: nat)
    ensures ParseDigits(NatDigits(n)) == n
  {
    if n >= 10 {
      var d := NatDigits(n);
      ParseNatDigits(n / 10);
      assert d[..|d| - 1] == NatDigits(n / 10);
    }
  }

  /** Distinct naturals have distinct digit strings. */
  lemma NatDigitsInjective(a: nat, b: nat)
    requires NatDigits(a) == NatDigits(b)
    ensures a == b
  {
    ParseNatDigits(a);
    ParseNatDigits(b);
  }

  /** Distinct integers render as distinct strings. */
  lemma DecimalInjective(m: int, n: int)
    requires Decimal(m) == Decimal(n)
    ensures m == n
  {
    if m < 0 && n < 0 {
      var dm := NatDigits(-m);
      var dn := NatDigits(-n);
      assert Decimal(m)[1..] == dm;
      assert Decimal(n)[1..] == dn;
      NatDigitsInjective(-m, -n);
    } else if m >= 0 && n >= 0 {
      NatDigitsInjective(m, n);
    }
  }
}
