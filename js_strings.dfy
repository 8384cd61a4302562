/** The JavaScript string operations the application relies on, over Dafny strings.
    A Dafny `char` is a Unicode scalar value; where JavaScript counts UTF-16 code units
    (`length`), the count is written out explicitly. */
module JsStrings {

  /** Code units a character occupies in a JavaScript string: two (a surrogate pair)
      above the Basic Multilingual Plane, one otherwise. */
  function CodeUnits(c: char): nat
  {
    if c as int < 0x1_0000 then 1 else 2
  }

  /** `s.length`: the number of UTF-16 code units of `s`. */
  function Utf16Length(s: string): (n: nat)
    ensures |s| <= n <= 2 * |s|
    ensures (forall k :: 0 <= k < |s| ==> s[k] as int < 0x1_0000) ==> n == |s|
  {
    if s == [] then 0 else CodeUnits(s[0]) + Utf16Length(s[1..])
  }

  /** How many code units of `s` are below 128 (`charCodeAt(0) < 128` over `split('')`).
      An ASCII character is one code unit; both halves of a surrogate pair are at least 0xD800. */
  function AsciiCount(s: string): (n: nat)
    ensures n <= |s|
    ensures n == |s| <==> forall k :: 0 <= k < |s| ==> s[k] as int < 128
  {
    if s == [] then 0 else (if s[0] as int < 128 then 1 else 0) + AsciiCount(s[1..])
  }

  /** The length of a concatenation is the sum of the lengths: a character counts 1, or 2 when it
      is above U+FFFF and so takes a surrogate pair. */
  lemma {:induction false} Utf16LengthAppend(a: string, b: string)
    ensures Utf16Length(a + b) == Utf16Length(a) + Utf16Length(b)
    ensures Utf16Length([]) == 0
    ensures forall c: char :: Utf16Length([c]) == (if c as int < 0x1_0000 then 1 else 2)
  {
    if a != [] {
      assert (a + b)[1..] == a[1..] + b;
      Utf16LengthAppend(a[1..], b);
    } else {
      assert a + b == b;
    }
    forall c: char
      ensures Utf16Length([c]) == (if c as int < 0x1_0000 then 1 else 2)
    {
      assert [c][1..] == [];
    }
  }

  /** The ASCII count of a concatenation is the sum of the counts; a single character counts 1
      exactly when it is below 128. */
  lemma {:induction false} AsciiCountAppend(a: string, b: string)
    ensures AsciiCount(a + b) == AsciiCount(a) + AsciiCount(b)
    ensures AsciiCount([]) == 0
    ensures forall c: char :: AsciiCount([c]) == (if c as int < 128 then 1 else 0)
  {
    if a != [] {
      assert (a + b)[1..] == a[1..] + b;
      AsciiCountAppend(a[1..], b);
    } else {
      assert a + b == b;
    }
    forall c: char
      ensures AsciiCount([c]) == (if c as int < 128 then 1 else 0)
    {
      assert [c][1..] == [];
    }
  }

  predicate IsAsciiLetter(c: char)
  {
    'a' <= c <= 'z' || 'A' <= c <= 'Z'
  }

  /** A character of the regular-expression class `\w` (`[A-Za-z0-9_]`, no `u` flag). */
  predicate IsWordChar(c: char)
  {
    IsAsciiLetter(c) || '0' <= c <= '9' || c == '_'
  }

  /** ASCII case mapping; every other character is left as it is. */
  function LowerChar(c: char): char
  {
    if 'A' <= c <= 'Z' then (c as int + 32) as char else c
  }

  /** `s.toLowerCase()` restricted to ASCII letters. */
  function Lower(s: string): (r: string)
    ensures |r| == |s|
    ensures forall k :: 0 <= k < |s| ==> r[k] == LowerChar(s[k])
  {
    seq(|s|, k requires 0 <= k < |s| => LowerChar(s[k]))
  }

  lemma LowerCharKeeps(c: char)
    ensures LowerChar(c) == '_' <==> c == '_'
    ensures LowerChar(c) == ' ' <==> c == ' '
    ensures IsAsciiLetter(LowerChar(c)) <==> IsAsciiLetter(c)
    ensures IsWordChar(LowerChar(c)) <==> IsWordChar(c)
  {
  }

  /** `p` sits in `s` at index `j`. */
  predicate OccursAt(s: string, j: int, p: string)
  {
    0 <= j && j + |p| <= |s| && s[j..j + |p|] == p
  }

  /** `s.includes(p)`. */
  predicate Contains(s: string, p: string)
  {
    exists j :: 0 <= j <= |s| - |p| && OccursAt(s, j, p)
  }

  /** `s.startsWith(p)`. */
  predicate StartsWith(s: string, p: string)
  {
    |p| <= |s| && s[..|p|] == p
  }

  /** `s.endsWith(p)`. */
  predicate EndsWith(s: string, p: string)
  {
    |p| <= |s| && s[|s| - |p|..] == p
  }

  /** The characters `String.prototype.trim` removes: WhiteSpace and LineTerminator of ECMA-262
      (tab, vertical tab, form feed, space, no-break space, BOM, the Zs category, LF, CR, LS, PS). */
  predicate IsJsWhitespace(c: char)
  {
    var n := c as int;
    n == 0x09 || n == 0x0A || n == 0x0B || n == 0x0C || n == 0x0D || n == 0x20 || n == 0xA0
    || n == 0x1680 || (0x2000 <= n <= 0x200A) || n == 0x2028 || n == 0x2029 || n == 0x202F
    || n == 0x205F || n == 0x3000 || n == 0xFEFF
  }

  /** `s.trimStart()`. */
  function TrimStart(s: string): (r: string)
    ensures |r| <= |s| && r == s[|s| - |r|..]
    ensures forall k :: 0 <= k < |s| - |r| ==> IsJsWhitespace(s[k])
    ensures r == [] || !IsJsWhitespace(r[0])
  {
    if s != [] && IsJsWhitespace(s[0]) then TrimStart(s[1..]) else s
  }

  /** `s.trimEnd()`. */
  function TrimEnd(s: string): (r: string)
    ensures |r| <= |s| && r == s[..|r|]
    ensures forall k :: |r| <= k < |s| ==> IsJsWhitespace(s[k])
    ensures r == [] || !IsJsWhitespace(r[|r| - 1])
  {
    if s != [] && IsJsWhitespace(s[|s| - 1]) then TrimEnd(s[..|s| - 1]) else s
  }

  /** `s.trim()`: the longest infix with no whitespace at either end; what is cut off is whitespace. */
  function Trim(s: string): (r: string)
    ensures exists a, b :: 0 <= a <= b <= |s| && r == s[a..b]
                           && (forall k :: 0 <= k < a ==> IsJsWhitespace(s[k]))
                           && (forall k :: b <= k < |s| ==> IsJsWhitespace(s[k]))
    ensures r == [] || (!IsJsWhitespace(r[0]) && !IsJsWhitespace(r[|r| - 1]))
  {
    var t := TrimStart(s);
    var r := TrimEnd(t);
    assert r == s[|s| - |t|..|s| - |t| + |r|];
    r
  }

  /** Trimming a trimmed string changes nothing. */
  lemma TrimIdempotent(s: string)
    ensures Trim(Trim(s)) == Trim(s)
  {
    var r := Trim(s);
    if r != [] {
      assert TrimStart(r) == r;
      assert TrimEnd(r) == r;
    }
  }

  function DigitChar(d: nat): (c: char)
    requires d < 10
    ensures '0' <= c <= '9'
  {
    (48 + d) as char
  }

  /** The decimal numeral of `n`, as a template literal `${n}` prints a non-negative integer. */
  function NumberToString(n: nat): (s: string)
    ensures |s| >= 1
    ensures forall k :: 0 <= k < |s| ==> '0' <= s[k] <= '9'
    ensures n >= 10 ==> |s| >= 2
  {
    if n < 10 then [DigitChar(n)] else NumberToString(n / 10) + [DigitChar(n % 10)]
  }

  /** Different numbers print differently. */
  lemma {:induction false} NumberToStringInjective(a: nat, b: nat)
    requires NumberToString(a) == NumberToString(b)
    ensures a == b
  {
    var sa, sb := NumberToString(a), NumberToString(b);
    if a < 10 && b < 10 {
      assert sa[0] == sb[0];
    } else if a >= 10 && b >= 10 {
      assert sa[|sa| - 1] == sb[|sb| - 1];
      assert a % 10 == b % 10;
      assert NumberToString(a / 10) == sa[..|sa| - 1];
      assert NumberToString(b / 10) == sb[..|sb| - 1];
      NumberToStringInjective(a / 10, b / 10);
    }
  }
}
