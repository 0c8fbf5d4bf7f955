/** Character and string primitives of the Kotlin standard library that the
    share inbox relies on: whitespace, blank and trim, case-insensitive
    comparison, prefixes, substrings, `take`, decimal digits, and the
    UTF-16 code-unit ordering of `String.compareTo`. A `string` here is a
    sequence of Unicode scalar values; where the JVM counts or orders
    UTF-16 code units instead, the functions below say so. */
module Strings {

  datatype Option<+T> = None | Some(value: T)

  /** `Char.isWhitespace()` on the JVM: `Character.isWhitespace` or `Character.isSpaceChar`. */
  predicate IsWhitespace(c: char)
  {
    || c == '\t' || c == '\n' || c == '\U{0B}' || c == '\U{0C}' || c == '\r'
    || ('\U{1C}' <= c <= '\U{1F}')
    || c == ' ' || c == '\U{A0}' || c == '\U{1680}'
    || ('\U{2000}' <= c <= '\U{200A}')
    || c == '\U{2028}' || c == '\U{2029}' || c == '\U{202F}' || c == '\U{205F}' || c == '\U{3000}'
  }

  /** `CharSequence.isBlank()`: empty or whitespace only. */
  predicate IsBlank(s: string)
  {
    forall i :: 0 <= i < |s| ==> IsWhitespace(s[i])
  }

  /** The first index at or after `i` whose character is not whitespace, or
      `|s|`. */
  function SkipWhitespace(s: string, i: nat): (k: nat)
    requires i <= |s|
    ensures i <= k <= |s|
    ensures forall j :: i <= j < k ==> IsWhitespace(s[j])
    ensures k < |s| ==> !IsWhitespace(s[k])
    decreases |s| - i
  {
    if i == |s| || !IsWhitespace(s[i]) then i else SkipWhitespace(s, i + 1)
  }

  /** The end of `s[..e]` once its trailing whitespace is dropped. */
  function DropTrailingWhitespace(s: string, e: nat): (k: nat)
    requires e <= |s|
    ensures k <= e
    ensures forall j :: k <= j < e ==> IsWhitespace(s[j])
    ensures k > 0 ==> !IsWhitespace(s[k - 1])
  {
    if e == 0 || !IsWhitespace(s[e - 1]) then e else DropTrailingWhitespace(s, e - 1)
  }

  /** `String.trim()`: the slice from the first to the last character that
      is not whitespace; empty when there is none. */
  function Trim(s: string): (r: string)
  {
    var a := SkipWhitespace(s, 0);
    if a == |s| then []
    else
      var b := DropTrailingWhitespace(s, |s|);
      assert a < b by { assert !IsWhitespace(s[a]); }
      s[a..b]
  }

  /** Trimming keeps the contiguous slice of the input that starts after the
      leading whitespace; that slice neither starts nor ends with whitespace,
      and only whitespace lies around it. */
  lemma TrimSlice(s: string)
    ensures var a := SkipWhitespace(s, 0);
      var r := Trim(s);
      && a + |r| <= |s|
      && r == s[a..a + |r|]
      && IsBlank(s[..a]) && IsBlank(s[a + |r|..])
      && (r == [] || (!IsWhitespace(r[0]) && !IsWhitespace(r[|r| - 1])))
  {
    var a := SkipWhitespace(s, 0);
    var r := Trim(s);
    assert IsBlank(s[..a]) by {
      forall j | 0 <= j < a ensures IsWhitespace(s[..a][j]) {
        assert s[..a][j] == s[j];
      }
    }
    if a < |s| {
      var b := DropTrailingWhitespace(s, |s|);
      assert |r| == b - a;
      forall j | 0 <= j < |s| - b ensures IsWhitespace(s[b..][j]) {
        assert s[b..][j] == s[b + j];
      }
    }
  }

  /** A blank string trims to the empty string and a non-blank one does not. */
  lemma TrimEmptyIffBlank(s: string)
    ensures Trim(s) == [] <==> IsBlank(s)
  {
    var a := SkipWhitespace(s, 0);
    if a < |s| {
      assert !IsWhitespace(s[a]);
      var b := DropTrailingWhitespace(s, |s|);
      assert a < b by { assert !IsWhitespace(s[a]); }
    }
  }

  /** Trimming twice is trimming once. */
  lemma TrimIdempotent(s: string)
    ensures Trim(Trim(s)) == Trim(s)
  {
    var r := Trim(s);
    TrimSlice(s);
    if r != [] {
      assert SkipWhitespace(r, 0) == 0;
      assert DropTrailingWhitespace(r, |r|) == |r|;
      assert r[0..|r|] == r;
    }
  }

  /** `String.ifBlank { null }`. */
  function IfBlankNull(s: string): (r: Option<string>)
    ensures r.None? <==> IsBlank(s)
    ensures r.Some? ==> r.value == s
  {
    if IsBlank(s) then None else Some(s)
  }

  /** `Character.toLowerCase(Character.toUpperCase(c))`, the key the JVM's
      case-insensitive `equals` and `startsWith` compare when two characters
      differ, given for every character whose key is an ASCII letter: the
      ASCII letters themselves, dotless i (U+0131), dotted capital I
      (U+0130), long s (U+017F) and the Kelvin sign (U+212A). Other
      characters are returned unchanged. */
  function Fold(c: char): char
  {
    if 'A' <= c <= 'Z' then (c as int + 32) as char
    else if c == '\U{131}' || c == '\U{130}' then 'i'
    else if c == '\U{17F}' then 's'
    else if c == '\U{212A}' then 'k'
    else c
  }

  /** `String.equals(other, ignoreCase = true)`: equal lengths, and at each
      position equal characters or equal fold keys. */
  predicate EqualsIgnoreCase(a: string, b: string)
  {
    |a| == |b| && forall i :: 0 <= i < |a| ==> Fold(a[i]) == Fold(b[i])
  }

  predicate StartsWith(s: string, p: string)
  {
    |p| <= |s| && s[..|p|] == p
  }

  /** `String.startsWith(prefix, ignoreCase = true)`. */
  predicate StartsWithIgnoreCase(s: string, p: string)
  {
    |p| <= |s| && EqualsIgnoreCase(s[..|p|], p)
  }

  predicate EndsWith(s: string, p: string)
  {
    |p| <= |s| && s[|s| - |p|..] == p
  }

  /** `CharSequence.contains(other)`, the model of SQL `LIKE '%' || q || '%'`. */
  predicate Contains(s: string, q: string)
  {
    exists i :: 0 <= i <= |s| - |q| && OccursAt(s, q, i)
  }

  predicate OccursAt(s: string, q: string, i: nat)
  {
    i + |q| <= |s| && s[i..i + |q|] == q
  }

  /** The number of UTF-16 code units of a character: two for a character
      above U+FFFF (a surrogate pair), one otherwise. */
  function Utf16Width(c: char): nat
  {
    if c as int >= 0x10000 then 2 else 1
  }

  /** `String.length` on the JVM: the number of UTF-16 code units. */
  function Utf16Length(s: string): (n: nat)
    ensures |s| <= n <= 2 * |s|
  {
    if s == [] then 0 else Utf16Width(s[0]) + Utf16Length(s[1..])
  }

  /** `String.take(n)`, which counts UTF-16 code units: the longest prefix
      whose UTF-16 length is at most `n`. */
  function Take(s: string, n: nat): (r: string)
    ensures StartsWith(s, r)
    ensures Utf16Length(r) <= n
    ensures Utf16Length(s) <= n ==> r == s
    ensures |r| < |s| ==> Utf16Length(r) + Utf16Width(s[|r|]) > n
  {
    if s == [] || Utf16Width(s[0]) > n then []
    else
      var t := Take(s[1..], n - Utf16Width(s[0]));
      assert ([s[0]] + t)[1..] == t;
      [s[0]] + t
  }

  /** `String.count { it == c }`. */
  function CountChar(s: string, c: char): (n: nat)
    ensures n <= |s|
  {
    if s == [] then 0 else (if s[0] == c then 1 else 0) + CountChar(s[1..], c)
  }

  lemma {:induction false} CountCharZero(s: string, c: char)
    ensures CountChar(s, c) == 0 <==> c !in s
  {
    if s != [] {
      CountCharZero(s[1..], c);
      assert s == [s[0]] + s[1..];
    }
  }

  lemma {:induction false} CountCharAppend(a: string, b: string, c: char)
    ensures CountChar(a + b, c) == CountChar(a, c) + CountChar(b, c)
  {
    if a != [] {
      assert (a + b)[1..] == a[1..] + b;
      CountCharAppend(a[1..], b, c);
    } else {
      assert a + b == b;
    }
  }

  /** `z` when `v` lies in the run of ten digits that starts at `z` and ends
      above `v`, else -1. */
  function RunZero(v: int, z: int): int
  {
    if z <= v then z else -1
  }

  /** The code point of the zero of the run of decimal digits (general
      category Nd, Unicode 15) that holds code point `v`, or -1. Only runs
      below U+10000 are listed: a digit above U+FFFF is a surrogate pair on
      the JVM, and neither half of it is a digit there. The runs ascend, so
      each test only has to look at the next one. */
  function DigitZeroOf(v: int): (z: int)
    ensures z == -1 || z <= v < z + 10
  {
    if v < 0x0030 + 10 then RunZero(v, 0x0030)  // ASCII
    else if v < 0x0660 + 10 then RunZero(v, 0x0660)  // Arabic-Indic
    else if v < 0x06F0 + 10 then RunZero(v, 0x06F0)  // Extended Arabic-Indic
    else if v < 0x07C0 + 10 then RunZero(v, 0x07C0)  // NKo
    else if v < 0x0966 + 10 then RunZero(v, 0x0966)  // Devanagari
    else if v < 0x09E6 + 10 then RunZero(v, 0x09E6)  // Bengali
    else if v < 0x0A66 + 10 then RunZero(v, 0x0A66)  // Gurmukhi
    else if v < 0x0AE6 + 10 then RunZero(v, 0x0AE6)  // Gujarati
    else if v < 0x0B66 + 10 then RunZero(v, 0x0B66)  // Oriya
    else if v < 0x0BE6 + 10 then RunZero(v, 0x0BE6)  // Tamil
    else if v < 0x0C66 + 10 then RunZero(v, 0x0C66)  // Telugu
    else if v < 0x0CE6 + 10 then RunZero(v, 0x0CE6)  // Kannada
    else if v < 0x0D66 + 10 then RunZero(v, 0x0D66)  // Malayalam
    else if v < 0x0DE6 + 10 then RunZero(v, 0x0DE6)  // Sinhala Lith
    else if v < 0x0E50 + 10 then RunZero(v, 0x0E50)  // Thai
    else if v < 0x0ED0 + 10 then RunZero(v, 0x0ED0)  // Lao
    else if v < 0x0F20 + 10 then RunZero(v, 0x0F20)  // Tibetan
    else if v < 0x1040 + 10 then RunZero(v, 0x1040)  // Myanmar
    else if v < 0x1090 + 10 then RunZero(v, 0x1090)  // Myanmar Shan
    else if v < 0x17E0 + 10 then RunZero(v, 0x17E0)  // Khmer
    else if v < 0x1810 + 10 then RunZero(v, 0x1810)  // Mongolian
    else if v < 0x1946 + 10 then RunZero(v, 0x1946)  // Limbu
    else if v < 0x19D0 + 10 then RunZero(v, 0x19D0)  // New Tai Lue
    else if v < 0x1A80 + 10 then RunZero(v, 0x1A80)  // Tai Tham Hora
    else if v < 0x1A90 + 10 then RunZero(v, 0x1A90)  // Tai Tham Tham
    else if v < 0x1B50 + 10 then RunZero(v, 0x1B50)  // Balinese
    else if v < 0x1BB0 + 10 then RunZero(v, 0x1BB0)  // Sundanese
    else if v < 0x1C40 + 10 then RunZero(v, 0x1C40)  // Lepcha
    else if v < 0x1C50 + 10 then RunZero(v, 0x1C50)  // Ol Chiki
    else if v < 0xA620 + 10 then RunZero(v, 0xA620)  // Vai
    else if v < 0xA8D0 + 10 then RunZero(v, 0xA8D0)  // Saurashtra
    else if v < 0xA900 + 10 then RunZero(v, 0xA900)  // Kayah Li
    else if v < 0xA9D0 + 10 then RunZero(v, 0xA9D0)  // Javanese
    else if v < 0xA9F0 + 10 then RunZero(v, 0xA9F0)  // Myanmar Tai Laing
    else if v < 0xAA50 + 10 then RunZero(v, 0xAA50)  // Cham
    else if v < 0xABF0 + 10 then RunZero(v, 0xABF0)  // Meetei Mayek
    else if v < 0xFF10 + 10 then RunZero(v, 0xFF10)  // fullwidth
    else -1
  }

  /** `Character.digit(c, 10)`: the value of a decimal digit, or none. */
  function DigitOf(c: char): (r: Option<nat>)
    ensures r.Some? ==> r.value < 10
    ensures '0' <= c <= '9' ==> r == Some(c as int - '0' as int)
  {
    var z := DigitZeroOf(c as int);
    if z < 0 then None else Some(c as int - z)
  }

  /** `Char.isDigit()`. */
  predicate IsDigit(c: char)
  {
    DigitOf(c).Some?
  }

  predicate AllDigits(s: string)
  {
    forall i :: 0 <= i < |s| ==> IsDigit(s[i])
  }

  /** `CharSequence.filter { it.isDigit() }`: the digits of `s`, in order. */
  function KeepDigits(s: string): (r: string)
    ensures AllDigits(r)
    ensures |r| <= |s|
    ensures AllDigits(s) ==> r == s
  {
    if s == [] then []
    else if IsDigit(s[0]) then [s[0]] + KeepDigits(s[1..])
    else KeepDigits(s[1..])
  }

  /** The filter works character by character: a single character is kept
      exactly when it is a digit ... */
  lemma KeepDigitsChar(c: char)
    ensures KeepDigits([c]) == if IsDigit(c) then [c] else []
  {
    assert [c][1..] == [];
  }

  /** ... and filtering a concatenation concatenates the filtered parts. */
  lemma {:induction false} KeepDigitsConcat(a: string, b: string)
    ensures KeepDigits(a + b) == KeepDigits(a) + KeepDigits(b)
  {
    if a == [] {
      assert a + b == b;
    } else {
      assert (a + b)[0] == a[0];
      assert (a + b)[1..] == a[1..] + b;
      KeepDigitsConcat(a[1..], b);
    }
  }

  /** Every digit of the text is kept, in its place between the digits
      before it and the digits after it. */
  lemma KeepDigitsKeepsDigit(s: string, i: nat)
    requires i < |s| && IsDigit(s[i])
    ensures KeepDigits(s) == KeepDigits(s[..i]) + [s[i]] + KeepDigits(s[i+1..])
  {
    assert s == s[..i] + ([s[i]] + s[i+1..]);
    KeepDigitsConcat(s[..i], [s[i]] + s[i+1..]);
    KeepDigitsConcat([s[i]], s[i+1..]);
    KeepDigitsChar(s[i]);
  }

  /** Arabic-Indic five is a digit worth 5, and is kept by the filter. */
  lemma ArabicIndicDigit()
    ensures DigitOf('\U{665}') == Some(5)
    ensures KeepDigits("a\U{665}") == "\U{665}"
  {
    assert "a\U{665}"[1..] == "\U{665}";
  }

  /** Decimal rendering of a non-negative number, as string templates print a Long. */
  function NatToString(n: nat): (r: string)
    ensures r != [] && forall i :: 0 <= i < |r| ==> '0' <= r[i] <= '9'
    decreases n
  {
    var d := ['0' + (n % 10) as char];
    if n < 10 then d else NatToString(n / 10) + d
  }

  /** The rank of a character in UTF-16 code-unit order. A character above
      U+FFFF starts with a high surrogate (U+D800..U+DBFF), so it sorts after
      U+0000..U+D7FF and before U+E000..U+FFFF; two such characters compare
      like their code points. */
  function Utf16Rank(c: char): int
  {
    if c as int < 0xD800 then c as int
    else if c as int < 0x10000 then c as int + 0x110000
    else c as int
  }

  /** `String.compareTo(other) < 0`: lexicographic order by UTF-16 code
      unit, a proper prefix first. */
  predicate StrLt(a: string, b: string)
  {
    if a == [] then b != []
    else if b == [] then false
    else if a[0] != b[0] then Utf16Rank(a[0]) < Utf16Rank(b[0])
    else StrLt(a[1..], b[1..])
  }

  /** U+1F600 is the surrogate pair D83D DE00, which sorts before U+FF21. */
  lemma StrLtByCodeUnit()
    ensures StrLt("\U{1F600}", "\U{FF21}") && !StrLt("\U{FF21}", "\U{1F600}")
  {
  }

  predicate StrLe(a: string, b: string)
  {
    a == b || StrLt(a, b)
  }

  lemma {:induction false} StrLtIrreflexive(a: string)
    ensures !StrLt(a, a)
  {
    if a != [] {
      StrLtIrreflexive(a[1..]);
    }
  }

  lemma {:induction false} StrLtTransitive(a: string, b: string, c: string)
    requires StrLt(a, b) && StrLt(b, c)
    ensures StrLt(a, c)
  {
    if a != [] && b != [] && c != [] && a[0] == b[0] && b[0] == c[0] {
      StrLtTransitive(a[1..], b[1..], c[1..]);
    }
  }

  lemma {:induction false} StrLtTotal(a: string, b: string)
    ensures a == b || StrLt(a, b) || StrLt(b, a)
  {
    if a != [] && b != [] && a[0] == b[0] {
      StrLtTotal(a[1..], b[1..]);
      if a[1..] == b[1..] {
        assert a == [a[0]] + a[1..] && b == [b[0]] + b[1..];
      }
    }
  }

  lemma {:induction false} StrLtAsymmetric(a: string, b: string)
    requires StrLt(a, b)
    ensures !StrLt(b, a)
  {
    if a != [] && b != [] && a[0] == b[0] {
      StrLtAsymmetric(a[1..], b[1..]);
    }
  }
}
