/**
 * The java.lang.String and java.util.List operations the shop's code relies on,
 * with the exact character classes the JDK uses. A Dafny `char` is one Unicode
 * scalar value; where Java counts UTF-16 code units the model says so.
 */
module JavaLang {

  // ---------------------------------------------------------------- trim

  /** `String.trim()` removes every character up to U+0020 from both ends. */
  predicate IsTrimmable(c: char) {
    c <= ' '
  }

  /** No trimmable character at either end. */
  predicate IsTrimmed(s: string) {
    s == [] || (!IsTrimmable(s[0]) && !IsTrimmable(s[|s| - 1]))
  }

  function TrimStart(s: string): (r: string)
    ensures |r| <= |s| && r == s[|s| - |r|..]
    ensures forall i :: 0 <= i < |s| - |r| ==> IsTrimmable(s[i])
    ensures r == [] || !IsTrimmable(r[0])
  {
    if s != [] && IsTrimmable(s[0]) then TrimStart(s[1..]) else s
  }

  function TrimEnd(s: string): (r: string)
    ensures |r| <= |s| && r == s[..|r|]
    ensures forall i :: |r| <= i < |s| ==> IsTrimmable(s[i])
    ensures r == [] || !IsTrimmable(r[|r| - 1])
  {
    if s != [] && IsTrimmable(s[|s| - 1]) then TrimEnd(s[..|s| - 1]) else s
  }

  /** `String.trim()`. */
  function Trim(s: string): (r: string)
    ensures IsTrimmed(r)
    ensures |r| <= |s|
    ensures r == [] <==> AllTrimmable(s)
    ensures IsTrimmed(s) ==> r == s
  {
    TrimEnd(TrimStart(s))
  }

  /** Does `s` hold a character `trim()` keeps? */
  predicate HasContent(s: string)
    decreases |s|
  {
    s != [] && (!IsTrimmable(s[0]) || HasContent(s[1..]))
  }

  lemma {:induction false} HasContentIffNotAllTrimmable(s: string)
    ensures HasContent(s) <==> !AllTrimmable(s)
    decreases |s|
  {
    if s != [] {
      HasContentIffNotAllTrimmable(s[1..]);
      assert AllTrimmable(s) <==> IsTrimmable(s[0]) && AllTrimmable(s[1..]);
    }
  }

  /** `!s.trim().isEmpty()` exactly when `s` has content. */
  lemma TrimEmptyIff(s: string)
    ensures Trim(s) == [] <==> !HasContent(s)
  {
    HasContentIffNotAllTrimmable(s);
  }

  lemma TrimIdempotent(s: string)
    ensures Trim(Trim(s)) == Trim(s)
  {
  }

  predicate AllTrimmable(s: string) {
    forall i :: 0 <= i < |s| ==> IsTrimmable(s[i])
  }

  lemma {:induction false} TrimStartPadded(pad: string, s: string)
    requires AllTrimmable(pad) && (s == [] || !IsTrimmable(s[0]))
    ensures TrimStart(pad + s) == s
    decreases |pad|
  {
    if pad != [] {
      assert (pad + s)[1..] == pad[1..] + s;
      TrimStartPadded(pad[1..], s);
    }
  }

  lemma {:induction false} TrimEndPadded(s: string, pad: string)
    requires AllTrimmable(pad) && (s == [] || !IsTrimmable(s[|s| - 1]))
    ensures TrimEnd(s + pad) == s
    decreases |pad|
  {
    if pad != [] {
      assert (s + pad)[..|s + pad| - 1] == s + pad[..|pad| - 1];
      TrimEndPadded(s, pad[..|pad| - 1]);
    }
  }

  /** Trimming undoes any padding of spaces and control characters around a trimmed, non-empty string. */
  lemma TrimPadded(before: string, s: string, after: string)
    requires AllTrimmable(before) && AllTrimmable(after) && s != [] && IsTrimmed(s)
    ensures Trim(before + s + after) == s
  {
    assert before + s + after == before + (s + after);
    TrimStartPadded(before, s + after);
    TrimEndPadded(s, after);
  }

  // ---------------------------------------------------------------- blank

  /**
   * `Character.isWhitespace`: the Unicode space, line and paragraph separators
   * other than the no-break spaces U+00A0, U+2007 and U+202F, plus the controls
   * U+0009-U+000D and U+001C-U+001F.
   */
  predicate IsWhitespace(c: char) {
    ('\U{9}' <= c <= '\U{D}') || ('\U{1C}' <= c <= '\U{20}')
    || c == '\U{1680}'
    || ('\U{2000}' <= c <= '\U{2006}') || ('\U{2008}' <= c <= '\U{200A}')
    || c == '\U{2028}' || c == '\U{2029}' || c == '\U{205F}' || c == '\U{3000}'
  }

  /** `String.isBlank()`: empty or only `Character.isWhitespace` characters. */
  predicate IsBlank(s: string) {
    forall i :: 0 <= i < |s| ==> IsWhitespace(s[i])
  }

  /** `isBlank` and `trim().isEmpty()` disagree: U+2000 is whitespace but above U+0020, NUL is below it but not whitespace. */
  lemma BlankAndTrimEmptyDiffer()
    ensures IsBlank("\U{2000}") && Trim("\U{2000}") != []
    ensures !IsBlank("\U{0}") && Trim("\U{0}") == []
  {
    assert IsTrimmable("\U{0}"[0]);
  }

  // ---------------------------------------------------------------- case

  /**
   * `Character.toUpperCase` restricted to what can produce an ASCII letter:
   * the ASCII lower-case letters, dotless i (U+0131 -> I) and long s
   * (U+017F -> S). Every other character is left as it is; no other character
   * upper-cases to an ASCII letter, so comparisons against ASCII names are exact.
   */
  function UpperChar(c: char): (u: char)
    ensures 'A' <= u <= 'Z' ==> ('A' <= c <= 'Z' || 'a' <= c <= 'z' || c == '\U{131}' || c == '\U{17F}')
  {
    if 'a' <= c <= 'z' then (c as int - 32) as char
    else if c == '\U{131}' then 'I'
    else if c == '\U{17F}' then 'S'
    else c
  }

  /**
   * `Character.toLowerCase` restricted in the same way: the ASCII upper-case
   * letters, capital I with dot (U+0130 -> i) and the Kelvin sign (U+212A -> k).
   */
  function LowerChar(c: char): char {
    if 'A' <= c <= 'Z' then (c as int + 32) as char
    else if c == '\U{130}' then 'i'
    else if c == '\U{212A}' then 'k'
    else c
  }

  /** `String.toUpperCase()` under a non-Turkish locale, character by character. */
  function ToUpperCase(s: string): (r: string)
    ensures |r| == |s|
    ensures forall i :: 0 <= i < |s| ==> r[i] == UpperChar(s[i])
  {
    if s == [] then [] else [UpperChar(s[0])] + ToUpperCase(s[1..])
  }

  /** The per-character test of `String.regionMatches(true, ...)` and `equalsIgnoreCase`. */
  predicate CharEqualsIgnoreCase(a: char, b: char) {
    a == b || UpperChar(a) == UpperChar(b) || LowerChar(UpperChar(a)) == LowerChar(UpperChar(b))
  }

  /** `String.startsWith(prefix)`. */
  predicate StartsWith(s: string, prefix: string) {
    |prefix| <= |s| && s[..|prefix|] == prefix
  }

  /** `String.endsWith(suffix)`. */
  predicate EndsWith(s: string, suffix: string) {
    |suffix| <= |s| && s[|s| - |suffix|..] == suffix
  }

  /** `s.regionMatches(true, 0, prefix, 0, prefix.length())`. */
  predicate StartsWithIgnoreCase(s: string, prefix: string) {
    |prefix| <= |s| && forall i :: 0 <= i < |prefix| ==> CharEqualsIgnoreCase(s[i], prefix[i])
  }

  /** `String.equalsIgnoreCase`. */
  predicate EqualsIgnoreCase(a: string, b: string) {
    |a| == |b| && StartsWithIgnoreCase(a, b)
  }

  lemma StartsWithIgnoresCase(s: string, prefix: string)
    requires StartsWith(s, prefix)
    ensures StartsWithIgnoreCase(s, prefix)
  {
    forall i | 0 <= i < |prefix|
      ensures CharEqualsIgnoreCase(s[i], prefix[i])
    {
      assert s[i] == s[..|prefix|][i];
    }
  }

  /** `String.contains`. */
  predicate Contains(s: string, part: string)
    decreases |s|
  {
    StartsWith(s, part) || (s != [] && Contains(s[1..], part))
  }

  // ---------------------------------------------------------------- lengths

  /** `String.length()`: UTF-16 code units; a character above U+FFFF takes two. */
  function Utf16Length(s: string): (n: nat)
    ensures |s| <= n <= 2 * |s|
  {
    if s == [] then 0 else (if s[0] as int > 0xFFFF then 2 else 1) + Utf16Length(s[1..])
  }

  /** The number of bytes `String.getBytes(UTF_8)` yields for one character. */
  function Utf8Width(c: char): (n: nat)
    ensures 1 <= n <= 4
  {
    if c as int < 0x80 then 1
    else if c as int < 0x800 then 2
    else if c as int < 0x10000 then 3
    else 4
  }

  /** `String.getBytes(StandardCharsets.UTF_8).length`. */
  function Utf8Length(s: string): (n: nat)
    ensures |s| <= n <= 4 * |s|
  {
    if s == [] then 0 else Utf8Width(s[0]) + Utf8Length(s[1..])
  }

  // ---------------------------------------------------------------- numbers

  /** `Character.isDigit` as the regular expression class `\d` uses it: 0-9. */
  predicate IsDigit(c: char) {
    '0' <= c <= '9'
  }

  function DigitChar(d: int): (c: char)
    requires 0 <= d < 10
    ensures IsDigit(c)
  {
    ('0' as int + d) as char
  }

  /** The decimal digits of a natural number, most significant first. */
  function NatToString(n: nat): (s: string)
    ensures s != []
    ensures forall i :: 0 <= i < |s| ==> IsDigit(s[i])
    decreases n
  {
    if n < 10 then [DigitChar(n)] else NatToString(n / 10) + [DigitChar(n % 10)]
  }

  /** The value of a string of decimal digits. */
  function DigitsValue(s: string): nat
    requires forall i :: 0 <= i < |s| ==> IsDigit(s[i])
  {
    if s == [] then 0
    else
      var last := s[|s| - 1];
      assert IsDigit(last);
      10 * DigitsValue(s[..|s| - 1]) + (last as int - '0' as int)
  }

  lemma {:induction false} NatToStringRoundTrip(n: nat)
    ensures DigitsValue(NatToString(n)) == n
    decreases n
  {
    if n >= 10 {
      var s := NatToString(n);
      assert s[..|s| - 1] == NatToString(n / 10);
      NatToStringRoundTrip(n / 10);
    }
  }

  /** `Long.toString`: decimal digits with a leading '-' for negative values. */
  function LongToString(n: int): (s: string)
    ensures s != []
    ensures (s[0] == '-') <==> n < 0
  {
    if n < 0 then "-" + NatToString(-n) else NatToString(n)
  }

  // ---------------------------------------------------------------- collections

  /** Some element of a non-empty set: whichever one an iterator over a `HashSet` yields first. */
  ghost function Element<T>(s: set<T>): (x: T)
    requires s != {}
    ensures x in s
  {
    var y :| y in s; y
  }

  /** The distinct elements of a list. */
  function Elems<T>(s: seq<T>): set<T> {
    set x | x in s
  }

  // ---------------------------------------------------------------- lists

  /** `List.remove(Object)`: drop the first element equal to `x`, if any. */
  function ListRemove<T(==)>(s: seq<T>, x: T): (r: seq<T>)
    ensures x !in s ==> r == s
    ensures x in s ==> |r| == |s| - 1
  {
    if s == [] then []
    else if s[0] == x then s[1..] else [s[0]] + ListRemove(s[1..], x)
  }

  /** `remove` takes away exactly one occurrence of the element, when there is one, and nothing else. */
  lemma {:induction false} ListRemoveCounts<T>(s: seq<T>, x: T)
    ensures multiset(ListRemove(s, x)) == multiset(s) - multiset{x}
  {
    if s != [] {
      assert s == [s[0]] + s[1..];
      if s[0] != x {
        ListRemoveCounts(s[1..], x);
      }
    }
  }

  /** Removing an element that is not in the front part only touches the back part. */
  lemma {:induction false} ListRemoveAfter<T>(front: seq<T>, back: seq<T>, x: T)
    requires x !in front
    ensures ListRemove(front + back, x) == front + ListRemove(back, x)
  {
    if front == [] {
      assert front + back == back;
    } else {
      var rest := front[1..] + back;
      assert front + back == [front[0]] + rest;
      ListRemoveCons(front[0], rest, x);
      ListRemoveAfter(front[1..], back, x);
      assert [front[0]] + (front[1..] + ListRemove(back, x)) == front + ListRemove(back, x);
    }
  }

  lemma ListRemoveCons<T>(head: T, tail: seq<T>, x: T)
    requires head != x
    ensures ListRemove([head] + tail, x) == [head] + ListRemove(tail, x)
  {
    assert ([head] + tail)[1..] == tail;
  }

  predicate NoDuplicates<T(==)>(s: seq<T>) {
    forall i, j :: 0 <= i < j < |s| ==> s[i] != s[j]
  }
}
