/** The Kotlin string operations the reader and the plugin apply to values:
    `Char.isWhitespace`, `filterNot`, `replace`, `joinToString` and
    `Int.toString`. */
module Text {

  /** Kotlin's `Char.isWhitespace()`: Java's `Character.isWhitespace` or
      `Character.isSpaceChar` (the Unicode space, line and paragraph
      separators, and the ASCII controls TAB, LF, VT, FF, CR, FS, GS, RS, US). */
  predicate IsWhitespace(c: char) {
    || c == '\t' || c == '\n' || c == '\U{000B}' || c == '\U{000C}' || c == '\r'
    || ('\U{001C}' <= c <= '\U{001F}')
    || c == ' ' || c == '\U{00A0}' || c == '\U{1680}'
    || ('\U{2000}' <= c <= '\U{200A}')
    || c == '\U{2028}' || c == '\U{2029}' || c == '\U{202F}' || c == '\U{205F}' || c == '\U{3000}'
  }

  predicate NoWhitespace(s: string) {
    forall i :: 0 <= i < |s| ==> !IsWhitespace(s[i])
  }

  /** `s.filterNot { it.isWhitespace() }`: the result has no whitespace. */
  function FilterNotWhitespace(s: string): (r: string)
    ensures |r| <= |s|
    ensures NoWhitespace(r)
  {
    if |s| == 0 then ""
    else (if IsWhitespace(s[0]) then "" else [s[0]]) + FilterNotWhitespace(s[1..])
  }

  /** The filter keeps every other character exactly as often as `s` has it
      and drops every whitespace character. */
  lemma {:induction false} FilterNotWhitespaceCounts(s: string)
    ensures forall c :: !IsWhitespace(c) ==> multiset(FilterNotWhitespace(s))[c] == multiset(s)[c]
    ensures forall c :: IsWhitespace(c) ==> multiset(FilterNotWhitespace(s))[c] == 0
  {
    if |s| > 0 {
      FilterNotWhitespaceCounts(s[1..]);
      assert s == [s[0]] + s[1..];
      assert multiset(s) == multiset([s[0]]) + multiset(s[1..]);
    }
  }

  /** Filtering distributes over concatenation, so the relative order of the
      characters that survive is the order they had in the input. */
  lemma {:induction false} FilterNotWhitespaceAppend(a: string, b: string)
    ensures FilterNotWhitespace(a + b) == FilterNotWhitespace(a) + FilterNotWhitespace(b)
  {
    if |a| == 0 {
      assert a + b == b;
    } else {
      assert (a + b)[1..] == a[1..] + b;
      FilterNotWhitespaceAppend(a[1..], b);
    }
  }

  /** A string without whitespace is left unchanged, so the filter is idempotent. */
  lemma {:induction false} FilterNotWhitespaceIdentity(s: string)
    requires NoWhitespace(s)
    ensures FilterNotWhitespace(s) == s
  {
    if |s| > 0 {
      FilterNotWhitespaceIdentity(s[1..]);
    }
  }

  /** `s.replace(from, to)` for one-character strings: every `from` becomes
      `to`, every other character stays where it was. */
  function ReplaceChar(s: string, from: char, to: char): (r: string)
    ensures |r| == |s|
    ensures forall i :: 0 <= i < |s| ==> r[i] == (if s[i] == from then to else s[i])
    ensures from != to ==> forall i :: 0 <= i < |r| ==> r[i] != from
  {
    if |s| == 0 then ""
    else [if s[0] == from then to else s[0]] + ReplaceChar(s[1..], from, to)
  }

  function TotalLength(parts: seq<string>): nat {
    if |parts| == 0 then 0 else |parts[0]| + TotalLength(parts[1..])
  }

  /** `parts.joinToString()`: the parts separated by ", ", with no prefix or
      postfix. */
  function JoinToString(parts: seq<string>): (r: string)
    ensures |parts| == 0 ==> r == ""
    ensures |parts| == 1 ==> r == parts[0]
    ensures |parts| > 0 ==> |r| == TotalLength(parts) + 2 * (|parts| - 1)
  {
    if |parts| == 0 then ""
    else if |parts| == 1 then parts[0]
    else parts[0] + ", " + JoinToString(parts[1..])
  }

  /** Appending a part appends the separator and that part, as Kotlin's
      left-to-right builder does. */
  lemma {:induction false} JoinToStringAppend(parts: seq<string>, last: string)
    requires |parts| > 0
    ensures JoinToString(parts + [last]) == JoinToString(parts) + ", " + last
  {
    if |parts| > 1 {
      assert (parts + [last])[1..] == parts[1..] + [last];
      JoinToStringAppend(parts[1..], last);
    } else {
      assert (parts + [last])[1..] == [last];
    }
  }

  function DigitChar(d: nat): (c: char)
    requires d < 10
    ensures '0' <= c <= '9'
  {
    (48 + d) as char
  }

  /** `n.toString()` for a non-negative `Int`: its decimal digits, without
      leading zeros. */
  function DecimalString(n: nat): (r: string)
    ensures 1 <= |r|
    ensures forall i :: 0 <= i < |r| ==> '0' <= r[i] <= '9'
    ensures (n < 10) == (|r| == 1)
    decreases n
  {
    if n < 10 then [DigitChar(n)]
    else DecimalString(n / 10) + [DigitChar(n % 10)]
  }

  /** Distinct numbers have distinct renderings, so aliases built from them
      never collide. */
  lemma {:induction false} DecimalStringInjective(a: nat, b: nat)
    requires DecimalString(a) == DecimalString(b)
    ensures a == b
    decreases a
  {
    var sa, sb := DecimalString(a), DecimalString(b);
    if a < 10 && b < 10 {
      assert sa[0] == DigitChar(a) && sb[0] == DigitChar(b);
    } else if a >= 10 && b >= 10 {
      assert sa[..|sa| - 1] == DecimalString(a / 10);
      assert sb[..|sb| - 1] == DecimalString(b / 10);
      DecimalStringInjective(a / 10, b / 10);
      assert sa[|sa| - 1] == DigitChar(a % 10) && sb[|sb| - 1] == DigitChar(b % 10);
    }
  }

  /** `n.toString()` for any `Int`. */
  function IntString(n: int): string {
    if n < 0 then "-" + DecimalString(-n) else DecimalString(n)
  }
}
