/** The pieces of Python's `str` behaviour the model relies on:
    whitespace, `strip()`, `startswith`/`endswith` and `lower()`. */
module Strings {

  /** Python's `str.isspace` on one character. */
  predicate IsSpace(c: char)
  {
    var n := c as int;
    || n == 0x20 || 0x09 <= n <= 0x0D || 0x1C <= n <= 0x1F
    || n == 0x85 || n == 0xA0 || n == 0x1680 || 0x2000 <= n <= 0x200A
    || n == 0x2028 || n == 0x2029 || n == 0x202F || n == 0x205F || n == 0x3000
  }

  /** The number of characters satisfying `sp` that `s` begins with. */
  function LeadingCount(s: string, sp: char -> bool): (n: nat)
    ensures n <= |s|
    ensures forall i :: 0 <= i < n ==> sp(s[i])
    ensures n == |s| || !sp(s[n])
  {
    if |s| > 0 && sp(s[0]) then 1 + LeadingCount(s[1..], sp) else 0
  }

  /** The number of characters satisfying `sp` that `s` ends with. */
  function TrailingCount(s: string, sp: char -> bool): (n: nat)
    ensures n <= |s|
    ensures forall i :: |s| - n <= i < |s| ==> sp(s[i])
    ensures n == |s| || !sp(s[|s| - n - 1])
  {
    if |s| > 0 && sp(s[|s| - 1]) then 1 + TrailingCount(s[..|s| - 1], sp) else 0
  }

  /** `s` without the characters satisfying `sp` at either end; what is
      left is a slice of `s` that neither begins nor ends with such a
      character. */
  function StripBy(s: string, sp: char -> bool): (r: string)
    ensures var a := LeadingCount(s, sp);
            a + |r| <= |s| && r == s[a..a + |r|]
    ensures r == [] || (!sp(r[0]) && !sp(r[|r| - 1]))
  {
    var a := LeadingCount(s, sp);
    var left := s[a..];
    left[..|left| - TrailingCount(left, sp)]
  }

  /** Everything `StripBy` cuts off after the slice it keeps satisfies
      `sp`. */
  lemma StripByTrailing(s: string, sp: char -> bool)
    ensures var a := LeadingCount(s, sp);
            var r := StripBy(s, sp);
            forall i :: a + |r| <= i < |s| ==> sp(s[i])
  {
    var a := LeadingCount(s, sp);
    var left := s[a..];
    var b := TrailingCount(left, sp);
    assert forall i :: a + |left| - b <= i < |s| ==> s[i] == left[i - a];
  }

  /** A string that neither begins nor ends with a character satisfying
      `sp` is left as it is. */
  lemma StripByUnchanged(s: string, sp: char -> bool)
    requires s == [] || (!sp(s[0]) && !sp(s[|s| - 1]))
    ensures StripBy(s, sp) == s
  {
    StripByTrailing(s, sp);
  }

  /** Python's `str.strip()`: `s` without its leading and trailing
      whitespace; what is left neither begins nor ends with whitespace. */
  function Strip(s: string): (r: string)
    ensures var a := LeadingCount(s, IsSpace);
            && a + |r| <= |s| && r == s[a..a + |r|]
            && (forall i :: a + |r| <= i < |s| ==> IsSpace(s[i]))
    ensures r == [] || (!IsSpace(r[0]) && !IsSpace(r[|r| - 1]))
  {
    StripByTrailing(s, IsSpace);
    StripBy(s, IsSpace)
  }

  /** Stripping twice is stripping once. */
  lemma StripIdempotent(s: string)
    ensures Strip(Strip(s)) == Strip(s)
  {
    StripByUnchanged(Strip(s), IsSpace);
  }

  /** `s.startswith(prefix)`. */
  predicate StartsWith(s: string, prefix: string)
  {
    |prefix| <= |s| && s[..|prefix|] == prefix
  }

  /** `s.endswith(suffix)`. */
  predicate EndsWith(s: string, suffix: string)
  {
    |suffix| <= |s| && s[|s| - |suffix|..] == suffix
  }

  /** `str.lower()` on ASCII letters; other characters are kept. */
  function LowerChar(c: char): char
  {
    if 'A' <= c <= 'Z' then (c as int + 32) as char else c
  }

  function Lower(s: string): (r: string)
    ensures |r| == |s|
  {
    seq(|s|, i requires 0 <= i < |s| => LowerChar(s[i]))
  }
}
