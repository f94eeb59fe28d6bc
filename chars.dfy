/**
 The character classes that the reply parser's regular expressions and the
 list cleaner's `str.strip` calls rely on, as Python defines them for `str`
 patterns compiled with `re.IGNORECASE`.
 */
module Chars {

  /** Python's `str.isspace()`: the set `\s` matches in a `str` pattern and
      the set a bare `str.strip()` removes. */
  predicate IsSpace(c: char) {
    var n := c as int;
    (0x09 <= n <= 0x0D) || (0x1C <= n <= 0x20) || n == 0x85 || n == 0xA0
    || n == 0x1680 || (0x2000 <= n <= 0x200A) || n == 0x2028 || n == 0x2029
    || n == 0x202F || n == 0x205F || n == 0x3000
  }

  /** The digits `\d` is modelled to match (ASCII only). */
  predicate IsDigit(c: char) {
    '0' <= c <= '9'
  }

  /** Numeric value of an ASCII digit. */
  function DigitValue(c: char): (d: nat)
    requires IsDigit(c)
    ensures d < 10
  {
    c as int - '0' as int
  }

  /** The separator class `[:\-]` of the score patterns. */
  predicate IsSep(c: char) {
    c == ':' || c == '-'
  }

  /** Whether text character `c` matches pattern character `p` under
      `re.IGNORECASE`; pattern letters are written in lower case.  Besides the
      ASCII upper-case letter, Python's matcher also folds the dotted and
      dotless capital/small I onto `i`, the long s onto `s` and the Kelvin
      sign onto `k`. */
  predicate FoldEq(c: char, p: char) {
    c == p
    || ('a' <= p <= 'z' && c as int + 32 == p as int)
    || (p == 'i' && (c == '\U{0130}' || c == '\U{0131}'))
    || (p == 's' && c == '\U{017F}')
    || (p == 'k' && c == '\U{212A}')
  }

  /** Case-insensitive occurrence of the pattern literal `w` at position `i` of `s`. */
  predicate LitAt(s: string, i: nat, w: string) {
    i + |w| <= |s| && forall k :: 0 <= k < |w| ==> FoldEq(s[i + k], w[k])
  }

  /** The characters the score patterns spell their literals with (letters
      written in lower case). */
  predicate PatternChar(p: char) {
    ('a' <= p <= 'z') || p == '&' || p == '/' || p == '%'
  }

  /** A text character matches at most one pattern character. */
  lemma FoldEqUnique(c: char, p: char, q: char)
    requires PatternChar(p) && PatternChar(q)
    requires FoldEq(c, p) && FoldEq(c, q)
    ensures p == q
  {
  }

  /** A character that matches a pattern literal is neither a space, a digit
      nor a separator, so greedy `\s*`, `[:\-]?` and `\d{1,3}` never have to
      give anything back to a literal that follows them. */
  lemma PatternCharIsPlain(c: char, p: char)
    requires PatternChar(p) && FoldEq(c, p)
    ensures !IsSpace(c) && !IsDigit(c) && !IsSep(c)
  {
  }

  predicate AllDigits(d: string) {
    forall k :: 0 <= k < |d| ==> IsDigit(d[k])
  }
}
