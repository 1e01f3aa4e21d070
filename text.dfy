/**
 * The two string operations the prediction pipeline relies on, as ECMAScript
 * defines them: `String.prototype.trim` and `String.prototype.slice(0, n)`.
 */
module Text {

  /**
   * The code points `trim` removes: ECMAScript's WhiteSpace (tab, vertical tab,
   * form feed, the byte order mark and every Unicode space separator) and its
   * LineTerminator (line feed, carriage return, line and paragraph separators).
   */
  predicate IsWhitespace(c: char)
  {
    var n := c as int;
    || n == 0x09 || n == 0x0A || n == 0x0B || n == 0x0C || n == 0x0D
    || n == 0x20 || n == 0xA0 || n == 0x1680 || 0x2000 <= n <= 0x200A
    || n == 0x2028 || n == 0x2029 || n == 0x202F || n == 0x205F
    || n == 0x3000 || n == 0xFEFF
  }

  /** Every character of `s` at an index in `[i, j)` is whitespace. */
  predicate WhitespaceBetween(s: string, i: nat, j: nat)
    requires i <= j <= |s|
  {
    forall m | i <= m < j :: IsWhitespace(s[m])
  }

  predicate AllWhitespace(s: string)
  {
    WhitespaceBetween(s, 0, |s|)
  }

  function Min(a: int, b: int): int
  {
    if a <= b then a else b
  }

  /** The index of the first non-whitespace character of `s` at or after `i` (or `|s|`). */
  function SkipForward(s: string, i: nat): (k: nat)
    requires i <= |s|
    ensures i <= k <= |s|
    ensures WhitespaceBetween(s, i, k)
    ensures k < |s| ==> !IsWhitespace(s[k])
    decreases |s| - i
  {
    if i == |s| || !IsWhitespace(s[i]) then i else SkipForward(s, i + 1)
  }

  /**
   * The index just after the last non-whitespace character of `s` before `j`,
   * looking no further back than `lo` (where it stops).
   */
  function SkipBackward(s: string, lo: nat, j: nat): (k: nat)
    requires lo <= j <= |s|
    ensures lo <= k <= j
    ensures WhitespaceBetween(s, k, j)
    ensures k > lo ==> !IsWhitespace(s[k - 1])
    decreases j - lo
  {
    if j == lo || !IsWhitespace(s[j - 1]) then j else SkipBackward(s, lo, j - 1)
  }

  /** Where the trimmed text starts in `s`. */
  function TrimStart(s: string): (a: nat)
    ensures a <= |s|
  {
    SkipForward(s, 0)
  }

  /**
   * `s.trim()`: `s` without its leading and trailing whitespace. The result is
   * the slice of `s` that starts after its leading whitespace and is followed
   * only by whitespace; it is empty exactly when `s` is all whitespace, and
   * otherwise it neither starts nor ends with whitespace.
   */
  function Trim(s: string): (r: string)
    ensures TrimStart(s) + |r| <= |s|
    ensures r == s[TrimStart(s)..TrimStart(s) + |r|]
    ensures WhitespaceBetween(s, 0, TrimStart(s))
    ensures WhitespaceBetween(s, TrimStart(s) + |r|, |s|)
    ensures r == [] <==> AllWhitespace(s)
    ensures r != [] ==> !IsWhitespace(r[0]) && !IsWhitespace(r[|r| - 1])
  {
    var a := SkipForward(s, 0);
    var b := SkipBackward(s, a, |s|);
    // A non-whitespace character at `a` keeps `b` beyond it.
    assert a < |s| ==> !IsWhitespace(s[a]) && a < b;
    s[a..b]
  }

  /** Trimming a trimmed string changes nothing. */
  lemma TrimIdempotent(s: string)
    ensures Trim(Trim(s)) == Trim(s)
  {
    var r := Trim(s);
    if r != [] {
      assert SkipForward(r, 0) == 0;
      assert SkipBackward(r, 0, |r|) == |r|;
    }
  }

  /**
   * `s.slice(0, n)`: the longest prefix of `s` that has at most `n`
   * characters.
   */
  function Prefix(s: string, n: nat): (r: string)
    ensures r <= s
    ensures |r| == Min(|s|, n)
  {
    if |s| <= n then s else s[..n]
  }
}
