/** The two string operations the prompts apply to every line they read:
    `trim` (strip leading and trailing white space) and `to_lowercase`. */
module Text {

  /** The Unicode `White_Space` property, which is what Rust's `char::is_whitespace`
      (and therefore `str::trim`) tests. The set is finite and listed in full. */
  predicate IsWhitespace(c: char) {
    || ('\t' <= c <= '\r')
    || c == ' '
    || c == '\U{85}'
    || c == '\U{A0}'
    || c == '\U{1680}'
    || ('\U{2000}' <= c <= '\U{200A}')
    || c == '\U{2028}'
    || c == '\U{2029}'
    || c == '\U{202F}'
    || c == '\U{205F}'
    || c == '\U{3000}'
  }

  predicate AllWhitespace(s: string) {
    forall k :: 0 <= k < |s| ==> IsWhitespace(s[k])
  }

  /** A string with no white space at either end (the empty string included). */
  predicate Trimmed(s: string) {
    s == [] || (!IsWhitespace(s[0]) && !IsWhitespace(s[|s| - 1]))
  }

  /** `str::trim_start`: drops white space from the front. */
  function TrimStart(s: string): string {
    if |s| > 0 && IsWhitespace(s[0]) then TrimStart(s[1..]) else s
  }

  /** `str::trim_end`: drops white space from the back. */
  function TrimEnd(s: string): string {
    if |s| > 0 && IsWhitespace(s[|s| - 1]) then TrimEnd(s[..|s| - 1]) else s
  }

  /** `trim_start` keeps the longest suffix of `s` that does not begin with white space. */
  lemma {:induction false} TrimStartSpec(s: string)
    ensures |TrimStart(s)| <= |s| && TrimStart(s) == s[|s| - |TrimStart(s)|..]
    ensures AllWhitespace(s[..|s| - |TrimStart(s)|])
    ensures TrimStart(s) == [] || !IsWhitespace(TrimStart(s)[0])
  {
    if |s| > 0 && IsWhitespace(s[0]) {
      TrimStartSpec(s[1..]);
      var n := |s| - |TrimStart(s)|;
      assert forall k :: 1 <= k < n ==> s[..n][k] == s[1..][..n - 1][k - 1];
    }
  }

  /** `trim_end` keeps the longest prefix of `s` that does not end with white space. */
  lemma {:induction false} TrimEndSpec(s: string)
    ensures |TrimEnd(s)| <= |s| && TrimEnd(s) == s[..|TrimEnd(s)|]
    ensures AllWhitespace(s[|TrimEnd(s)|..])
    ensures TrimEnd(s) == [] || !IsWhitespace(TrimEnd(s)[|TrimEnd(s)| - 1])
  {
    if |s| > 0 && IsWhitespace(s[|s| - 1]) {
      TrimEndSpec(s[..|s| - 1]);
      var n := |TrimEnd(s)|;
      assert s[n..] == s[..|s| - 1][n..] + [s[|s| - 1]];
    }
  }

  /** `str::trim`: `s` without its white-space margins. */
  function Trim(s: string): string {
    TrimEnd(TrimStart(s))
  }

  /** The trim of `s` is a contiguous slice of `s`, everything cut away is white
      space, and the slice itself has no white space at either end. */
  lemma TrimSpec(s: string)
    ensures Trimmed(Trim(s))
    ensures exists lo, hi :: 0 <= lo <= hi <= |s| && Trim(s) == s[lo..hi]
                             && AllWhitespace(s[..lo]) && AllWhitespace(s[hi..])
  {
    var t := TrimStart(s);
    var r := TrimEnd(t);
    TrimStartSpec(s);
    TrimEndSpec(t);
    var lo := |s| - |t|;
    var hi := lo + |r|;
    assert t == s[lo..];
    assert r == t[..|r|];
    assert r == s[lo..hi];
    assert AllWhitespace(s[..lo]);
    assert s[hi..] == t[|r|..];
    assert AllWhitespace(s[hi..]);
    assert r != [] ==> r[0] == t[0];
  }

  /** Trimming is idempotent: a string without white-space margins is its own trim. */
  lemma TrimOfTrimmed(s: string)
    requires Trimmed(s)
    ensures Trim(s) == s
  {
  }

  /** Trimming discards a trailing white-space character appended to a trimmed
      string, as it does with the line terminator a command prints. */
  lemma TrimDropsTerminator(s: string, c: char)
    requires Trimmed(s)
    requires IsWhitespace(c)
    ensures Trim(s + [c]) == s
  {
    var u := s + [c];
    if s == [] {
      assert u == [c] && u[1..] == [];
      assert TrimStart(u) == TrimStart([]) == [];
    } else {
      assert u[0] == s[0];
      assert TrimStart(u) == u;
      assert u[|u| - 1] == c;
      assert u[..|u| - 1] == s;
      assert TrimEnd(u) == TrimEnd(s);
      assert s[|s| - 1] == u[|s| - 1];
      assert TrimEnd(s) == s;
    }
  }

  /** `char::to_lowercase` on ASCII: upper-case letters move to lower case,
      every other character is kept. */
  function LowerChar(c: char): char {
    if 'A' <= c <= 'Z' then (c as int - 'A' as int + 'a' as int) as char else c
  }

  /** `str::to_lowercase`, character by character (ASCII mapping). */
  function ToLower(s: string): (r: string)
    ensures |r| == |s|
    ensures forall k :: 0 <= k < |s| ==> r[k] == LowerChar(s[k])
  {
    if s == [] then [] else [LowerChar(s[0])] + ToLower(s[1..])
  }

  /** Exactly two strings lower-case to "y": "y" itself and "Y". */
  lemma LowerIsY(s: string)
    ensures ToLower(s) == "y" <==> s == "y" || s == "Y"
  {
  }
}
