/** Where one piece of text occurs inside another. */
module Text {
  /** `x` occurs in `s`: it is a prefix of some suffix of `s`. */
  predicate Contains(s: string, x: string) {
    exists i :: 0 <= i <= |s| && x <= s[i..]
  }

  predicate StartsWith(s: string, x: string) {
    x <= s
  }

  predicate EndsWith(s: string, x: string) {
    |x| <= |s| && s[|s| - |x|..] == x
  }

  lemma ContainsSelf(x: string)
    ensures Contains(x, x)
  {
    assert x[0..] == x;
  }

  /** Text on the left of a concatenation occurs in it. */
  lemma ContainsLeft(s: string, t: string, x: string)
    requires Contains(s, x)
    ensures Contains(s + t, x)
  {
    var i :| 0 <= i <= |s| && x <= s[i..];
    assert (s + t)[i..] == s[i..] + t;
  }

  /** Text on the right of a concatenation occurs in it. */
  lemma ContainsRight(s: string, t: string, x: string)
    requires Contains(t, x)
    ensures Contains(s + t, x)
  {
    var i :| 0 <= i <= |t| && x <= t[i..];
    assert (s + t)[|s| + i..] == t[i..];
  }

  /** Occurring in is transitive. */
  lemma ContainsTrans(s: string, x: string, y: string)
    requires Contains(s, x) && Contains(x, y)
    ensures Contains(s, y)
  {
    var i :| 0 <= i <= |s| && x <= s[i..];
    var j :| 0 <= j <= |x| && y <= x[j..];
    assert s[i..][j..] == s[i + j..];
    assert y <= s[i + j..] by {
      forall k | 0 <= k < |y|
        ensures y[k] == s[i + j..][k]
      {
        assert y[k] == x[j + k] == s[i..][j + k];
      }
    }
  }

  /** A prefix of the left operand is a prefix of the concatenation. */
  lemma StartsWithLeft(s: string, t: string, x: string)
    requires StartsWith(s, x)
    ensures StartsWith(s + t, x)
  {
  }

  /** A suffix of the right operand is a suffix of the concatenation. */
  lemma EndsWithRight(s: string, t: string, x: string)
    requires EndsWith(t, x)
    ensures EndsWith(s + t, x)
  {
    assert (s + t)[|s + t| - |x|..] == t[|t| - |x|..];
  }
}
