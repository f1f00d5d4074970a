/** The two `String.prototype` operations the embed rewrite relies on:
    `includes` and `replace` with a string pattern, which replaces the FIRST
    occurrence only. */
module Strings {
  import opened Optional

  /** `pat` occurs in `s` starting at index `i`. */
  predicate OccursAt(s: string, pat: string, i: int)
  {
    0 <= i && i + |pat| <= |s| && s[i..i + |pat|] == pat
  }

  /** The first occurrence of `pat` in `s` at or after `from`. */
  function IndexFrom(s: string, pat: string, from: nat): (r: Option<nat>)
    ensures r.Some? ==> from <= r.value && OccursAt(s, pat, r.value)
    ensures r.Some? ==> forall j :: from <= j < r.value ==> !OccursAt(s, pat, j)
    ensures r.None? ==> forall j :: from <= j ==> !OccursAt(s, pat, j)
    decreases |s| - from
  {
    if |s| < from + |pat| then None
    else if s[from..from + |pat|] == pat then Some(from)
    else IndexFrom(s, pat, from + 1)
  }

  /** `s.indexOf(pat)`, with `None` for -1. */
  function IndexOf(s: string, pat: string): (r: Option<nat>)
    ensures r.Some? ==> OccursAt(s, pat, r.value)
    ensures r.Some? ==> forall j :: 0 <= j < r.value ==> !OccursAt(s, pat, j)
    ensures r.None? ==> forall j :: !OccursAt(s, pat, j)
  {
    IndexFrom(s, pat, 0)
  }

  /** `s.includes(pat)`. */
  function Contains(s: string, pat: string): (b: bool)
    ensures b <==> exists j :: OccursAt(s, pat, j)
  {
    var r := IndexOf(s, pat);
    assert r.Some? ==> OccursAt(s, pat, r.value);
    r.Some?
  }

  /** `s.replace(pat, rep)`: only the first occurrence is replaced, and a
      string without `pat` comes back unchanged. */
  function ReplaceFirst(s: string, pat: string, rep: string): (r: string)
    ensures IndexOf(s, pat).None? ==> r == s
    ensures IndexOf(s, pat).Some? ==>
              var i := IndexOf(s, pat).value;
              && |r| == |s| - |pat| + |rep|
              && r[..i] == s[..i]
              && OccursAt(r, rep, i)
              && r[i + |rep|..] == s[i + |pat|..]
  {
    match IndexOf(s, pat)
    case None => s
    case Some(i) => s[..i] + rep + s[i + |pat|..]
  }

  /** Two strings with the same occurrences of `pat` have the same first one. */
  lemma IndexOfByOccurrences(a: string, b: string, pat: string)
    requires forall j :: OccursAt(a, pat, j) <==> OccursAt(b, pat, j)
    ensures IndexOf(a, pat) == IndexOf(b, pat)
  {
  }

  /** Replacing a pattern by one of the same length that differs only in its
      last character writes that one character and nothing else. */
  lemma ReplaceLastChar(s: string, pat: string, rep: string)
    requires |pat| == |rep| && 0 < |pat|
    requires pat[..|pat| - 1] == rep[..|rep| - 1]
    requires IndexOf(s, pat).Some?
    ensures var i := IndexOf(s, pat).value;
            ReplaceFirst(s, pat, rep) == s[i + |pat| - 1 := rep[|rep| - 1]]
  {
    var i := IndexOf(s, pat).value;
    var r := ReplaceFirst(s, pat, rep);
    var t := s[i + |pat| - 1 := rep[|rep| - 1]];
    assert |r| == |t|;
    forall k | 0 <= k < |r|
      ensures r[k] == t[k]
    {
      if k < i {
        assert r[k] == r[..i][k];
      } else if k < i + |pat| {
        assert r[k] == rep[k - i];
        assert s[i..i + |pat|] == pat;
        if k < i + |pat| - 1 {
          assert s[k] == pat[k - i];
          assert pat[..|pat| - 1][k - i] == rep[..|rep| - 1][k - i];
        }
      } else {
        assert r[k] == r[i + |rep|..][k - i - |rep|];
      }
    }
  }

  /** Changing one character that is not in `q` into another that is not in
      `q` neither creates nor destroys an occurrence of `q`. */
  lemma SwapKeepsOccurrences(s: string, k: int, c: char, q: string, j: int)
    requires 0 <= k < |s|
    requires s[k] !in q && c !in q
    ensures OccursAt(s[k := c], q, j) <==> OccursAt(s, q, j)
  {
  }

  /** Appending `t` neither creates nor destroys an occurrence of `q` inside
      `s` when `q` cannot straddle the seam (`t` starts with a character
      foreign to `q`) and cannot lie inside `t` (`q` starts with a character
      foreign to `t`). */
  lemma AppendKeepsOccurrences(s: string, t: string, q: string, j: int)
    requires 0 < |q| && 0 < |t|
    requires t[0] !in q && q[0] !in t
    ensures OccursAt(s + t, q, j) <==> OccursAt(s, q, j)
  {
    var u := s + t;
    assert u[|s|] == t[0];
    assert forall k :: |s| <= k < |u| ==> u[k] == t[k - |s|];
    if OccursAt(u, q, j) {
      assert forall k :: j <= k < j + |q| ==> u[k] == u[j..j + |q|][k - j];
      assert u[j..j + |q|] == s[j..j + |q|];
    }
    if OccursAt(s, q, j) {
      assert u[j..j + |q|] == s[j..j + |q|];
    }
  }
}
