/** The few `str` operations the broker's logic depends on: prefix tests
    (`starts_with`) and stripping a repeated character from both ends
    (`trim_matches`). */
module Strings {

  /** `str::starts_with`. */
  predicate StartsWith(s: string, prefix: string)
  {
    |prefix| <= |s| && s[..|prefix|] == prefix
  }

  /** Where the leading run of `c` in `s[i..]` ends. */
  function RunEnd(s: string, c: char, i: nat): (j: nat)
    requires i <= |s|
    ensures i <= j <= |s|
    ensures forall k :: i <= k < j ==> s[k] == c
    ensures j < |s| ==> s[j] != c
    decreases |s| - i
  {
    if i < |s| && s[i] == c then RunEnd(s, c, i + 1) else i
  }

  /** Where the trailing run of `c` in `s[i..j]` starts. */
  function RunStart(s: string, c: char, i: nat, j: nat): (k: nat)
    requires i <= j <= |s|
    ensures i <= k <= j
    ensures forall m :: k <= m < j ==> s[m] == c
    ensures k > i ==> s[k - 1] != c
    decreases j
  {
    if j > i && s[j - 1] == c then RunStart(s, c, i, j - 1) else j
  }

  /** `str::trim_matches(c)` for a single character: the longest infix of
      `s` that neither starts nor ends with `c`, everything cut off being
      `c`. */
  function TrimMatches(s: string, c: char): (r: string)
    ensures |r| <= |s|
    ensures |r| > 0 ==> r[0] != c && r[|r| - 1] != c
  {
    var i := RunEnd(s, c, 0);
    s[i..RunStart(s, c, i, |s|)]
  }

  /** `s` is `r` with runs of `c` on either side, `r` sitting at `s[i..j]`. */
  predicate PaddedAt(s: string, r: string, c: char, i: nat, j: nat)
  {
    i <= j <= |s| && s[i..j] == r &&
    (forall k :: 0 <= k < i ==> s[k] == c) &&
    (forall k :: j <= k < |s| ==> s[k] == c)
  }

  /** What `TrimMatches` cuts off: `s` is the result with runs of `c` on
      either side, and the result has no `c` at either end. */
  lemma TrimMatchesSplits(s: string, c: char)
    ensures exists i, j :: PaddedAt(s, TrimMatches(s, c), c, i, j)
    ensures var r := TrimMatches(s, c);
            |r| > 0 ==> r[0] != c && r[|r| - 1] != c
  {
    var i := RunEnd(s, c, 0);
    var j := RunStart(s, c, i, |s|);
    var r := TrimMatches(s, c);
    assert r == s[i..j];
    assert PaddedAt(s, r, c, i, j);
    if |r| > 0 {
      assert r[0] == s[i] && r[|r| - 1] == s[j - 1];
    }
  }

  /** Trimming twice trims nothing more. */
  lemma TrimMatchesIdempotent(s: string, c: char)
    ensures TrimMatches(TrimMatches(s, c), c) == TrimMatches(s, c)
  {
    var r := TrimMatches(s, c);
    TrimMatchesSplits(s, c);
    assert RunEnd(r, c, 0) == 0;
    assert RunStart(r, c, 0, |r|) == |r|;
    assert r[0..|r|] == r;
  }
}
