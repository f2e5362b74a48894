/** Substring search over byte strings, with the meaning of `std::string::find`. */
module Search {
  import opened Wrappers
  import opened Utf8

  /** `pat` occurs in `s` starting at index `k`. */
  predicate MatchAt(s: seq<byte>, pat: seq<byte>, k: nat) {
    k + |pat| <= |s| && s[k..k + |pat|] == pat
  }

  /** `pat` occurs somewhere in `s`. */
  ghost predicate Contains(s: seq<byte>, pat: seq<byte>) {
    exists k: nat :: MatchAt(s, pat, k)
  }

  /** `s.find(pat, from)`: the first index at or after `from` where `pat`
    * occurs, or None for `npos`. */
  function Find(s: seq<byte>, pat: seq<byte>, from: nat): (r: Option<nat>)
    ensures r.Some? ==> from <= r.value && MatchAt(s, pat, r.value)
    ensures r.Some? ==> forall k: nat :: from <= k < r.value ==> !MatchAt(s, pat, k)
    ensures r.None? ==> forall k: nat :: from <= k ==> !MatchAt(s, pat, k)
    decreases |s| - from
  {
    if from + |pat| > |s| then None
    else if s[from..from + |pat|] == pat then Some(from)
    else Find(s, pat, from + 1)
  }

  /** A search from the start succeeds exactly when the pattern occurs. */
  lemma FindFromStart(s: seq<byte>, pat: seq<byte>)
    ensures Find(s, pat, 0).Some? <==> Contains(s, pat)
  {
    if Find(s, pat, 0).Some? {
      assert MatchAt(s, pat, Find(s, pat, 0).value);
    }
  }

  /** Every string contains itself. */
  lemma ContainsSelf(s: seq<byte>)
    ensures Contains(s, s)
  {
    assert MatchAt(s, s, 0);
  }

  /** An occurrence inside a part is an occurrence in the whole. */
  lemma ContainsInContext(a: seq<byte>, s: seq<byte>, b: seq<byte>, pat: seq<byte>)
    requires Contains(s, pat)
    ensures Contains(a + s + b, pat)
  {
    var k: nat :| MatchAt(s, pat, k);
    assert (a + s + b)[|a| + k..|a| + k + |pat|] == s[k..k + |pat|];
    assert MatchAt(a + s + b, pat, |a| + k);
  }
}
