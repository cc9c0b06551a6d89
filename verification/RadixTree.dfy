/** The part of an immutable radix tree the resolver uses: a map with a longest-prefix search. */
module RadixTree {
  import opened Wrappers

  /** The longest key that is a prefix of `s`. */
  function LongestPrefix<V>(t: map<string, V>, s: string): (r: Option<string>)
    ensures r.Some? ==> r.value in t
  {
    if s in t then Some(s)
    else if s == "" then None
    else LongestPrefix(t, s[..|s| - 1])
  }

  lemma {:induction false} LongestPrefixMeans<V>(t: map<string, V>, s: string)
    ensures var r := LongestPrefix(t, s);
            && (r.None? ==> forall k :: IsPrefix(k, s) ==> k !in t)
            && (r.Some? ==> IsPrefix(r.value, s))
            && (r.Some? ==> forall k :: k in t && IsPrefix(k, s) ==> |k| <= |r.value|)
  {
    if s !in t && s != "" {
      LongestPrefixMeans(t, s[..|s| - 1]);
      ProperPrefixes(s);
    }
  }

  predicate IsPrefix(k: string, s: string) { k <= s }

  lemma {:induction false} ProperPrefixes(s: string)
    requires s != ""
    ensures forall k :: IsPrefix(k, s) && k != s ==> IsPrefix(k, s[..|s| - 1])
  {
    assert s[..|s|] == s;
    forall k | IsPrefix(k, s) && k != s ensures IsPrefix(k, s[..|s| - 1]) {
      assert s[..|s| - 1][..|k|] == s[..|k|];
    }
  }

  lemma {:induction false} LongestPrefixIs<V>(t: map<string, V>, s: string, k: string)
    requires k in t && IsPrefix(k, s) && forall p :: p in t && IsPrefix(p, s) ==> |p| <= |k|
    ensures LongestPrefix(t, s) == Some(k)
  {
    LongestPrefixMeans(t, s);
    var r := LongestPrefix(t, s);
    assert k == s[..|k|] && r.value == s[..|r.value|];
  }
}
