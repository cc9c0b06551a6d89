/**
 Section 3.3.1 of RFC 4592 read off the label tree, with no reversed strings, no dots
 and no radix tree: which configured name answers a query for a name of the zone.
 Names are relative to the apex, leaf label first; the apex is the empty sequence.
 */
module LabelTree {
  import opened Names

  datatype Match =
    | Exact(name: Labels)
    | Wildcard(name: Labels)
    | EmptyNonTerminal
    | ClosestEncloserOnly(name: Labels)
    | NoMatch

  /** A node of the tree: the apex, a configured name, or an ancestor of one. */
  ghost predicate Exists(configured: set<Labels>, n: Labels) {
    n == [] || exists m :: m in configured && IsSuffix(n, m)
  }

  ghost function ClosestEncloser(configured: set<Labels>, n: Labels): (ce: Labels) {
    if Exists(configured, n) then n else ClosestEncloser(configured, n[1..])
  }

  /** It is the longest existing ancestor, or the name itself. */
  lemma {:induction false} ClosestEncloserMeans(configured: set<Labels>, n: Labels)
    ensures var ce := ClosestEncloser(configured, n);
            && IsSuffix(ce, n) && Exists(configured, ce)
            && forall a :: IsSuffix(a, n) && Exists(configured, a) ==> |a| <= |ce|
  {
    if !Exists(configured, n) {
      ClosestEncloserMeans(configured, n[1..]);
      ProperSuffixes(n);
    }
  }

  /** The source of synthesis, `*.<closest encloser>`. */
  ghost function SourceOfSynthesis(configured: set<Labels>, n: Labels): (source: Labels) {
    ["*"] + ClosestEncloser(configured, n)
  }

  ghost function Lookup(configured: set<Labels>, n: Labels): (r: Match) {
    if n in configured then Exact(n)
    else if Exists(configured, n) then EmptyNonTerminal
    else
      var ce := ClosestEncloser(configured, n);
      if ["*"] + ce in configured then Wildcard(["*"] + ce)
      else if ce in configured then ClosestEncloserOnly(ce)
      else NoMatch
  }

  /** Everything strictly between a missing name and its closest encloser is missing and expands alike. */
  lemma {:induction false} BetweenNameAndEncloser(configured: set<Labels>, n: Labels, a: Labels)
    requires IsSuffix(a, n) && |ClosestEncloser(configured, n)| < |a|
    ensures !Exists(configured, a)
    ensures ClosestEncloser(configured, a) == ClosestEncloser(configured, n)
    ensures Lookup(configured, a) == Lookup(configured, n)
  {
    assert |a| <= |n|;
    hide Exists, ClosestEncloser, IsSuffix;
    var ce, ca := ClosestEncloser(configured, n), ClosestEncloser(configured, a);
    ClosestEncloserMeans(configured, n);
    ClosestEncloserMeans(configured, a);
    SuffixTransitive(ca, a, n);
    SuffixesNested(ce, a, n);
    SameLengthSuffixes(ca, ce, n);
    ConfiguredExists(configured, a);
    WholeIsSuffix(n);
    ConfiguredExists(configured, n);
  }

  lemma {:induction false} WholeIsSuffix(n: Labels)
    ensures IsSuffix(n, n)
  {
  }

  lemma {:induction false} SameLengthSuffixes(a: Labels, b: Labels, n: Labels)
    requires IsSuffix(a, n) && IsSuffix(b, n)
    ensures |a| == |b| ==> a == b
  {
  }

  lemma {:induction false} ConfiguredExists(configured: set<Labels>, n: Labels)
    ensures n in configured ==> Exists(configured, n)
  {
    WholeIsSuffix(n);
  }
}
