/**
 internal/types/zone.go and the zone lookup of internal/storage/data_handler.go: the
 reversed-name radix trees and the searches over them.
 */
module ZoneIndex {
  import opened Wrappers
  import opened Names
  import opened RadixTree
  import LabelTree

  datatype MatchCode = ExactMatch | WildCardMatch | EmptyNonterminalMatch | CEMatch | NoMatch

  /** The fields of `Zone` the location search reads. A `None` value is Go's nil. */
  datatype Index = Index(name: string, tree: map<string, Option<string>>, locations: seq<string>)

  /** zone.go:110. */
  function FindLocation(z: Index, query: string): (r: (string, MatchCode)) {
    if query == z.name then ("@", ExactMatch)
    else FindRelative(z.tree, TrimSuffix(query, "." + z.name))
  }

  /** zone.go:118-155, the search for a name below the apex. */
  function FindRelative(tree: map<string, Option<string>>, rel: string): (r: (string, MatchCode)) {
    var rquery := ReversedName(rel);
    match LongestPrefix(tree, rquery)
    case None =>
      if "*." in tree && tree["*."].Some? then ("*", WildCardMatch) else ("", NoMatch)
    case Some(prefix) =>
      var star := prefix + "*.";
      match tree[prefix]
      case Some(ce) =>
        if prefix == rquery then (rel, ExactMatch)
        else if star in tree && tree[star].Some? then (tree[star].value, WildCardMatch)
        else (ce, CEMatch)
      case None =>
        if prefix == rquery then ("", EmptyNonterminalMatch)
        else if star in tree && tree[star].Some? then (tree[star].value, WildCardMatch)
        else ("", NoMatch)
  }

  // ----- What NewZone builds -----

  /** `d`, a name with a dot in front, is one of the locations or an ancestor of one. */
  ghost predicate HasNode(locations: seq<string>, d: string) {
    d != "" && d[0] == '.' && exists i :: 0 <= i < |locations| && IsSuffix(d, "." + locations[i])
  }

  ghost predicate KeysAreNodes(keys: set<string>, locations: seq<string>) {
    forall k {:trigger HasNode(locations, Reversed(k))} :: k in keys <==> HasNode(locations, Reversed(k))
  }

  ghost predicate ValuesAreLocations(tree: map<string, Option<string>>, locations: seq<string>) {
    && (forall k {:trigger ReversedName(tree[k].value)} ::
          k in tree && tree[k].Some? ==> tree[k].value in locations && k == ReversedName(tree[k].value))
    && (forall i :: 0 <= i < |locations| ==>
          ReversedName(locations[i]) in tree && tree[ReversedName(locations[i])] == Some(locations[i]))
  }

  /** The keys are the reversed nodes; a node carries a value exactly when it is itself a location. */
  ghost predicate IsTreeOf(tree: map<string, Option<string>>, locations: seq<string>) {
    KeysAreNodes(tree.Keys, locations) && ValuesAreLocations(tree, locations)
  }

  /** The prefixes of `s` that end in one of its first `upTo` characters, a dot. */
  ghost function DotPrefixes(s: string, upTo: nat): (r: set<string>)
    requires upTo <= |s|
  {
    set i | 0 <= i < upTo && s[i] == '.' :: s[..i + 1]
  }

  ghost predicate HasDotPrefix(rvalues: seq<string>, n: nat, k: string)
    requires n <= |rvalues|
  {
    exists r :: 0 <= r < n && k in DotPrefixes(rvalues[r], |rvalues[r]|)
  }

  /** zone.go:74, the tree. */
  method NewZone(zone: string, locations: seq<string>) returns (z: Index)
    ensures z.name == zone && z.locations == locations
    ensures IsTreeOf(z.tree, locations)
  {
    var rvalues: seq<string> := [];
    for n := 0 to |locations|
      invariant |rvalues| == n && forall r :: 0 <= r < n ==> rvalues[r] == ReversedName(locations[r])
    {
      var rvalue := ReverseName(locations[n]);
      rvalues := rvalues + [rvalue];
    }
    var nodes := InsertNodes(rvalues);
    ReversedLocationsAreKeys(rvalues, locations);
    var tree := InsertValues(nodes, rvalues, locations);
    DotPrefixesAreNodes(tree.Keys, rvalues, locations);
    InsertionsMakeTree(tree, rvalues, locations);
    z := Index(zone, tree, locations);
  }

  /** zone.go:82-90. */
  method InsertNodes(rvalues: seq<string>) returns (tree: map<string, Option<string>>)
    ensures forall k :: k in tree ==> tree[k].None?
    ensures forall k :: k in tree <==> HasDotPrefix(rvalues, |rvalues|, k)
  {
    tree := map[];
    for n := 0 to |rvalues|
      invariant forall k :: k in tree ==> tree[k].None?
      invariant forall k :: k in tree <==> HasDotPrefix(rvalues, n, k)
    {
      var rvalue := rvalues[n];
      ghost var before := tree.Keys;
      for i := 0 to |rvalue|
        invariant forall k :: k in tree ==> tree[k].None?
        invariant tree.Keys == before + DotPrefixes(rvalue, i)
      {
        if rvalue[i] == '.' {
          if rvalue[..i + 1] !in tree {
            tree := tree[rvalue[..i + 1] := None];
          }
        }
        assert DotPrefixes(rvalue, i + 1) ==
               DotPrefixes(rvalue, i) + if rvalue[i] == '.' then {rvalue[..i + 1]} else {};
      }
      assert forall k :: HasDotPrefix(rvalues, n + 1, k) <==>
               HasDotPrefix(rvalues, n, k) || k in DotPrefixes(rvalue, |rvalue|);
    }
  }

  /** zone.go:91-93. The reversed names are already keys: each ends in a dot. */
  method InsertValues(nodes: map<string, Option<string>>, rvalues: seq<string>, locations: seq<string>)
    returns (tree: map<string, Option<string>>)
    requires |rvalues| == |locations|
    requires forall k :: k in nodes ==> nodes[k].None?
    requires forall r :: 0 <= r < |rvalues| ==> rvalues[r] in nodes
    requires forall q, r :: 0 <= q < r < |rvalues| && rvalues[q] == rvalues[r] ==> locations[q] == locations[r]
    ensures tree.Keys == nodes.Keys
    ensures forall k :: k in tree && tree[k].Some? ==>
              exists r :: 0 <= r < |rvalues| && k == rvalues[r] && tree[k].value == locations[r]
    ensures forall r :: 0 <= r < |rvalues| ==> tree[rvalues[r]] == Some(locations[r])
  {
    tree := nodes;
    for n := 0 to |rvalues|
      invariant tree.Keys == nodes.Keys
      invariant forall k :: k in tree && tree[k].Some? ==>
                  exists r :: 0 <= r < n && k == rvalues[r] && tree[k].value == locations[r]
      invariant forall r :: 0 <= r < n ==> tree[rvalues[r]] == Some(locations[r])
    {
      tree := tree[rvalues[n] := Some(locations[n])];
    }
  }

  lemma {:induction false} DotPrefixIffSuffix(k: string, l: string)
    ensures k in DotPrefixes(ReversedName(l), |ReversedName(l)|) <==>
              Reversed(k) != "" && Reversed(k)[0] == '.' && IsSuffix(Reversed(k), "." + l)
  {
    hide DotPrefixes, Reversed;
    DotPrefixIff(k, ReversedName(l));
    ReversedTwice(k);
    ReversedPrefix(Reversed(k), "." + l);
    FirstOfReversed(k);
  }

  lemma {:induction false} FirstOfReversed(k: string)
    ensures |Reversed(k)| == |k| && (k != "" ==> Reversed(k)[0] == k[|k| - 1])
  {
  }

  lemma {:induction false} DotPrefixIff(k: string, s: string)
    ensures k in DotPrefixes(s, |s|) <==> k != "" && k[|k| - 1] == '.' && k <= s
  {
    if k in DotPrefixes(s, |s|) {
      var i :| 0 <= i < |s| && s[i] == '.' && k == s[..i + 1];
    }
    if k != "" && k[|k| - 1] == '.' && k <= s {
      assert k == s[..|k| - 1 + 1];
    }
  }

  lemma {:induction false} ReversedLocationsAreKeys(rvalues: seq<string>, locations: seq<string>)
    requires |rvalues| == |locations| && forall r :: 0 <= r < |rvalues| ==> rvalues[r] == ReversedName(locations[r])
    ensures forall r :: 0 <= r < |rvalues| ==> HasDotPrefix(rvalues, |rvalues|, rvalues[r])
    ensures forall q, r :: 0 <= q < r < |rvalues| && rvalues[q] == rvalues[r] ==> locations[q] == locations[r]
  {
    forall r | 0 <= r < |rvalues| ensures HasDotPrefix(rvalues, |rvalues|, rvalues[r]) {
      WholeNameIsDotPrefix(locations[r]);
    }
    forall q, r | 0 <= q < r < |rvalues| && rvalues[q] == rvalues[r] ensures locations[q] == locations[r] {
      ReversedNameInjective(locations[q], locations[r]);
    }
  }

  lemma {:induction false} WholeNameIsDotPrefix(l: string)
    ensures ReversedName(l) in DotPrefixes(ReversedName(l), |l| + 1)
  {
    var rvalue := ReversedName(l);
    assert rvalue[..|l| + 1] == rvalue && rvalue[|l|] == '.';
  }

  lemma {:induction false} DotPrefixesAreNodes(keys: set<string>, rvalues: seq<string>, locations: seq<string>)
    requires |rvalues| == |locations| && forall r :: 0 <= r < |rvalues| ==> rvalues[r] == ReversedName(locations[r])
    requires forall k :: k in keys <==> HasDotPrefix(rvalues, |rvalues|, k)
    ensures KeysAreNodes(keys, locations)
  {
    hide DotPrefixes, Reversed, IsSuffix, ReversedName;
    forall k ensures HasDotPrefix(rvalues, |rvalues|, k) <==> HasNode(locations, Reversed(k)) {
      forall r | 0 <= r < |locations| {
        DotPrefixIffSuffix(k, locations[r]);
      }
    }
  }

  lemma {:induction false} InsertionsMakeTree(tree: map<string, Option<string>>, rvalues: seq<string>, locations: seq<string>)
    requires |rvalues| == |locations| && forall r :: 0 <= r < |rvalues| ==> rvalues[r] == ReversedName(locations[r])
    requires forall k :: k in tree && tree[k].Some? ==>
               exists r :: 0 <= r < |rvalues| && k == rvalues[r] && tree[k].value == locations[r]
    requires forall r :: 0 <= r < |rvalues| ==> rvalues[r] in tree && tree[rvalues[r]] == Some(locations[r])
    ensures ValuesAreLocations(tree, locations)
  {
    forall k | k in tree && tree[k].Some?
      ensures tree[k].value in locations && k == ReversedName(tree[k].value)
    {
      var r :| 0 <= r < |rvalues| && k == rvalues[r] && tree[k].value == locations[r];
    }
  }

  // ----- The search agrees with the label tree -----

  ghost function Configured(locations: seq<string>): (r: set<Labels>) {
    set i | 0 <= i < |locations| :: LabelsOf(locations[i])
  }

  function Key(n: Labels): (s: string) { Reversed(Dotted(n)) }

  lemma {:induction false} KeyOfName(s: string)
    ensures Key(LabelsOf(s)) == ReversedName(s)
  {
    DottedLabelsOf(s);
  }

  /** The node of a label sequence is a key exactly when the label tree has it. */
  lemma {:induction false} KeyIffExists(tree: map<string, Option<string>>, locations: seq<string>, n: Labels)
    requires IsTreeOf(tree, locations) && WellFormed(n) && n != []
    ensures Key(n) in tree <==> LabelTree.Exists(Configured(locations), n)
  {
    ReversedTwice(Dotted(n));
    forall i | 0 <= i < |locations|
      ensures IsSuffix(n, LabelsOf(locations[i])) <==> IsSuffix(Dotted(n), "." + locations[i])
    {
      LabelSuffixIffDotted(n, LabelsOf(locations[i]));
      DottedLabelsOf(locations[i]);
    }
    var conf := Configured(locations);
    if HasNode(locations, Dotted(n)) {
      var i :| 0 <= i < |locations| && IsSuffix(Dotted(n), "." + locations[i]);
      assert LabelsOf(locations[i]) in conf;
    }
  }

  /** Its value is the configured name itself, and nil at an empty non-terminal. */
  lemma {:induction false} ValueIffConfigured(tree: map<string, Option<string>>, locations: seq<string>, n: Labels)
    requires IsTreeOf(tree, locations) && WellFormed(n) && n != []
    ensures n in Configured(locations) <==> Key(n) in tree && tree[Key(n)].Some?
    ensures n in Configured(locations) ==> tree[Key(n)].value == Join(n)
  {
    if n in Configured(locations) {
      var i :| 0 <= i < |locations| && LabelsOf(locations[i]) == n;
      KeyOfName(locations[i]);
      JoinLabelsOf(locations[i]);
    }
    if Key(n) in tree && tree[Key(n)].Some? {
      var l := tree[Key(n)].value;
      KeyOfName(l);
      ReversedTwice(Dotted(n));
      ReversedTwice(Dotted(LabelsOf(l)));
      DottedInjective(n, LabelsOf(l));
      var i :| 0 <= i < |locations| && l == locations[i];
    }
  }

  /** Label alignment of the search: a key that is a prefix of a query's key is an ancestor's key. */
  lemma {:induction false} PrefixKeyIsAncestor(tree: map<string, Option<string>>, locations: seq<string>, n: Labels, k: string)
    returns (m: Labels)
    requires IsTreeOf(tree, locations) && WellFormed(n) && k in tree && IsPrefix(k, Key(n))
    ensures m != [] && WellFormed(m) && IsSuffix(m, n) && k == Key(m)
    ensures LabelTree.Exists(Configured(locations), m)
  {
    hide Reversed, Dotted;
    var d := Reversed(k);
    ReversedTwice(k);
    ReversedPrefix(d, Dotted(n));
    assert HasNode(locations, d);
    hide IsTreeOf, HasNode;
    var i := DottedSuffixAligned(d, n);
    m := n[i..];
    KeyIffExists(tree, locations, m);
  }

  lemma {:induction false} AncestorIsPrefixKey(n: Labels, m: Labels)
    requires IsSuffix(m, n)
    ensures IsPrefix(Key(m), Key(n)) && |Key(m)| <= |Key(n)|
  {
    DottedSuffix(n, |n| - |m|);
    ReversedPrefix(Dotted(m), Dotted(n));
  }

  /** The longest key below a query is the node of its closest encloser. */
  lemma {:induction false} LongestPrefixIsEncloser(tree: map<string, Option<string>>, locations: seq<string>, n: Labels)
    requires IsTreeOf(tree, locations) && WellFormed(n)
    ensures var ce := LabelTree.ClosestEncloser(Configured(locations), n);
            LongestPrefix(tree, Key(n)) == if ce == [] then None else Some(Key(ce))
  {
    hide IsTreeOf, LongestPrefix, Key, Configured, LabelTree.ClosestEncloser;
    LongestPrefixMeans(tree, Key(n));
    LabelTree.ClosestEncloserMeans(Configured(locations), n);
    var ce := LabelTree.ClosestEncloser(Configured(locations), n);
    forall k | k in tree && IsPrefix(k, Key(n)) ensures ce != [] && |k| <= |Key(ce)| {
      var m := PrefixKeyIsAncestor(tree, locations, n, k);
      SuffixesNested(m, ce, n);
      AncestorIsPrefixKey(ce, m);
    }
    if ce != [] {
      assert WellFormed(ce) by { assert ce == n[|n| - |ce|..]; }
      KeyIffExists(tree, locations, ce);
      AncestorIsPrefixKey(n, ce);
      LongestPrefixIs(tree, Key(n), Key(ce));
    }
  }

  lemma {:induction false} StarKey(ce: Labels)
    ensures Key(["*"] + ce) == Key(ce) + "*."
  {
    assert (["*"] + ce)[1..] == ce;
    assert Dotted(["*"] + ce) == ".*" + Dotted(ce);
  }

  function Render(m: LabelTree.Match): (r: (string, MatchCode)) {
    match m
    case Exact(n) => (Join(n), ExactMatch)
    case Wildcard(n) => (Join(n), WildCardMatch)
    case EmptyNonTerminal => ("", EmptyNonterminalMatch)
    case ClosestEncloserOnly(n) => (Join(n), CEMatch)
    case NoMatch => ("", NoMatch)
  }

  lemma {:induction false} KeyInjective(n: Labels, m: Labels)
    requires WellFormed(n) && WellFormed(m) && Key(n) == Key(m)
    ensures n == m
  {
    ReversedTwice(Dotted(n));
    ReversedTwice(Dotted(m));
    DottedInjective(n, m);
  }

  lemma {:induction false} StarWellFormed(n: Labels, ce: Labels)
    requires WellFormed(n) && IsSuffix(ce, n)
    ensures WellFormed(ce) && WellFormed(["*"] + ce)
  {
    assert ce == n[|n| - |ce|..];
  }

  lemma {:induction false} FindRelativeIsLabelTree(tree: map<string, Option<string>>, locations: seq<string>, rel: string)
    requires IsTreeOf(tree, locations)
    ensures FindRelative(tree, rel) == Render(LabelTree.Lookup(Configured(locations), LabelsOf(rel)))
  {
    hide IsTreeOf, Reversed, Dotted, WellFormed, Configured;
    var n := LabelsOf(rel);
    LabelTree.ClosestEncloserMeans(Configured(locations), n);
    var ce := LabelTree.ClosestEncloser(Configured(locations), n);
    KeyOfName(rel);
    JoinLabelsOf(rel);
    LongestPrefixIsEncloser(tree, locations, n);
    StarWellFormed(n, ce);
    StarKey(ce);
    ValueIffConfigured(tree, locations, ["*"] + ce);
    if ce == [] {
      KeyOfRoot();
      ApexNotConfigured(locations);
      assert ["*"] + ce == ["*"] && Key(["*"]) == "*.";
      ValueIffConfigured(tree, locations, n);
      KeyIffExists(tree, locations, n);
      NothingFound(tree, Configured(locations), rel, n);
    } else {
      ValueIffConfigured(tree, locations, ce);
      KeyIffExists(tree, locations, ce);
      if Key(ce) == Key(n) { KeyInjective(ce, n); }
      EncloserFound(tree, Configured(locations), rel, n, ce);
    }
  }

  lemma {:induction false} ApexNotConfigured(locations: seq<string>)
    ensures [] !in Configured(locations)
  {
  }

  lemma {:induction false} KeyOfRoot()
    ensures Key([]) + "*." == "*." && Join(["*"]) == "*"
  {
  }

  lemma {:induction false} NothingFound(tree: map<string, Option<string>>, conf: set<Labels>, rel: string, n: Labels)
    requires n != [] && LabelTree.ClosestEncloser(conf, n) == []
    requires LongestPrefix(tree, ReversedName(rel)) == None
    requires ["*"] in conf <==> "*." in tree && tree["*."].Some?
    requires Join(["*"]) == "*" && [] !in conf
    ensures FindRelative(tree, rel) == Render(LabelTree.Lookup(conf, n))
  {
    hide Reversed, Dotted, Join, LongestPrefix;
    assert ["*"] + [] == ["*"];
    assert IsSuffix(n, n);
  }

  lemma {:induction false} EncloserFound(tree: map<string, Option<string>>, conf: set<Labels>, rel: string, n: Labels, ce: Labels)
    requires ce == LabelTree.ClosestEncloser(conf, n) && Join(n) == rel
    requires LongestPrefix(tree, ReversedName(rel)) == Some(Key(ce))
    requires Key(ce) == ReversedName(rel) <==> ce == n
    requires Key(ce) in tree
    requires ce in conf <==> tree[Key(ce)].Some?
    requires ce in conf ==> tree[Key(ce)].value == Join(ce)
    requires ["*"] + ce in conf <==> Key(ce) + "*." in tree && tree[Key(ce) + "*."].Some?
    requires ["*"] + ce in conf ==> tree[Key(ce) + "*."].value == Join(["*"] + ce)
    ensures FindRelative(tree, rel) == Render(LabelTree.Lookup(conf, n))
  {
    hide Reversed, Dotted, Join, LongestPrefix, Key, ReversedName;
    LabelTree.ClosestEncloserMeans(conf, n);
    assert IsSuffix(n, n);
  }

  lemma {:induction false} FindLocationRendered(z: Index, rel: string)
    requires IsTreeOf(z.tree, z.locations)
    ensures FindLocation(z, rel + "." + z.name) == Render(LabelTree.Lookup(Configured(z.locations), LabelsOf(rel)))
  {
    var query := rel + "." + z.name;
    assert query == rel + ("." + z.name);
    assert query[|query| - |"." + z.name|..] == "." + z.name;
    assert query[..|rel|] == rel;
    FindRelativeIsLabelTree(z.tree, z.locations, rel);
  }

  /**
   Section 3.3.1 of RFC 4592: for every set of locations and every name below the apex, the
   byte-level search over reversed names gives the answer of the label tree, and the apex answers
   for itself.
   */
  lemma {:induction false} FindLocationIsLabelTree(z: Index, rel: string)
    requires IsTreeOf(z.tree, z.locations)
    ensures FindLocation(z, z.name) == ("@", ExactMatch)
    ensures FindLocation(z, rel + "." + z.name) ==
              match LabelTree.Lookup(set i | 0 <= i < |z.locations| :: LabelsOf(z.locations[i]), LabelsOf(rel))
              case Exact(n) => (Join(n), ExactMatch)
              case EmptyNonTerminal => ("", EmptyNonterminalMatch)
              case Wildcard(n) => (Join(n), WildCardMatch)
              case ClosestEncloserOnly(n) => (Join(n), CEMatch)
              case NoMatch => ("", NoMatch)
  {
    hide IsTreeOf, FindRelative, LabelsOf, Join, LabelTree.Lookup;
    FindLocationRendered(z, rel);
    assert (set i | 0 <= i < |z.locations| :: LabelsOf(z.locations[i])) == Configured(z.locations);
  }

  // ----- The zones a server is authoritative for -----

  /** data_handler.go:201. */
  function FindZone(zones: map<string, string>, qname: string): (zone: string) {
    match LongestPrefix(zones, ReversedName(qname))
    case Some(k) => zones[k]
    case None => ""
  }

  ghost predicate IsZoneTreeOf(zones: map<string, string>, names: seq<string>) {
    && (forall k :: k in zones ==> zones[k] in names && k == ReversedName(zones[k]))
    && (forall i :: 0 <= i < |names| ==> ReversedName(names[i]) in zones)
  }

  /** `q` is at or below `z`, label for label. */
  ghost predicate AtOrBelow(q: string, z: string) {
    IsSuffix(LabelsOf(z), LabelsOf(q))
  }

  lemma {:induction false} ZoneKeyIffAtOrBelow(z: string, q: string)
    ensures IsPrefix(ReversedName(z), ReversedName(q)) <==> AtOrBelow(q, z)
  {
    ReversedPrefix("." + z, "." + q);
    DottedLabelsOf(z);
    DottedLabelsOf(q);
    LabelSuffixIffDotted(LabelsOf(z), LabelsOf(q));
  }

  /** The zone found is the deepest loaded one the name is at or below, and none is found only when there is none. */
  lemma {:induction false} FindZoneIsDeepest(zones: map<string, string>, names: seq<string>, q: string)
    requires IsZoneTreeOf(zones, names) && "" !in names
    ensures var z := FindZone(zones, q);
            if exists i :: 0 <= i < |names| && AtOrBelow(q, names[i]) then
              && z in names && AtOrBelow(q, z)
              && forall i :: 0 <= i < |names| && AtOrBelow(q, names[i]) ==> AtOrBelow(z, names[i])
            else z == ""
  {
    hide LabelsOf, Reversed;
    var found := LongestPrefix(zones, ReversedName(q));
    LongestPrefixMeans(zones, ReversedName(q));
    if found.Some? {
      ZoneKeyIffAtOrBelow(zones[found.value], q);
    }
    forall i | 0 <= i < |names| && AtOrBelow(q, names[i])
      ensures found.Some? && AtOrBelow(zones[found.value], names[i])
    {
      ZoneKeyIffAtOrBelow(names[i], q);
      assert |ReversedName(names[i])| <= |found.value|;
      ZoneNesting(names[i], zones[found.value], q);
    }
  }

  lemma {:induction false} ZoneNesting(a: string, b: string, q: string)
    requires AtOrBelow(q, a) && AtOrBelow(q, b) && |ReversedName(a)| <= |ReversedName(b)|
    ensures AtOrBelow(b, a)
  {
    ZoneKeyIffAtOrBelow(a, q);
    ZoneKeyIffAtOrBelow(b, q);
    ZoneKeyIffAtOrBelow(a, b);
  }

  lemma {:induction false} FoundAbove(zones: map<string, string>, names: seq<string>, q: string)
    requires IsZoneTreeOf(zones, names) && FindZone(zones, q) != ""
    ensures IsSuffix("." + FindZone(zones, q), "." + q)
  {
    hide LongestPrefix, Reversed, IsSuffix;
    LongestPrefixMeans(zones, ReversedName(q));
    ReversedPrefix("." + FindZone(zones, q), "." + q);
  }

  lemma {:induction false} DottedSuffixSplits(z: string, q: string)
    requires IsSuffix("." + z, "." + q)
    ensures q == z || (|q| > |z| && q == q[..|q| - |z| - 1] + "." + z)
  {
    var qq := "." + q;
    if |q| > |z| {
      assert q == qq[1..] && qq[|q| - |z|..] == "." + z;
      assert q[|q| - |z| - 1..] == qq[|q| - |z|..];
    } else {
      assert qq == "." + z && q == qq[1..] && z == ("." + z)[1..];
    }
  }

  /** A name found in a zone is the apex or a relative name followed by the zone's. */
  lemma {:induction false} InZoneName(zones: map<string, string>, names: seq<string>, q: string) returns (rel: string)
    requires IsZoneTreeOf(zones, names) && FindZone(zones, q) != ""
    ensures var z := FindZone(zones, q); q == z || q == rel + "." + z
  {
    hide FindZone, IsSuffix;
    var z := FindZone(zones, q);
    FoundAbove(zones, names, q);
    DottedSuffixSplits(z, q);
    rel := if |q| > |z| then q[..|q| - |z| - 1] else "";
  }
}
