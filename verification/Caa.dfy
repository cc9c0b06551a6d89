/** `findCAA` (internal/handler/handler.go:568-601): the nearest ancestor with a CAA set. */
module Caa {
  import opened Wrappers
  import opened Names
  import opened ZoneIndex
  import opened Records
  import opened Requests
  import LabelTree

  function Dots(s: string): (n: nat) { |Split(s, '.')| - 1 }

  /** What follows the first dot, if there is one: `strings.SplitAfterN(s, ".", 2)[1]`. */
  function AfterFirstDot(s: string): (r: Option<string>)
    ensures r.None? <==> '.' !in s
  {
    var i := IndexOf(s, '.');
    assert s[..|s|] == s;
    if i == |s| then None else Some(s[i + 1..])
  }

  lemma {:induction false} AfterFirstDotIsParent(s: string)
    ensures var r := AfterFirstDot(s);
            if r.None? then |Split(s, '.')| == 1 else Split(r.value, '.') == Split(s, '.')[1..]
    ensures AfterFirstDot(s).Some? ==> Dots(AfterFirstDot(s).value) < Dots(s)
  {
    hide IndexOf;
    var i := IndexOf(s, '.');
    if i < |s| {
      var rest := Split(s[i + 1..], '.');
      assert Split(s, '.') == [s[..i]] + rest;
      assert ([s[..i]] + rest)[1..] == rest;
    }
  }

  /** Trimming a suffix leaves no more labels than there were. */
  lemma {:induction false} TrimmedDots(s: string, p: string)
    ensures Dots(TrimSuffix(s, "." + p)) <= Dots(s)
  {
    var q := "." + p;
    if IsSuffix(q, s) {
      var a := s[..|s| - |q|];
      assert s == a + ['.'] + p;
      SplitConcat(a, p, '.');
    }
  }

  /** What answers a name has no more labels than the name, although a wildcard may jump levels. */
  lemma {:induction false} LocatedDots(env: Env, p: string)
    requires IsTreeOf(env.zone.index.tree, env.zone.index.locations)
    ensures env.Locate(p).1 in {ExactMatch, WildCardMatch} ==> Dots(env.Locate(p).0) <= Dots(p)
  {
    if p == env.Apex() {
      hide IsTreeOf, FindRelative, Split;
      SplitWhole("@", '.');
    } else {
      var rel := TrimSuffix(p, "." + env.Apex());
      TrimmedDots(p, env.Apex());
      FindRelativeIsLabelTree(env.zone.index.tree, env.zone.index.locations, rel);
      RenderedDots(Locations(env), rel);
      hide IsTreeOf, FindRelative, Split, Configured, LabelTree.Lookup, TrimSuffix;
    }
  }

  lemma {:induction false} RenderedDots(conf: set<Labels>, rel: string)
    ensures var (location, code) := Render(LabelTree.Lookup(conf, LabelsOf(rel)));
            code in {ExactMatch, WildCardMatch} ==> Dots(location) <= Dots(rel)
  {
    hide Split;
    var n := LabelsOf(rel);
    match LabelTree.Lookup(conf, n) {
      case Exact(m) => JoinLabelsOf(rel);
      case Wildcard(w) =>
        LabelTree.ClosestEncloserMeans(conf, n);
        var ce := LabelTree.ClosestEncloser(conf, n);
        ExistsIfConfigured(conf, n);
        WildcardIsProper(conf, n);
        StarWellFormed(n, ce);
        LabelsOfJoin(w);
      case _ =>
    }
  }

  lemma {:induction false} ExistsIfConfigured(conf: set<Labels>, n: Labels)
    ensures n in conf ==> LabelTree.Exists(conf, n)
  {
    assert IsSuffix(n, n);
  }

  lemma {:induction false} WildcardIsProper(configured: set<Labels>, n: Labels)
    requires n != [] && !LabelTree.Exists(configured, n)
    ensures |LabelTree.ClosestEncloser(configured, n)| < |n|
  {
    LabelTree.ClosestEncloserMeans(configured, n);
    var ce := LabelTree.ClosestEncloser(configured, n);
    assert ce == n[|n| - |ce|..];
    assert n[0..] == n;
  }

  function ReadCaa(env: Env, location: string): (r: Option<ItemSet>) {
    var caa := env.store.items(location, TYPE_CAA);
    if caa.Ok? then Some(caa.value) else None
  }

  predicate HasCaa(env: Env, location: string) {
    var caa := ReadCaa(env, location);
    caa.Some? && !caa.value.Empty()
  }

  /** The climb from a location that has no set of its own: handler.go:575-600. */
  ghost function CaaAbove(env: Env, location: string): (r: Option<ItemSet>)
    requires ValidEnv(env)
    decreases Dots(location)
  {
    AfterFirstDotIsParent(location);
    match AfterFirstDot(location)
    case None => ReadCaa(env, "@")
    case Some(parent) =>
      LocatedDots(env, parent);
      var (at, code) := env.Locate(parent);
      if code != ExactMatch && code != WildCardMatch then CaaAbove(env, parent)
      else if HasCaa(env, at) then ReadCaa(env, at)
      else if ReadCaa(env, at).None? then CaaAbove(env, parent)
      else CaaAbove(env, at)
  }

  ghost function FoundCaa(env: Env, query: string): (r: Option<ItemSet>)
    requires ValidEnv(env)
  {
    var (at, _) := env.Locate(query);
    if HasCaa(env, at) then ReadCaa(env, at) else CaaAbove(env, at)
  }

  /** handler.go:568. */
  method FindCAA(env: Env, query: string) returns (caa: Option<ItemSet>)
    requires ValidEnv(env)
    ensures caa == FoundCaa(env, query)
  {
    var (currentLocation, _) := env.Locate(query);
    caa := ReadCaa(env, currentLocation);
    if caa.Some? && !caa.value.Empty() { return; }
    while true
      invariant FoundCaa(env, query) == CaaAbove(env, currentLocation)
      decreases Dots(currentLocation)
    {
      AfterFirstDotIsParent(currentLocation);
      var splits := AfterFirstDot(currentLocation);
      if splits.None? { break; }
      LocatedDots(env, splits.value);
      var (location, code) := env.Locate(splits.value);
      currentLocation := location;
      if code != ExactMatch && code != WildCardMatch {
        currentLocation := splits.value;
        continue;
      }
      caa := ReadCaa(env, currentLocation);
      if caa.None? {
        currentLocation := splits.value;
        continue;
      }
      if !caa.value.Empty() { return; }
    }
    caa := ReadCaa(env, "@");
  }

  // ----- Section 3 of RFC 8659, on labels -----

  /** The set of the nearest ancestor-or-self of `n` that expands to a location with one, else the apex's. */
  ghost function Nearest(env: Env, n: Labels): (r: Option<ItemSet>) {
    if n == [] then
      var caa := env.store.items("@", TYPE_CAA);
      if caa.Ok? then Some(caa.value) else None
    else
      var m := LabelTree.Lookup(Locations(env), n);
      if m.Exact? || m.Wildcard? then
        var caa := env.store.items(Join(m.name), TYPE_CAA);
        if caa.Ok? && caa.value.items != [] then Some(caa.value) else Nearest(env, n[1..])
      else Nearest(env, n[1..])
  }

  /** Names missing below one closest encloser that do not provide a set can be skipped together. */
  lemma {:induction false} SkipToEncloser(env: Env, n: Labels)
    requires n != [] && !LabelTree.Exists(Locations(env), n)
    requires var m := LabelTree.Lookup(Locations(env), n); m.Wildcard? ==> !HasCaa(env, Join(m.name))
    ensures Nearest(env, n) == Nearest(env, LabelTree.ClosestEncloser(Locations(env), n))
    decreases |n|
  {
    var conf := Locations(env);
    LabelTree.ClosestEncloserMeans(conf, n);
    var ce := LabelTree.ClosestEncloser(conf, n);
    WildcardIsProper(conf, n);
    assert n in conf ==> IsSuffix(n, n);
    assert ce == n[|n| - |ce|..];
    if |ce| + 1 == |n| {
      assert n[1..] == ce;
    } else {
      assert IsSuffix(n[1..], n);
      LabelTree.BetweenNameAndEncloser(conf, n, n[1..]);
      SkipToEncloser(env, n[1..]);
    }
  }

  /** The name ends in a real label, as every name a query can carry does. */
  predicate EndsInLabel(n: Labels) { n != [] && n[|n| - 1] != "" }

  /** Relative names do not end in the zone's own name, which ends in a dot. */
  predicate ApexIsAbsolute(env: Env) { env.Apex() != "" && env.Apex()[|env.Apex()| - 1] == '.' }

  lemma {:induction false} JoinEndsAsLabel(n: Labels)
    requires EndsInLabel(n) && WellFormed(n)
    ensures Join(n) != "" && Join(n)[|Join(n)| - 1] != '.'
  {
    if |n| > 1 {
      JoinEndsAsLabel(n[1..]);
      DottedJoin(n[1..]);
      DottedTail(n);
    } else {
      DottedTail(n);
    }
  }

  lemma {:induction false} SameEnd(p: string, s: string)
    requires p != "" && IsSuffix(p, s)
    ensures s != "" && s[|s| - 1] == p[|p| - 1]
  {
    assert s[|s| - |p|..][|p| - 1] == s[|s| - 1];
  }

  /** A name that ends in a label is not mistaken for one written out to the apex. */
  lemma {:induction false} NothingToTrim(p: string, apex: string)
    requires p != "" && p[|p| - 1] != '.' && apex != "" && apex[|apex| - 1] == '.'
    ensures p != apex && TrimSuffix(p, "." + apex) == p
  {
    if IsSuffix("." + apex, p) { SameEnd("." + apex, p); }
    hide IsSuffix;
  }

  lemma {:induction false} RelativeLookup(env: Env, n: Labels)
    requires ValidEnv(env) && ApexIsAbsolute(env) && WellFormed(n) && EndsInLabel(n)
    ensures env.Locate(Join(n)) == Render(LabelTree.Lookup(Locations(env), n))
  {
    hide IsTreeOf, FindRelative, LabelsOf, Join, TrimSuffix, Render, LabelTree.Lookup, WellFormed, Configured;
    JoinEndsAsLabel(n);
    LabelsOfJoin(n);
    NothingToTrim(Join(n), env.Apex());
    FindRelativeIsLabelTree(env.zone.index.tree, env.zone.index.locations, Join(n));
  }

  /** One turn of the climb, given what the name above expands to and where the climb goes on. */
  lemma {:induction false} ClimbTurn(env: Env, location: string, n: Labels)
    requires ValidEnv(env) && n != [] && AfterFirstDot(location) == Some(Join(n))
    requires env.Locate(Join(n)) == Render(LabelTree.Lookup(Locations(env), n))
    requires CaaAbove(env, Join(n)) == Nearest(env, n[1..])
    requires var m := LabelTree.Lookup(Locations(env), n);
             && (m.Exact? ==> m.name == n)
             && (m.Wildcard? && !HasCaa(env, Join(m.name)) ==> CaaAbove(env, Join(m.name)) == Nearest(env, n))
    ensures CaaAbove(env, location) == Nearest(env, n)
  {
    hide ValidEnv, FindLocation, Join, AfterFirstDot, LabelTree.Lookup, Configured;
  }

  /** Climbing from the location with labels `m` looks at the ancestors of `m`, nearest first. */
  lemma {:induction false} CaaAboveIsNearest(env: Env, m: Labels)
    requires ValidEnv(env) && ApexIsAbsolute(env) && WellFormed(m) && EndsInLabel(m)
    ensures CaaAbove(env, Join(m)) == Nearest(env, m[1..])
    decreases |m|, 0
  {
    hide ValidEnv, Nearest, CaaAbove, LabelTree.Lookup, Configured, FindLocation;
    ParentLocation(m);
    if |m| > 1 {
      var n := m[1..];
      RelativeLookup(env, n);
      CaaAboveIsNearest(env, n);
      LookupNames(Locations(env), n);
      if LabelTree.Lookup(Locations(env), n).Wildcard? {
        FoundByWildcard(env, n);
      }
      ClimbTurn(env, Join(m), n);
    } else {
      SingleLabel(env, m);
    }
  }

  lemma {:induction false} SingleLabel(env: Env, m: Labels)
    requires ValidEnv(env) && |m| == 1 && AfterFirstDot(Join(m)) == None
    ensures CaaAbove(env, Join(m)) == Nearest(env, m[1..])
  {
    assert m[1..] == [];
  }

  lemma {:induction false} LookupNames(configured: set<Labels>, n: Labels)
    ensures var m := LabelTree.Lookup(configured, n); m.Exact? ==> m.name == n
  {
  }

  lemma {:induction false} ParentLocation(m: Labels)
    requires WellFormed(m) && m != []
    ensures AfterFirstDot(Join(m)) == if |m| == 1 then None else Some(Join(m[1..]))
  {
    LabelsOfJoin(m);
    AfterFirstDotIsParent(Join(m));
    if AfterFirstDot(Join(m)).Some? {
      JoinLabelsOf(AfterFirstDot(Join(m)).value);
    }
  }

  lemma {:induction false} WildcardEncloser(configured: set<Labels>, n: Labels)
    requires n != [] && LabelTree.Lookup(configured, n).Wildcard?
    ensures var w := LabelTree.Lookup(configured, n).name;
            && !LabelTree.Exists(configured, n)
            && w != [] && w[1..] == LabelTree.ClosestEncloser(configured, n) && w == ["*"] + w[1..]
            && IsSuffix(w[1..], n) && |w| <= |n|
            && (EndsInLabel(n) ==> EndsInLabel(w))
  {
    WildcardIsProper(configured, n);
    LabelTree.ClosestEncloserMeans(configured, n);
    var ce := LabelTree.ClosestEncloser(configured, n);
    assert ce == n[|n| - |ce|..];
  }

  /** `query` is the apex, which has no labels here, or has the labels `n` below it. */
  predicate HasLabels(env: Env, query: string, n: Labels) {
    if n == [] then query == env.Apex()
    else EndsInLabel(n) && LabelsOf(Join(n)) == n && query == Join(n) + "." + env.Apex()
  }

  /**
   Section 3 of RFC 8659 without alias following: for a name that something in the zone answers,
   the apex included, `findCAA` gives the set of the nearest ancestor-or-self whose
   wildcard-expanded location has one, and the apex's if none has. A failed read counts as no set.
   */
  lemma {:induction false} FindCaaIsNearest(env: Env, query: string, n: Labels)
    requires ValidEnv(env) && ApexIsAbsolute(env) && HasLabels(env, query, n)
    requires env.Locate(query).1 in {ExactMatch, WildCardMatch, CEMatch}
    ensures FoundCaa(env, query) == Nearest(env, n)
  {
    if n == [] {
      FindCaaAtApex(env);
    } else {
      FindCaaBelowApex(env, query, n);
    }
  }

  lemma {:induction false} FindCaaAtApex(env: Env)
    requires ValidEnv(env)
    ensures FoundCaa(env, env.Apex()) == Nearest(env, [])
  {
    SplitWhole("@", '.');
    AfterFirstDotIsParent("@");
  }

  lemma {:induction false} FindCaaBelowApex(env: Env, query: string, n: Labels)
    requires ValidEnv(env) && ApexIsAbsolute(env) && n != [] && HasLabels(env, query, n)
    requires env.Locate(query).1 in {ExactMatch, WildCardMatch, CEMatch}
    ensures FoundCaa(env, query) == Nearest(env, n)
  {
    hide ValidEnv, LabelTree.Lookup, Configured, FindLocation, CaaAbove, Nearest;
    AbsoluteLookup(env, query, Join(n));
    match LabelTree.Lookup(Locations(env), n)
    case Exact(_) =>
      LookupNames(Locations(env), n);
      CaaAboveIsNearest(env, n);
      NearestOfExact(env, n);
    case Wildcard(w) =>
      FoundByWildcard(env, n);
      NearestOfWildcard(env, n);
    case ClosestEncloserOnly(ce) => FoundAtEncloser(env, n);
    case _ =>
  }

  lemma {:induction false} NearestOfExact(env: Env, n: Labels)
    requires n != [] && LabelTree.Lookup(Locations(env), n) == LabelTree.Exact(n)
    ensures Nearest(env, n) == if HasCaa(env, Join(n)) then ReadCaa(env, Join(n)) else Nearest(env, n[1..])
  {
    hide LabelTree.Lookup;
  }

  lemma {:induction false} NearestOfWildcard(env: Env, n: Labels)
    requires n != [] && LabelTree.Lookup(Locations(env), n).Wildcard?
    ensures var w := LabelTree.Lookup(Locations(env), n).name;
            HasCaa(env, Join(w)) ==> Nearest(env, n) == ReadCaa(env, Join(w))
  {
    hide LabelTree.Lookup;
  }

  lemma {:induction false} FoundByWildcard(env: Env, n: Labels)
    requires ValidEnv(env) && ApexIsAbsolute(env) && WellFormed(n) && EndsInLabel(n)
    requires LabelTree.Lookup(Locations(env), n).Wildcard?
    ensures var w := LabelTree.Lookup(Locations(env), n).name;
            !HasCaa(env, Join(w)) ==> CaaAbove(env, Join(w)) == Nearest(env, n)
    decreases |n|, 1
  {
    var w := LabelTree.Lookup(Locations(env), n).name;
    WildcardEncloser(Locations(env), n);
    StarWellFormed(n, w[1..]);
    hide ValidEnv, Nearest, CaaAbove, LabelTree.Lookup, Configured, WellFormed;
    if !HasCaa(env, Join(w)) {
      SkipToEncloser(env, n);
      CaaAboveIsNearest(env, w);
    }
  }

  lemma {:induction false} FoundAtEncloser(env: Env, n: Labels)
    requires ValidEnv(env) && ApexIsAbsolute(env) && WellFormed(n) && EndsInLabel(n)
    requires LabelTree.Lookup(Locations(env), n).ClosestEncloserOnly?
    ensures var ce := LabelTree.Lookup(Locations(env), n).name;
            Nearest(env, n) == if HasCaa(env, Join(ce)) then ReadCaa(env, Join(ce)) else CaaAbove(env, Join(ce))
  {
    var ce := LabelTree.Lookup(Locations(env), n).name;
    ApexNotConfigured(env.zone.index.locations);
    EncloserEncloser(Locations(env), n);
    StarWellFormed(n, ce);
    SkipToEncloser(env, n);
    CaaAboveIsNearest(env, ce);
    hide ValidEnv, CaaAbove;
    assert Nearest(env, ce) == if HasCaa(env, Join(ce)) then ReadCaa(env, Join(ce)) else Nearest(env, ce[1..]);
  }

  lemma {:induction false} EncloserEncloser(configured: set<Labels>, n: Labels)
    requires LabelTree.Lookup(configured, n).ClosestEncloserOnly? && EndsInLabel(n) && [] !in configured
    ensures var ce := LabelTree.Lookup(configured, n).name;
            && !LabelTree.Exists(configured, n) && ce == LabelTree.ClosestEncloser(configured, n)
            && IsSuffix(ce, n) && LabelTree.Lookup(configured, ce) == LabelTree.Exact(ce)
            && EndsInLabel(ce)
  {
    LabelTree.ClosestEncloserMeans(configured, n);
    var ce := LabelTree.ClosestEncloser(configured, n);
    assert ce == n[|n| - |ce|..];
  }
}
