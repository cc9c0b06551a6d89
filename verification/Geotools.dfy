/**
 internal/geotools/geotools.go: the mask passes that narrow a set of addresses to those near
 the client. What the geographic database answers is a parameter.
 */
module Geotools {
  import opened Wrappers
  import opened Masks

  /** `None` is Go's nil address. */
  type Ip = Option<string>

  datatype IpRecord = IpRecord(weight: int, ip: Ip, country: seq<string>, asn: seq<nat>)

  // ----- One narrowing stage -----

  /** What a stage looks for in one address: the client's own area, or no area at all. */
  datatype Area = Area(matches: bool, isDefault: bool)

  function AsnAreas(ips: seq<IpRecord>, source: nat): (a: seq<Area>)
    ensures |a| == |ips|
  {
    seq(|ips|, i requires 0 <= i < |ips| => Area(source in ips[i].asn, ips[i].asn == [] || 0 in ips[i].asn))
  }

  function CountryAreas(ips: seq<IpRecord>, source: string): (a: seq<Area>)
    ensures |a| == |ips|
  {
    seq(|ips|, i requires 0 <= i < |ips| => Area(source in ips[i].country, ips[i].country == [] || "" in ips[i].country))
  }

  predicate SomePass(mask: seq<Mask>, areas: seq<Area>)
    requires |mask| == |areas|
  {
    exists i :: 0 <= i < |mask| && mask[i].White? && areas[i].matches
  }

  /** What a stage makes of one address; `passed` says whether any white address matched. */
  function StageAt(m: Mask, a: Area, known: bool, passed: bool): (r: Mask) {
    if passed then
      if m.White? then (if a.matches then White else Grey) else Black
    else if (if known then m.White? else !m.Black?) && a.isDefault then White
    else Black
  }

  function Stage(mask: seq<Mask>, areas: seq<Area>, known: bool): (r: seq<Mask>)
    requires |mask| == |areas|
    ensures |r| == |mask|
  {
    var passed := known && SomePass(mask, areas);
    seq(|mask|, i requires 0 <= i < |mask| => StageAt(mask[i], areas[i], known, passed))
  }

  /** geotools.go:57. */
  method GetSameASN(source: Result<nat>, ips: seq<IpRecord>, mask: array<Mask>)
    requires |ips| == mask.Length
    modifies mask
    ensures source.Err? ==> mask[..] == old(mask[..])
    ensures source.Ok? ==> mask[..] == Stage(old(mask[..]), AsnAreas(ips, source.value), source.value != 0)
  {
    if source.Err? { return; }
    var sourceASN := source.value;
    ghost var areas := AsnAreas(ips, sourceASN);
    ghost var before := mask[..];
    var passed := 0;
    if sourceASN != 0 {
      label outer:
      for i := 0 to mask.Length
        invariant forall k :: i <= k < mask.Length ==> mask[k] == before[k]
        invariant forall k :: 0 <= k < i ==> mask[k] == StageAt(before[k], areas[k], true, true)
        invariant passed > 0 <==> exists k :: 0 <= k < i && before[k].White? && areas[k].matches
      {
        if mask[i].White? {
          for j := 0 to |ips[i].asn|
            invariant sourceASN !in ips[i].asn[..j]
          {
            if ips[i].asn[j] == sourceASN {
              passed := passed + 1;
              assert areas[i].matches;
              continue outer;
            }
          }
          assert ips[i].asn[..|ips[i].asn|] == ips[i].asn;
          mask[i] := Grey;
        } else {
          mask[i] := Black;
        }
      }
    }
    ghost var known := sourceASN != 0;
    assert passed > 0 <==> known && SomePass(before, areas);
    if passed > 0 {
      assert mask[..] == Stage(before, areas, known);
      return;
    }
    for i := 0 to mask.Length
      invariant forall k :: i <= k < mask.Length ==>
                  mask[k] == if known then StageAt(before[k], areas[k], true, true) else before[k]
      invariant forall k :: 0 <= k < i ==> mask[k] == StageAt(before[k], areas[k], known, false)
    {
      if !mask[i].Black? {
        if |ips[i].asn| == 0 {
          mask[i] := White;
        } else {
          mask[i] := Black;
          for j := 0 to |ips[i].asn|
            invariant 0 !in ips[i].asn[..j] && mask[i] == Black
            invariant forall k :: 0 <= k < mask.Length && k != i ==>
                        mask[k] == if k < i then StageAt(before[k], areas[k], known, false)
                                   else if known then StageAt(before[k], areas[k], true, true) else before[k]
          {
            if ips[i].asn[j] == 0 {
              mask[i] := White;
              break;
            }
          }
          assert ips[i].asn[..|ips[i].asn|] == ips[i].asn;
        }
      }
    }
    assert mask[..] == Stage(before, areas, known);
  }

  /** geotools.go:10. */
  method GetSameCountry(source: Result<string>, ips: seq<IpRecord>, mask: array<Mask>)
    requires |ips| == mask.Length
    modifies mask
    ensures source.Err? ==> mask[..] == old(mask[..])
    ensures source.Ok? ==> mask[..] == Stage(old(mask[..]), CountryAreas(ips, source.value), source.value != "")
  {
    if source.Err? { return; }
    var sourceCountry := source.value;
    ghost var areas := CountryAreas(ips, sourceCountry);
    ghost var before := mask[..];
    var passed := 0;
    if sourceCountry != "" {
      label outer:
      for i := 0 to mask.Length
        invariant forall k :: i <= k < mask.Length ==> mask[k] == before[k]
        invariant forall k :: 0 <= k < i ==> mask[k] == StageAt(before[k], areas[k], true, true)
        invariant passed > 0 <==> exists k :: 0 <= k < i && before[k].White? && areas[k].matches
      {
        if mask[i].White? {
          for j := 0 to |ips[i].country|
            invariant sourceCountry !in ips[i].country[..j]
          {
            if ips[i].country[j] == sourceCountry {
              passed := passed + 1;
              assert areas[i].matches;
              continue outer;
            }
          }
          assert ips[i].country[..|ips[i].country|] == ips[i].country;
          mask[i] := Grey;
        } else {
          mask[i] := Black;
        }
      }
    }
    ghost var known := sourceCountry != "";
    assert passed > 0 <==> known && SomePass(before, areas);
    if passed > 0 {
      assert mask[..] == Stage(before, areas, known);
      return;
    }
    for i := 0 to mask.Length
      invariant forall k :: i <= k < mask.Length ==>
                  mask[k] == if known then StageAt(before[k], areas[k], true, true) else before[k]
      invariant forall k :: 0 <= k < i ==> mask[k] == StageAt(before[k], areas[k], known, false)
    {
      if !mask[i].Black? {
        if |ips[i].country| == 0 {
          mask[i] := White;
        } else {
          mask[i] := Black;
          for j := 0 to |ips[i].country|
            invariant "" !in ips[i].country[..j] && mask[i] == Black
            invariant forall k :: 0 <= k < mask.Length && k != i ==>
                        mask[k] == if k < i then StageAt(before[k], areas[k], known, false)
                                   else if known then StageAt(before[k], areas[k], true, true) else before[k]
          {
            if ips[i].country[j] == "" {
              mask[i] := White;
              break;
            }
          }
          assert ips[i].country[..|ips[i].country|] == ips[i].country;
        }
      }
    }
    assert mask[..] == Stage(before, areas, known);
  }

  const FARTHEST := 1000.0

  /** No white address comes after one that is not white. */
  ghost predicate WhitesFirst(mask: seq<Mask>) {
    forall i, j :: 0 <= i < j < |mask| && mask[j].White? ==> mask[i].White?
  }

  /** Only the nearest white addresses stay white, as long as the distance of one is within the starting bound. */
  function NearestOf(mask: seq<Mask>, dist: seq<real>): (r: seq<Mask>)
    requires |mask| == |dist|
    ensures |r| == |mask|
  {
    seq(|mask|, i requires 0 <= i < |mask| =>
      if !mask[i].White? then Black
      else if (exists k :: 0 <= k < |mask| && mask[k].White? && dist[k] <= FARTHEST)
              && (exists k :: 0 <= k < |mask| && mask[k].White? && dist[k] < dist[i])
      then Grey else White)
  }

  /** The same from an all-white mask, the only one `filter` starts with. */
  function Nearest(dist: seq<real>): (r: seq<Mask>)
    ensures |r| == |dist|
  {
    NearestOf(seq(|dist|, _ => White), dist)
  }

  /**
   geotools.go:105; `dist[i]` is the distance from the client to address `i`. The distances of the
   white addresses are gathered one behind the other and then indexed by position, which stays
   in range exactly when the white addresses come first.
   */
  method GetMinimumDistance(sourceKnown: bool, dist: seq<real>, mask: array<Mask>)
    requires |dist| == mask.Length && WhitesFirst(mask[..])
    modifies mask
    ensures !sourceKnown ==> mask[..] == old(mask[..])
    ensures sourceKnown ==> mask[..] == NearestOf(old(mask[..]), dist)
  {
    if !sourceKnown { return; }
    ghost var before := mask[..];
    var minDistance := FARTHEST;
    var dists: seq<real> := [];
    for i := 0 to mask.Length
      invariant mask[..] == before && dists <= dist[..i]
      invariant forall k :: 0 <= k < i ==> (k < |dists| <==> before[k].White?)
      invariant minDistance <= FARTHEST && forall k :: 0 <= k < |dists| ==> minDistance <= dist[k]
      invariant minDistance == FARTHEST || exists k :: 0 <= k < |dists| && dist[k] == minDistance
    {
      if mask[i].White? {
        assert i > 0 ==> before[i - 1].White?;
        var d := dist[i];
        if d < minDistance { minDistance := d; }
        dists := dists + [d];
      }
    }
    var passed := 0;
    for i := 0 to mask.Length
      invariant forall k :: i <= k < mask.Length ==> mask[k] == before[k]
      invariant forall k :: 0 <= k < i ==>
                  mask[k] == if !before[k].White? then Black else if dist[k] == minDistance then White else Grey
      invariant passed > 0 <==> exists k :: 0 <= k < i && before[k].White? && dist[k] == minDistance
    {
      if mask[i].White? {
        if dists[i] == minDistance { passed := passed + 1; } else { mask[i] := Grey; }
      } else {
        mask[i] := Black;
      }
    }
    if passed == 0 {
      for i := 0 to mask.Length
        invariant forall k :: 0 <= k < i ==> mask[k] == if before[k].White? then White else Black
        invariant forall k :: i <= k < mask.Length ==> mask[k] == if before[k].White? then Grey else Black
      {
        if mask[i].Grey? { mask[i] := White; }
      }
    }
  }

  lemma {:induction false} RankWithoutGap(mask: seq<Mask>, n: nat)
    requires n <= |mask|
    ensures Rank(mask, n) <= n
    ensures Rank(mask, n) == n <==> forall k :: 0 <= k < n ==> mask[k].White?
  {
    hide Rank;
    if n == 0 {
      RankEnds(mask);
    } else {
      RankWithoutGap(mask, n - 1);
      RankNext(mask, n - 1);
    }
  }

  /** Indexing the gathered distances by position stays in range exactly when the white addresses come first. */
  lemma {:induction false} InRangeIffWhitesFirst(mask: seq<Mask>)
    ensures (forall i :: 0 <= i < |mask| && mask[i].White? ==> i < |Whites(mask)|) <==> WhitesFirst(mask)
  {
    hide Whites, Rank;
    var n := |Whites(mask)|;
    if WhitesFirst(mask) {
      forall i | 0 <= i < |mask| && mask[i].White? ensures i < n {
        RankWithoutGap(mask, i);
        RankNext(mask, i);
      }
    } else {
      var i, j :| 0 <= i < j < |mask| && mask[j].White? && !mask[i].White?;
      RankNext(mask, j);
      var last := Whites(mask)[n - 1];
      RankOfWhite(mask, n - 1);
      RankWithoutGap(mask, last);
      LastWhite(mask, j);
      assert mask[last].White? && n <= last;
    }
  }

  lemma {:induction false} LastWhite(mask: seq<Mask>, j: nat)
    requires j < |mask| && mask[j].White?
    ensures Whites(mask) != [] && j <= Whites(mask)[|Whites(mask)| - 1]
  {
    var w := Whites(mask);
    assert j in w;
    var p :| 0 <= p < |w| && w[p] == j;
    hide Whites;
  }

  // ----- Stages one after another -----

  ghost function WhiteSet(mask: seq<Mask>): (r: set<nat>) {
    set i | 0 <= i < |mask| && mask[i].White?
  }

  /** The rule a stage implements on a set of addresses: the matching ones if any match, else the default ones. */
  ghost function Narrow(chosen: set<nat>, areas: seq<Area>): (r: set<nat>)
    requires forall i :: i in chosen ==> i < |areas|
  {
    if exists i :: i in chosen && areas[i].matches then set i | i in chosen && areas[i].matches
    else set i | i in chosen && areas[i].isDefault
  }

  /** A stage never brings a black address back. */
  lemma {:induction false} BlackStaysBlack(mask: seq<Mask>, areas: seq<Area>, known: bool, i: nat)
    requires |mask| == |areas| && i < |mask| && mask[i].Black?
    ensures Stage(mask, areas, known)[i].Black?
  {
  }

  /** With the client's area known a stage narrows the white set by its rule. */
  lemma {:induction false} KnownStageNarrows(mask: seq<Mask>, areas: seq<Area>)
    requires |mask| == |areas|
    ensures WhiteSet(Stage(mask, areas, true)) == Narrow(WhiteSet(mask), areas)
  {
    var chosen := WhiteSet(mask);
    assert (exists i :: i in chosen && areas[i].matches) <==> SomePass(mask, areas) by {
      if i :| 0 <= i < |mask| && mask[i].White? && areas[i].matches { assert i in chosen; }
    }
  }

  /** With it unknown, the default addresses that are not black, grey ones included. */
  lemma {:induction false} UnknownStageDefaults(mask: seq<Mask>, areas: seq<Area>)
    requires |mask| == |areas|
    ensures WhiteSet(Stage(mask, areas, false)) == set i | 0 <= i < |mask| && !mask[i].Black? && areas[i].isDefault
  {
  }

  /** The white set `asn+country` should leave of `near`: the default addresses for a client of unknown country. */
  ghost function Cascade(near: set<nat>, country: seq<Area>, countryKnown: bool): (r: set<nat>)
    requires forall i :: i in near ==> i < |country|
  {
    if countryKnown then Narrow(near, country) else set i | i in near && country[i].isDefault
  }

  /**
   `asn+country` from an all-white mask chooses by network and then by country among those,
   exactly when the client's country is known or the first stage left no grey address with a
   default country. Such addresses come back, and nothing else goes wrong.
   */
  lemma {:induction false} CascadeIff(asn: seq<Area>, country: seq<Area>, asnKnown: bool, countryKnown: bool)
    requires |asn| == |country|
    ensures var start := seq(|asn|, _ => White);
            var first := Stage(start, asn, asnKnown);
            var second := Stage(first, country, countryKnown);
            && WhiteSet(first) == Cascade(WhiteSet(start), asn, asnKnown)
            && (WhiteSet(second) == Cascade(WhiteSet(first), country, countryKnown) <==>
                  (countryKnown || forall i :: 0 <= i < |first| && first[i].Grey? ==> !country[i].isDefault))
            && (!countryKnown ==>
                  WhiteSet(second) == Cascade(WhiteSet(first), country, false)
                                      + set i | 0 <= i < |first| && first[i].Grey? && country[i].isDefault)
  {
    var start := seq(|asn|, _ => White);
    var first := Stage(start, asn, asnKnown);
    KnownStageNarrows(start, asn);
    UnknownStageDefaults(start, asn);
    KnownStageNarrows(first, country);
    UnknownStageDefaults(first, country);
    if !countryKnown {
      var second := Stage(first, country, false);
      forall i | 0 <= i < |first| && first[i].Grey? && country[i].isDefault
        ensures i in WhiteSet(second) && i !in WhiteSet(first)
      {
      }
    }
  }

  /** Two addresses, one of them in the client's network and the other of any country: the other comes back. */
  lemma {:induction false} GreyComesBack()
    ensures var asn, country := [Area(true, false), Area(false, false)], [Area(false, false), Area(false, true)];
            var first := Stage([White, White], asn, true);
            first == [White, Grey] && Stage(first, country, false) == [Black, White]
  {
    var asn, mask := [Area(true, false), Area(false, false)], [White, White];
    assert SomePass(mask, asn) by { assert mask[0].White? && asn[0].matches; }
    assert Stage(mask, asn, true) == [White, Grey];
  }
}
