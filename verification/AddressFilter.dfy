/**
 `filter` and `orderIps` of internal/handler/handler.go:437-565: narrow an address set by
 geography, choose where to start, and answer with one address or with all of them rotated.
 `now` is the clock's nanosecond reading.
 */
module AddressFilter {
  import opened Wrappers
  import opened Masks
  import opened Geotools
  import opened Selections

  datatype FilterConfig = FilterConfig(count: string, order: string, geoFilter: string)

  datatype IpRRSet = IpRRSet(ttl: nat, config: FilterConfig, data: seq<IpRecord>)

  // ----- Choosing where to start -----

  function Sum(ws: seq<int>): (n: int) {
    if ws == [] then 0 else Sum(ws[..|ws| - 1]) + ws[|ws| - 1]
  }

  /** The first position at or after `p` whose running total of weights exceeds `s`. */
  function WeightedPick(ws: seq<int>, s: int, p: nat): (q: nat)
    requires s < Sum(ws) && p < |ws|
    ensures p <= q < |ws| && s < Sum(ws[..q + 1])
    ensures forall k :: p < k <= q ==> Sum(ws[..k]) <= s
    decreases |ws| - p
  {
    if s < Sum(ws[..p + 1]) then p
    else
      assert ws[..|ws|] == ws;
      WeightedPick(ws, s, p + 1)
  }

  predicate InRange(indices: seq<nat>, n: nat) {
    forall k :: 0 <= k < |indices| ==> indices[k] < n
  }

  lemma {:induction false} WhitesInRange(mask: seq<Mask>)
    ensures InRange(Whites(mask), |mask|)
  {
    var w := Whites(mask);
    assert forall k :: 0 <= k < |w| ==> w[k] in w;
  }

  function WeightsOf(data: seq<IpRecord>, indices: seq<nat>): (ws: seq<int>)
    requires InRange(indices, |data|)
    ensures |ws| == |indices|
  {
    seq(|indices|, p requires 0 <= p < |indices| => data[indices[p]].weight)
  }

  /** The weights of the white addresses, in order. */
  function WhiteWeights(data: seq<IpRecord>, mask: seq<Mask>): (ws: seq<int>)
    requires |mask| == |data|
    ensures |ws| == |Whites(mask)|
  {
    WhitesInRange(mask);
    WeightsOf(data, Whites(mask))
  }

  /** The position, among the white addresses, of the one answered first. */
  function StartPosition(ws: seq<int>, order: string, now: nat): (p: nat)
    requires ws != []
    ensures p < |ws|
  {
    var sum := Sum(ws);
    if order == "weighted" && sum > 0 then WeightedPick(ws, now % sum, 0)
    else if order == "rr" || (order == "weighted" && sum == 0) then now % |ws|
    else 0
  }

  function Addresses(data: seq<IpRecord>, indices: seq<nat>): (r: seq<Ip>)
    requires InRange(indices, |data|)
  {
    seq(|indices|, k requires 0 <= k < |indices| => data[indices[k]].ip)
  }

  function Rotate<T>(s: seq<T>, p: nat): (r: seq<T>)
    requires p <= |s|
    ensures |r| == |s| && forall k :: 0 <= k < |s| ==> r[k] == s[if k < |s| - p then k + p else k - (|s| - p)]
  {
    s[p..] + s[..p]
  }

  /** The position of the first answer for a set, its mask and the clock. */
  function Start(rrset: IpRRSet, mask: seq<Mask>, now: nat): (p: nat)
    requires |mask| == |rrset.data| && Whites(mask) != []
    ensures p < |Whites(mask)|
  {
    StartPosition(WhiteWeights(rrset.data, mask), rrset.config.order, now)
  }

  /** The address answered first. */
  function Chosen(rrset: IpRRSet, mask: seq<Mask>, now: nat): (i: nat)
    requires |mask| == |rrset.data| && Whites(mask) != []
    ensures i < |mask| && mask[i].White?
  {
    var i := Whites(mask)[Start(rrset, mask, now)];
    assert i in Whites(mask);
    i
  }

  /** What `orderIps` answers. */
  function Ordered(rrset: IpRRSet, mask: seq<Mask>, now: nat): (r: seq<Ip>)
    requires |mask| == |rrset.data|
  {
    var whites := Whites(mask);
    if whites == [] then []
    else if rrset.config.count == "single" then [rrset.data[Chosen(rrset, mask, now)].ip]
    else
      WhitesInRange(mask);
      Addresses(rrset.data, Rotate(whites, Start(rrset, mask, now)))
  }

  lemma {:induction false} SumNext(ws: seq<int>, p: nat)
    requires p < |ws|
    ensures Sum(ws[..p + 1]) == Sum(ws[..p]) + ws[p]
  {
    assert ws[..p + 1][..p] == ws[..p];
  }

  /** handler.go:500-507. */
  method CountWhites(data: seq<IpRecord>, mask: seq<Mask>) returns (sum: int, count: nat)
    requires |mask| == |data|
    ensures count == |Whites(mask)| && sum == Sum(WhiteWeights(data, mask))
  {
    hide Whites;
    sum, count := 0, 0;
    ghost var ws := WhiteWeights(data, mask);
    RankEnds(mask);
    for i := 0 to |mask|
      invariant count == Rank(mask, i) <= |ws| && sum == Sum(ws[..count])
    {
      RankNext(mask, i);
      if mask[i].White? {
        SumNext(ws, count);
        count := count + 1;
        sum := sum + data[i].weight;
      }
    }
    assert ws[..|ws|] == ws;
  }

  /** No running total up to position `p` exceeds `residue`. */
  ghost predicate NotYet(ws: seq<int>, residue: int, p: nat)
    requires p <= |ws|
  {
    forall k :: 0 < k <= p ==> Sum(ws[..k]) <= residue
  }

  /** Passing one white address adds its weight to the running total. */
  lemma {:induction false} WeightedStep(data: seq<IpRecord>, mask: seq<Mask>, i: nat, residue: nat)
    requires |mask| == |data| && i < |mask| && mask[i].White?
    requires var ws := WhiteWeights(data, mask);
             Rank(mask, i) <= |ws| && NotYet(ws, residue, Rank(mask, i)) && residue < Sum(ws)
    ensures var ws := WhiteWeights(data, mask);
            var p := Rank(mask, i);
            && p < |ws| && Rank(mask, i + 1) == p + 1
            && Sum(ws[..p + 1]) == Sum(ws[..p]) + data[i].weight
            && Whites(mask)[p] == i
            && if residue < Sum(ws[..p + 1]) then WeightedPick(ws, residue, 0) == p else NotYet(ws, residue, p + 1)
  {
    var ws := WhiteWeights(data, mask);
    var p := Rank(mask, i);
    hide Whites, Rank, Sum, WhiteWeights, WeightedPick;
    RankNext(mask, i);
    assert ws[p] == data[i].weight by { RankWeight(data, mask, p); }
    SumNext(ws, p);
    if residue < Sum(ws[..p + 1]) { PickIs(ws, residue, p); }
  }

  /** handler.go:516-525, from the residue of the clock. */
  method WeightedIndex(data: seq<IpRecord>, mask: seq<Mask>, residue: nat) returns (index: int)
    requires |mask| == |data| && residue < Sum(WhiteWeights(data, mask))
    ensures var ws := WhiteWeights(data, mask);
            ws != [] && index == Whites(mask)[WeightedPick(ws, residue, 0)]
  {
    index := -1;
    ghost var ws := WhiteWeights(data, mask);
    var s: int := residue;
    RankEnds(mask);
    assert ws[..|ws|] == ws && Sum(ws[..0]) == 0;
    assert NotYet(ws, residue, 0);
    hide Sum, WeightedPick, Whites, WhiteWeights, NotYet, Rank;
    var i := 0;
    while i < |mask|
      invariant i <= |mask| && Rank(mask, i) <= |ws|
      invariant s == residue - Sum(ws[..Rank(mask, i)]) && 0 <= s
      invariant NotYet(ws, residue, Rank(mask, i))
    {
      RankNext(mask, i);
      if mask[i].White? {
        WeightedStep(data, mask, i, residue);
        s := s - data[i].weight;
        if s < 0 {
          index := i;
          return;
        }
      }
      i := i + 1;
    }
    assert false;
  }

  /** handler.go:527-536. */
  method RoundRobinIndex(mask: seq<Mask>, count: nat, now: nat) returns (index: int)
    requires count == |Whites(mask)| > 0
    ensures index == Whites(mask)[now % count]
  {
    hide Whites;
    index := -1;
    var r := now % count;
    RankEnds(mask);
    var i := 0;
    while i < |mask|
      invariant i <= |mask| && 0 <= r == now % count - Rank(mask, i)
    {
      RankNext(mask, i);
      if mask[i].White? {
        if r == 0 {
          index := i;
          return;
        }
        r := r - 1;
      }
      i := i + 1;
    }
    assert false;
  }

  /** handler.go:538-543. */
  method FirstIndex(mask: seq<Mask>) returns (index: int)
    requires Whites(mask) != []
    ensures index == Whites(mask)[0]
  {
    hide Whites;
    index := -1;
    RankEnds(mask);
    var i := 0;
    while i < |mask|
      invariant i <= |mask| && Rank(mask, i) == 0
    {
      RankNext(mask, i);
      if mask[i].White? {
        index := i;
        return;
      }
      i := i + 1;
    }
    assert false;
  }

  lemma {:induction false} PickIs(ws: seq<int>, s: int, p: nat)
    requires p < |ws| && s < Sum(ws) && s < Sum(ws[..p + 1])
    requires forall k :: 0 < k <= p ==> Sum(ws[..k]) <= s
    ensures WeightedPick(ws, s, 0) == p
  {
    hide Sum;
    var q := WeightedPick(ws, s, 0);
    if q < p {
      assert false;
    }
  }

  /** handler.go:499. */
  method OrderIps(rrset: IpRRSet, mask: seq<Mask>, now: nat) returns (result: seq<Ip>)
    requires |mask| == |rrset.data|
    ensures result == Ordered(rrset, mask, now)
  {
    hide Whites;
    var sum, count := CountWhites(rrset.data, mask);
    result := [];
    if count == 0 { return; }
    var index: int;
    if rrset.config.order == "weighted" && sum > 0 {
      index := WeightedIndex(rrset.data, mask, now % sum);
    } else if rrset.config.order == "rr" || (rrset.config.order == "weighted" && sum == 0) {
      index := RoundRobinIndex(mask, count, now);
    } else {
      index := FirstIndex(mask);
    }
    WhitesInRange(mask);
    if rrset.config.count == "single" {
      result := [rrset.data[index].ip];
    } else {
      result := RotateFrom(rrset.data, mask, index, Start(rrset, mask, now));
    }
  }

  lemma {:induction false} AddressesNext(data: seq<IpRecord>, order: seq<nat>, i: nat)
    requires InRange(order, |data|) && i < |data|
    ensures InRange(order + [i], |data|) && Addresses(data, order + [i]) == Addresses(data, order) + [data[i].ip]
  {
  }

  /** handler.go:554-564. */
  method RotateFrom(data: seq<IpRecord>, mask: seq<Mask>, index: nat, ghost p: nat) returns (result: seq<Ip>)
    requires |mask| == |data| && p < |Whites(mask)| && index == Whites(mask)[p]
    requires InRange(Whites(mask), |data|)
    ensures result == Addresses(data, Rotate(Whites(mask), p))
  {
    hide Whites, Addresses, InRange;
    result := [];
    RankEnds(mask);
    RankOfWhite(mask, p);
    ghost var whites := Whites(mask);
    ghost var order: seq<nat> := [];
    assert InRange(order, |data|) && result == Addresses(data, order) by { NoAddresses(data); }
    for i := index to |mask|
      invariant p <= Rank(mask, i) <= |whites| && order == whites[p..Rank(mask, i)]
      invariant InRange(order, |data|) && result == Addresses(data, order)
    {
      RankNext(mask, i);
      if mask[i].White? {
        result := result + [data[i].ip];
        AddressesNext(data, order, i);
        order := order + [i];
      }
    }
    for i := 0 to index
      invariant Rank(mask, i) <= |whites| && order == whites[p..] + whites[..Rank(mask, i)]
      invariant InRange(order, |data|) && result == Addresses(data, order)
    {
      RankNext(mask, i);
      if mask[i].White? {
        result := result + [data[i].ip];
        AddressesNext(data, order, i);
        order := order + [i];
      }
    }
  }

  lemma {:induction false} NoAddresses(data: seq<IpRecord>)
    ensures InRange([], |data|) && Addresses(data, []) == []
  {
  }

  // ----- The choice is exact -----

  lemma {:induction false} SumMonotone(ws: seq<int>, j: nat, k: nat)
    requires j <= k <= |ws| && forall i :: 0 <= i < |ws| ==> ws[i] >= 0
    ensures Sum(ws[..j]) <= Sum(ws[..k])
    decreases k
  {
    if j < k {
      SumMonotone(ws, j, k - 1);
      SumNext(ws, k - 1);
    }
  }

  /** With nonnegative weights the residues that pick a position are an interval as long as its weight. */
  lemma {:induction false} PickInterval(ws: seq<int>, s: int, p: nat)
    requires p < |ws| && 0 <= s < Sum(ws) && forall i :: 0 <= i < |ws| ==> ws[i] >= 0
    ensures WeightedPick(ws, s, 0) == p <==> Sum(ws[..p]) <= s < Sum(ws[..p + 1])
  {
    var q := WeightedPick(ws, s, 0);
    assert Sum(ws[..0]) == 0;
    if q < p { SumMonotone(ws, q + 1, p); }
    if p < q { SumMonotone(ws, p + 1, q); }
  }

  predicate Within(a: nat, s: nat, b: nat) { a <= s < b }

  ghost function Interval(a: nat, b: nat): (r: set<nat>) { set s: nat | s < b && Within(a, s, b) }

  lemma {:induction false} IntervalSize(a: nat, b: nat)
    requires a <= b
    ensures |Interval(a, b)| == b - a
    decreases b
  {
    if a < b {
      IntervalSize(a, b - 1);
      assert Within(a, b - 1, b);
      assert Interval(a, b) == Interval(a, b - 1) + {b - 1};
    } else {
      assert Interval(a, b) == {};
    }
  }

  /** The residues of the clock on which address `i` is answered first. */
  ghost function Residues(rrset: IpRRSet, mask: seq<Mask>, i: nat, n: nat): (r: set<nat>)
    requires |mask| == |rrset.data| && Whites(mask) != []
  {
    set s: nat | s < n && Chosen(rrset, mask, s) == i
  }

  /**
   Weighted order picks each address on exactly as many of the `sum` residues of the clock as
   its weight says, so an address of weight zero is never first.
   */
  lemma {:induction false} WeightedChoiceIsExact(rrset: IpRRSet, mask: seq<Mask>, i: nat)
    requires |mask| == |rrset.data| && i < |mask| && mask[i].White? && rrset.config.order == "weighted"
    requires forall k :: 0 <= k < |mask| && mask[k].White? ==> rrset.data[k].weight >= 0
    requires Sum(WhiteWeights(rrset.data, mask)) > 0
    ensures var sum := Sum(WhiteWeights(rrset.data, mask));
            Whites(mask) != []
            && |Residues(rrset, mask, i, sum)| == rrset.data[i].weight
  {
    var ws := WhiteWeights(rrset.data, mask);
    var p := Rank(mask, i);
    RankNext(mask, i);
    WhitesNonnegative(rrset.data, mask);
    hide Whites, WhiteWeights, Sum, WeightedPick;
    SumNext(ws, p);
    TotalsOrdered(ws, p);
    var lo, hi := Sum(ws[..p]), Sum(ws[..p + 1]);
    var sum := Sum(ws);
    assert ws[p] == rrset.data[i].weight by { RankWeight(rrset.data, mask, p); }
    forall s: nat ensures s in Residues(rrset, mask, i, sum) <==> s in Interval(lo, hi) {
      if s < sum { ChosenOnResidue(rrset, mask, s, p); }
    }
    assert Residues(rrset, mask, i, sum) == Interval(lo, hi);
    IntervalSize(lo, hi);
  }

  lemma {:induction false} RankWeight(data: seq<IpRecord>, mask: seq<Mask>, p: nat)
    requires |mask| == |data| && p < |Whites(mask)|
    ensures Whites(mask)[p] < |data| && WhiteWeights(data, mask)[p] == data[Whites(mask)[p]].weight
  {
    WhitesInRange(mask);
  }

  lemma {:induction false} TotalsOrdered(ws: seq<int>, p: nat)
    requires p < |ws| && forall i :: 0 <= i < |ws| ==> ws[i] >= 0
    ensures 0 <= Sum(ws[..p]) && Sum(ws[..p + 1]) <= Sum(ws)
  {
    assert Sum(ws[..0]) == 0 && ws[..|ws|] == ws;
    SumMonotone(ws, 0, p);
    SumMonotone(ws, p + 1, |ws|);
  }

  lemma {:induction false} ChosenOnResidue(rrset: IpRRSet, mask: seq<Mask>, s: nat, p: nat)
    requires |mask| == |rrset.data| && p < |Whites(mask)| && rrset.config.order == "weighted"
    requires forall k :: 0 <= k < |Whites(mask)| ==> WhiteWeights(rrset.data, mask)[k] >= 0
    requires s < Sum(WhiteWeights(rrset.data, mask))
    ensures var ws := WhiteWeights(rrset.data, mask);
            Chosen(rrset, mask, s) == Whites(mask)[p] <==> Sum(ws[..p]) <= s < Sum(ws[..p + 1])
  {
    hide Whites, WhiteWeights, Sum;
    var ws := WhiteWeights(rrset.data, mask);
    var sum := Sum(ws);
    PickInterval(ws, s, p);
    SmallModulus(s, sum);
    hide WeightedPick;
    WhiteInjectiveAt(mask, p, WeightedPick(ws, s, 0));
  }

  lemma {:induction false} SmallModulus(s: nat, n: nat)
    requires s < n
    ensures s % n == s
  {
  }

  lemma {:induction false} WhiteInjectiveAt(mask: seq<Mask>, p: nat, q: nat)
    requires p < |Whites(mask)| && q < |Whites(mask)|
    ensures Whites(mask)[p] == Whites(mask)[q] <==> p == q
  {
  }

  lemma {:induction false} WhitesNonnegative(data: seq<IpRecord>, mask: seq<Mask>)
    requires |mask| == |data| && forall k :: 0 <= k < |mask| && mask[k].White? ==> data[k].weight >= 0
    ensures forall p :: 0 <= p < |Whites(mask)| ==> WhiteWeights(data, mask)[p] >= 0
  {
    var whites := Whites(mask);
    forall p | 0 <= p < |whites| ensures WhiteWeights(data, mask)[p] >= 0 {
      assert whites[p] in whites;
    }
  }

  /** Round robin, and weighted order when every weight cancels, picks each white address on one residue. */
  lemma {:induction false} RoundRobinIsBijection(rrset: IpRRSet, mask: seq<Mask>, i: nat)
    requires |mask| == |rrset.data| && i < |mask| && mask[i].White?
    requires rrset.config.order == "rr" ||
             (rrset.config.order == "weighted" && Sum(WhiteWeights(rrset.data, mask)) == 0)
    ensures Rank(mask, i) < |Whites(mask)|
    ensures forall r: nat :: r < |Whites(mask)| ==> (Chosen(rrset, mask, r) == i <==> r == Rank(mask, i))
  {
    hide Whites, WhiteWeights, Sum, Rank;
    RankNext(mask, i);
    var n := |Whites(mask)|;
    forall r: nat | r < n ensures Chosen(rrset, mask, r) == i <==> r == Rank(mask, i) {
      assert r % n == r;
      WhiteInjectiveAt(mask, r, Rank(mask, i));
    }
  }

  lemma {:induction false} RotatePermutes<T>(s: seq<T>, p: nat)
    requires p <= |s|
    ensures multiset(Rotate(s, p)) == multiset(s)
  {
    assert s == s[..p] + s[p..];
  }

  /** `order` lists the white indices, each once, going up from `start` and around. */
  ghost predicate CyclicFrom(mask: seq<Mask>, order: seq<nat>, start: nat) {
    && multiset(order) == multiset(Whites(mask))
    && order != [] && order[0] == start
    && forall a, b :: 0 <= a < b < |order| ==>
         (order[a] < order[b] <==> (order[a] >= start <==> order[b] >= start))
  }

  lemma {:induction false} RotationIsCyclic(mask: seq<Mask>, p: nat)
    requires p < |Whites(mask)|
    ensures CyclicFrom(mask, Rotate(Whites(mask), p), Whites(mask)[p])
  {
    var whites := Whites(mask);
    RotatePermutes(whites, p);
    assert forall i, j :: 0 <= i < j < |whites| ==> whites[i] < whites[j];
    hide Whites;
  }

  /**
   The answer: nothing when no address is white; one white address, the chosen one; or the
   addresses of the white indices, each once, in mask order from the chosen one and around.
   */
  lemma {:induction false} AnswerIsRotation(rrset: IpRRSet, mask: seq<Mask>, now: nat)
    requires |mask| == |rrset.data|
    ensures SomeWhite(mask) <==> Whites(mask) != []
    ensures !SomeWhite(mask) ==> Ordered(rrset, mask, now) == []
    ensures SomeWhite(mask) && rrset.config.count == "single" ==>
              Ordered(rrset, mask, now) == [rrset.data[Chosen(rrset, mask, now)].ip]
    ensures SomeWhite(mask) && rrset.config.count != "single" ==>
              exists order: seq<nat> ::
                && CyclicFrom(mask, order, Chosen(rrset, mask, now))
                && InRange(order, |rrset.data|) && Ordered(rrset, mask, now) == Addresses(rrset.data, order)
  {
    WhitesInRange(mask);
    WhitesNonempty(mask);
    hide Whites, Sum, StartPosition;
    if Whites(mask) != [] {
      RotationIsCyclic(mask, Start(rrset, mask, now));
    }
  }

  lemma {:induction false} WhitesNonempty(mask: seq<Mask>)
    ensures SomeWhite(mask) <==> Whites(mask) != []
  {
    var whites := Whites(mask);
    if whites != [] { assert whites[0] in whites; }
    if i :| 0 <= i < |mask| && mask[i].White? { assert i in whites; }
  }

  // ----- filter -----

  /** What the geographic database says of the client; `distance` is measured from it. */
  datatype Geo = Geo(asn: Result<nat>, country: Result<string>, located: bool, distance: Ip -> real)

  function ByAsn(geo: Geo, data: seq<IpRecord>, mask: seq<Mask>): (r: seq<Mask>)
    requires |mask| == |data|
    ensures |r| == |mask|
  {
    if geo.asn.Err? then mask else Stage(mask, AsnAreas(data, geo.asn.value), geo.asn.value != 0)
  }

  function ByCountry(geo: Geo, data: seq<IpRecord>, mask: seq<Mask>): (r: seq<Mask>)
    requires |mask| == |data|
    ensures |r| == |mask|
  {
    if geo.country.Err? then mask else Stage(mask, CountryAreas(data, geo.country.value), geo.country.value != "")
  }

  function Distances(geo: Geo, data: seq<IpRecord>): (d: seq<real>)
    ensures |d| == |data|
  {
    seq(|data|, i requires 0 <= i < |data| => geo.distance(data[i].ip))
  }

  function FilterMask(geo: Geo, rrset: IpRRSet): (mask: seq<Mask>)
    ensures |mask| == |rrset.data|
  {
    var data, start := rrset.data, seq(|rrset.data|, _ => White);
    match rrset.config.geoFilter
    case "asn" => ByAsn(geo, data, start)
    case "country" => ByCountry(geo, data, start)
    case "asn+country" => ByCountry(geo, data, ByAsn(geo, data, start))
    case "location" => if geo.located then Nearest(Distances(geo, data)) else start
    case _ => start
  }

  function FilterIps(geo: Geo, rrset: IpRRSet, now: nat): (r: seq<Ip>) {
    Ordered(rrset, FilterMask(geo, rrset), now)
  }

  /** handler.go:437. */
  method Filter(geo: Geo, rrset: IpRRSet, now: nat) returns (ips: seq<Ip>)
    ensures ips == FilterIps(geo, rrset, now)
  {
    var mask := new Mask[|rrset.data|](_ => White);
    assert mask[..] == seq(|rrset.data|, _ => White);
    match rrset.config.geoFilter {
      case "asn" =>
        GetSameASN(geo.asn, rrset.data, mask);
      case "country" =>
        GetSameCountry(geo.country, rrset.data, mask);
      case "asn+country" =>
        GetSameASN(geo.asn, rrset.data, mask);
        GetSameCountry(geo.country, rrset.data, mask);
      case "location" =>
        GetMinimumDistance(geo.located, Distances(geo, rrset.data), mask);
      case _ =>
    }
    ips := OrderIps(rrset, mask[..], now);
  }

  /** With `asn+country`, an address the first stage rejects outright is never answered, wherever the client is. */
  lemma {:induction false} RejectedStaysRejected(geo: Geo, rrset: IpRRSet, i: nat)
    requires rrset.config.geoFilter == "asn+country" && i < |rrset.data|
    requires ByAsn(geo, rrset.data, seq(|rrset.data|, _ => White))[i].Black?
    ensures FilterMask(geo, rrset)[i].Black? && i !in Whites(FilterMask(geo, rrset))
  {
    var first := ByAsn(geo, rrset.data, seq(|rrset.data|, _ => White));
    if geo.country.Ok? {
      BlackStaysBlack(first, CountryAreas(rrset.data, geo.country.value), geo.country.value != "", i);
    }
    hide Stage;
  }

  // ----- Which addresses a filter leaves, from the addresses themselves -----

  /** All addresses of a set, by position. */
  ghost function Everyone(data: seq<IpRecord>): (all: set<nat>) { set i: nat | i < |data| && IsPosition(data, i) }

  predicate IsPosition(data: seq<IpRecord>, i: nat) { i < |data| }

  /** Of `among`, those that list the country, or failing any, those for every country. */
  ghost function InCountry(data: seq<IpRecord>, among: set<nat>, country: string): (near: set<nat>)
    requires among <= Everyone(data)
  {
    if exists i :: i in among && country in data[i].country then set i | i in among && country in data[i].country
    else AnyCountry(data, among)
  }

  ghost function AnyCountry(data: seq<IpRecord>, among: set<nat>): (near: set<nat>)
    requires among <= Everyone(data)
  {
    set i | i in among && (data[i].country == [] || "" in data[i].country)
  }

  /** Of `among`, those that list the network, or failing any, those for every network. */
  ghost function InNetwork(data: seq<IpRecord>, among: set<nat>, asn: nat): (near: set<nat>)
    requires among <= Everyone(data)
  {
    if exists i :: i in among && asn in data[i].asn then set i | i in among && asn in data[i].asn
    else AnyNetwork(data, among)
  }

  ghost function AnyNetwork(data: seq<IpRecord>, among: set<nat>): (near: set<nat>)
    requires among <= Everyone(data)
  {
    set i | i in among && (data[i].asn == [] || 0 in data[i].asn)
  }

  /** What `asn` leaves: all if the lookup failed, those for every network if it knew none. */
  ghost function ChosenByAsn(geo: Geo, data: seq<IpRecord>): (near: set<nat>) {
    var all := Everyone(data);
    if geo.asn.Err? then all
    else if geo.asn.value == 0 then AnyNetwork(data, all)
    else InNetwork(data, all, geo.asn.value)
  }

  ghost function ChosenByCountry(geo: Geo, data: seq<IpRecord>): (near: set<nat>) {
    var all := Everyone(data);
    if geo.country.Err? then all
    else if geo.country.value == "" then AnyCountry(data, all)
    else InCountry(data, all, geo.country.value)
  }

  /** Some address lists the client's network, so that the first stage turns the others grey and not black. */
  ghost predicate NetworkListed(geo: Geo, data: seq<IpRecord>) {
    geo.asn.Ok? && geo.asn.value != 0 && exists i :: 0 <= i < |data| && geo.asn.value in data[i].asn
  }

  /**
   What `asn+country` leaves: the second choice is made among those the first left, except that for
   a client of unknown country the grey addresses take part again.
   */
  ghost function ChosenByBoth(geo: Geo, data: seq<IpRecord>): (near: set<nat>) {
    var first := ChosenByAsn(geo, data);
    if geo.country.Err? then first
    else if geo.country.value != "" then InCountry(data, first, geo.country.value)
    else if NetworkListed(geo, data) then AnyCountry(data, Everyone(data))
    else AnyCountry(data, first)
  }

  function DistanceTo(geo: Geo, data: seq<IpRecord>, i: nat): (d: real)
    requires i < |data|
  {
    geo.distance(data[i].ip)
  }

  /** What `location` leaves: those no farther than any other, unless none is near enough to count. */
  ghost function ChosenByLocation(geo: Geo, data: seq<IpRecord>): (near: set<nat>) {
    if geo.located && exists k :: 0 <= k < |data| && DistanceTo(geo, data, k) <= 1000.0 then
      set i | 0 <= i < |data| && forall k :: 0 <= k < |data| ==> DistanceTo(geo, data, i) <= DistanceTo(geo, data, k)
    else Everyone(data)
  }

  lemma {:induction false} AsnStage(data: seq<IpRecord>, mask: seq<Mask>, asn: nat)
    requires |mask| == |data|
    ensures WhiteSet(mask) <= Everyone(data)
    ensures asn != 0 ==> WhiteSet(Stage(mask, AsnAreas(data, asn), true)) == InNetwork(data, WhiteSet(mask), asn)
    ensures asn == 0 && (forall i :: 0 <= i < |mask| ==> mask[i].White?) ==>
              WhiteSet(Stage(mask, AsnAreas(data, asn), false)) == AnyNetwork(data, Everyone(data))
  {
    KnownStageNarrows(mask, AsnAreas(data, asn));
    UnknownStageDefaults(mask, AsnAreas(data, asn));
    hide Stage;
  }

  lemma {:induction false} CountryStage(data: seq<IpRecord>, mask: seq<Mask>, country: string)
    requires |mask| == |data|
    ensures WhiteSet(mask) <= Everyone(data)
    ensures country != "" ==>
              WhiteSet(Stage(mask, CountryAreas(data, country), true)) == InCountry(data, WhiteSet(mask), country)
    ensures country == "" ==>
              WhiteSet(Stage(mask, CountryAreas(data, country), false))
                == AnyCountry(data, set i | 0 <= i < |mask| && !mask[i].Black?)
  {
    KnownStageNarrows(mask, CountryAreas(data, country));
    UnknownStageDefaults(mask, CountryAreas(data, country));
    hide Stage;
  }

  lemma {:induction false} AllWhite(data: seq<IpRecord>)
    ensures WhiteSet(seq(|data|, _ => White)) == Everyone(data)
    ensures var start := seq(|data|, _ => White); (set i | 0 <= i < |start| && !start[i].Black?) == Everyone(data)
  {
    var start := seq(|data|, _ => White);
    assert forall i: nat :: i < |data| ==> start[i].White? && IsPosition(data, i);
  }

  lemma {:induction false} ByAsnChooses(geo: Geo, data: seq<IpRecord>)
    ensures WhiteSet(ByAsn(geo, data, seq(|data|, _ => White))) == ChosenByAsn(geo, data)
  {
    AllWhite(data);
    if geo.asn.Ok? { AsnStage(data, seq(|data|, _ => White), geo.asn.value); }
    hide Stage, AsnAreas, InNetwork, AnyNetwork;
  }

  lemma {:induction false} ByCountryChooses(geo: Geo, data: seq<IpRecord>)
    ensures WhiteSet(ByCountry(geo, data, seq(|data|, _ => White))) == ChosenByCountry(geo, data)
  {
    AllWhite(data);
    if geo.country.Ok? { CountryStage(data, seq(|data|, _ => White), geo.country.value); }
    hide Stage, CountryAreas, InCountry, AnyCountry;
  }

  /** After the first stage every address that is not white is black, unless the network is listed; then none is. */
  lemma {:induction false} GreyAfterAsn(geo: Geo, data: seq<IpRecord>)
    ensures var first := ByAsn(geo, data, seq(|data|, _ => White));
            (set i | 0 <= i < |data| && !first[i].Black?)
              == if NetworkListed(geo, data) then Everyone(data) else WhiteSet(first)
  {
    var start := seq(|data|, _ => White);
    if geo.asn.Ok? {
      var areas := AsnAreas(data, geo.asn.value);
      assert SomePass(start, areas) <==> exists i :: 0 <= i < |data| && geo.asn.value in data[i].asn by {
        if i :| 0 <= i < |data| && geo.asn.value in data[i].asn { assert start[i].White? && areas[i].matches; }
      }
    }
  }

  lemma {:induction false} ByBothChooses(geo: Geo, data: seq<IpRecord>)
    ensures WhiteSet(ByCountry(geo, data, ByAsn(geo, data, seq(|data|, _ => White)))) == ChosenByBoth(geo, data)
  {
    var first := ByAsn(geo, data, seq(|data|, _ => White));
    ByAsnChooses(geo, data);
    GreyAfterAsn(geo, data);
    hide ByAsn, Stage, CountryAreas, InCountry, AnyCountry, ChosenByAsn, WhiteSet, Everyone;
    if geo.country.Ok? { CountryStage(data, first, geo.country.value); }
    hide NetworkListed;
  }

  lemma {:induction false} NearestChooses(geo: Geo, data: seq<IpRecord>)
    requires geo.located
    ensures WhiteSet(Nearest(Distances(geo, data))) == ChosenByLocation(geo, data)
  {
    var dist := Distances(geo, data);
    assert forall i :: 0 <= i < |data| ==> dist[i] == DistanceTo(geo, data, i);
  }

  /** The addresses each filter leaves to choose from, for every client the database knows something or nothing of. */
  lemma {:induction false} FilterLeaves(geo: Geo, rrset: IpRRSet)
    ensures var data, left := rrset.data, WhiteSet(FilterMask(geo, rrset));
            match rrset.config.geoFilter
            case "asn" => left == ChosenByAsn(geo, data)
            case "country" => left == ChosenByCountry(geo, data)
            case "asn+country" => left == ChosenByBoth(geo, data)
            case "location" => left == ChosenByLocation(geo, data)
            case _ => left == Everyone(data)
  {
    hide ByAsn, ByCountry, Nearest, ChosenByAsn, ChosenByCountry, ChosenByBoth, WhiteSet, Everyone;
    var data := rrset.data;
    AllWhite(data);
    ByAsnChooses(geo, data);
    ByCountryChooses(geo, data);
    ByBothChooses(geo, data);
    if geo.located { NearestChooses(geo, data); }
  }

  /**
   `asn+country` for a client whose country is known: the addresses that list the network, or else
   those for every one, and of them those that list the country, or else those for every country.
   */
  lemma {:induction false} FilterIsCascade(geo: Geo, rrset: IpRRSet)
    requires rrset.config.geoFilter == "asn+country" && geo.asn.Ok? && geo.country.Ok? && geo.country.value != ""
    ensures var data := rrset.data;
            var near := if geo.asn.value != 0 then InNetwork(data, Everyone(data), geo.asn.value)
                        else AnyNetwork(data, Everyone(data));
            WhiteSet(FilterMask(geo, rrset)) == InCountry(data, near, geo.country.value)
  {
    hide InNetwork, InCountry, FilterMask;
    FilterLeaves(geo, rrset);
  }

  /** The white indices are the white set, in order, and the address answered first is picked from them by the clock alone. */
  lemma {:induction false} ChosenIs(rrset: IpRRSet, mask: seq<Mask>, now: nat)
    requires |mask| == |rrset.data| && Whites(mask) != []
    ensures var whites, order := Whites(mask), rrset.config.order;
            var n := |whites|;
            var total := k requires 0 <= k <= n => Sum(WhiteWeights(rrset.data, mask)[..k]);
            && Selects(whites, seq(|mask|, i requires 0 <= i < |mask| => mask[i] == White))
            && if order == "weighted" && total(n) > 0 then
                 exists p: nat :: p < n && Chosen(rrset, mask, now) == whites[p]
                   && now % total(n) < total(p + 1) && forall k :: 0 < k <= p ==> total(k) <= now % total(n)
               else if order == "rr" || (order == "weighted" && total(n) == 0) then
                 Chosen(rrset, mask, now) == whites[now % n]
               else Chosen(rrset, mask, now) == whites[0]
  {
    var ws := WhiteWeights(rrset.data, mask);
    WhitesSelected(mask);
    hide Whites, WhiteWeights, Sum, Selects;
    assert ws[..|ws|] == ws;
    if rrset.config.order == "weighted" && Sum(ws) > 0 {
      var p := WeightedPick(ws, now % Sum(ws), 0);
      assert Chosen(rrset, mask, now) == Whites(mask)[p];
    }
  }

  lemma {:induction false} WhitesSelected(mask: seq<Mask>)
    ensures Selects(Whites(mask), seq(|mask|, i requires 0 <= i < |mask| => mask[i] == White))
  {
  }
}
