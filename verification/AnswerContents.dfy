/**
 What a query is answered with, read off the store: which names the aliases lead through, whose
 set the records at the end come from, and every one of those records.
 */
module AnswerContents {
  import opened Names
  import opened Selections
  import opened ZoneIndex
  import opened Geotools
  import opened Records
  import opened Requests
  import opened QueryLoop
  import AddressFilter
  import Aname
  import Caa

  // ----- Following aliases -----

  predicate Inside(env: Env, name: string) { FindZone(env.zones, name) == env.zone.index.name }

  /** The location that answers a name, and whether one does, by itself or as a wildcard. */
  function LocationOf(env: Env, name: string): (location: string) { FindLocation(env.zone.index, name).0 }

  predicate IsFound(env: Env, name: string) { FindLocation(env.zone.index, name).1 in {ExactMatch, WildCardMatch} }

  /** A name of the zone is an alias, which this query follows to `next`. */
  predicate LeadsOn(env: Env, q: Query, name: string, next: string) {
    && Inside(env, name) && IsFound(env, name) && q.qtype != TYPE_CNAME
    && var cname := env.store.names(LocationOf(env, name), TYPE_CNAME);
       && cname.Ok? && cname.value.host != "" && (q.flatten ==> Inside(env, cname.value.host))
       && next == Fqdn(cname.value.host)
  }

  ghost predicate Follows(env: Env, q: Query, names: seq<string>) {
    names != [] && forall i :: 0 <= i < |names| - 1 ==> LeadsOn(env, q, names[i], names[i + 1])
  }

  /** A name of the zone answers for itself: it is no alias to follow and no zone cut. */
  predicate AnswersItself(env: Env, q: Query, name: string) {
    && Inside(env, name) && IsFound(env, name)
    && var cname, ns := env.store.names(LocationOf(env, name), TYPE_CNAME), env.store.items(LocationOf(env, name), TYPE_NS);
       && cname.Ok? && (cname.value.host == "" || q.qtype == TYPE_CNAME)
       && (name == env.zone.index.name || (ns.Ok? && ns.value.items == []))
  }

  /** The aliases of the names passed, each with the set that was read for it. */
  function AliasesOf(env: Env, names: seq<string>): (aliases: seq<Alias>)
    ensures |aliases| == |names|
  {
    seq(|names|, i requires 0 <= i < |names| => AliasOf(env, names[i]))
  }

  function AliasOf(env: Env, name: string): (a: Alias) {
    var cname := env.store.names(LocationOf(env, name), TYPE_CNAME);
    Alias(name, if cname.Ok? then cname.value else NameSet(0, ""))
  }

  lemma {:induction false} OneLink(env: Env, q: Query, name: string, next: string, n: nat)
    requires n > 0 && LeadsOn(env, q, name, next)
    ensures var rest := ChainFrom(env, q, next, n - 1);
            ChainFrom(env, q, name, n) == Chain(AliasesOf(env, [name]) + rest.aliases, rest.end)
  {
    hide FindZone, FindLocation, Fqdn;
    assert AliasesOf(env, [name]) == [AliasOf(env, name)];
  }

  lemma {:induction false} LinksRead(env: Env, q: Query, names: seq<string>)
    requires Follows(env, q, names)
    ensures forall i :: 0 <= i < |names| - 1 ==>
              var cname := env.store.names(LocationOf(env, names[i]), TYPE_CNAME); cname.Ok? && cname.value.host != ""
  {
    hide FindZone, FindLocation, Fqdn, LocationOf, Inside;
    forall i | 0 <= i < |names| - 1
      ensures var cname := env.store.names(LocationOf(env, names[i]), TYPE_CNAME); cname.Ok? && cname.value.host != ""
    {
      assert LeadsOn(env, q, names[i], names[i + 1]);
    }
  }

  lemma {:induction false} FollowsBehind(env: Env, q: Query, names: seq<string>)
    requires Follows(env, q, names) && |names| > 1
    ensures Follows(env, q, names[1..])
  {
    hide LeadsOn;
    var behind := names[1..];
    forall i | 0 <= i < |behind| - 1 ensures LeadsOn(env, q, behind[i], behind[i + 1]) {
      assert LeadsOn(env, q, names[i + 1], names[i + 2]);
    }
  }

  /** The chain passes through the names that are followed, and goes on from the last. */
  lemma {:induction false} ChainAlong(env: Env, q: Query, names: seq<string>, n: nat)
    requires Follows(env, q, names) && |names| <= n + 1
    ensures var k := |names| - 1;
            var rest := ChainFrom(env, q, names[k], n - k);
            ChainFrom(env, q, names[0], n) == Chain(AliasesOf(env, names[..k]) + rest.aliases, rest.end)
    decreases |names|
  {
    hide ChainFrom, LeadsOn, LocationOf;
    var k := |names| - 1;
    if k == 0 {
      assert AliasesOf(env, names[..0]) == [];
    } else {
      OneLink(env, q, names[0], names[1], n);
      var behind := names[1..];
      FollowsBehind(env, q, names);
      ChainAlong(env, q, behind, n - 1);
      assert AliasesOf(env, names[..k]) == AliasesOf(env, [names[0]]) + AliasesOf(env, behind[..k - 1]);
    }
  }

  lemma {:induction false} ChainArrives(env: Env, q: Query, name: string, n: nat)
    requires n > 0 && AnswersItself(env, q, name)
    ensures ChainFrom(env, q, name, n) == Chain([], Arrived(name, LocationOf(env, name), FindLocation(env.zone.index, name).1))
  {
    hide FindZone, FindLocation, Fqdn;
  }

  /** Aliases can be followed to a name that leads no further, or for as long as the bound allows. */
  lemma {:induction false} FollowingEnds(env: Env, q: Query, name: string, n: nat) returns (names: seq<string>)
    ensures Follows(env, q, names) && names[0] == name && |names| <= n + 1
    ensures |names| == n + 1 || LeadsNowhere(env, q, names[|names| - 1])
    decreases n
  {
    hide LeadsOn;
    names := [name];
    if n > 0 && !LeadsNowhere(env, q, name) {
      var next :| LeadsOn(env, q, name, next);
      var rest := FollowingEnds(env, q, next, n - 1);
      names := [name] + rest;
    }
  }

  ghost predicate LeadsNowhere(env: Env, q: Query, name: string) {
    forall next :: !LeadsOn(env, q, name, next)
  }

  // ----- Records shown for a set -----

  /** The alias of a name as the answer shows it. */
  ghost predicate AliasShown(env: Env, r: RR, name: string) {
    var cname := env.store.names(LocationOf(env, name), TYPE_CNAME);
    cname.Ok? && r == RR(name, TYPE_CNAME, cname.value.ttl, Target(Fqdn(cname.value.host)))
  }

  ghost predicate HostShown(records: seq<RR>, rrset: NameSet, owner: string, t: RRType) {
    records == if rrset.host == "" then [] else [RR(owner, t, rrset.ttl, Target(Fqdn(rrset.host)))]
  }

  /** The items that yield a record: texts, name servers, exchanges and services must not be empty. */
  function KeptItems(items: seq<Item>, t: RRType): (keep: seq<bool>)
    ensures |keep| == |items|
  {
    seq(|items|, i requires 0 <= i < |items| => !(t in {TYPE_TXT, TYPE_NS, TYPE_MX, TYPE_SRV} && items[i].key == ""))
  }

  /** The record of one item: its own text in pieces, its host fully qualified, or its fields. */
  ghost predicate ItemShown(r: RR, item: Item, owner: string, t: RRType, ttl: nat) {
    && r.name == owner && r.rrtype == t && r.ttl == ttl
    && if t == TYPE_TXT then
         && r.data.Strings? && Concat(r.data.txt) == item.key
         && r.data.txt != [] && |r.data.txt[|r.data.txt| - 1]| < 255
         && forall k :: 0 <= k < |r.data.txt| - 1 ==> |r.data.txt[k]| == 255
       else if t == TYPE_NS then r.data == Target(Fqdn(item.key))
       else if t == TYPE_MX || t == TYPE_SRV then r.data == Fields(Fqdn(item.key), item.rest)
       else r.data == Fields(item.key, item.rest)
  }

  ghost predicate ItemsAt(records: seq<RR>, items: seq<Item>, kept: seq<nat>, owner: string, t: RRType, ttl: nat) {
    && |records| == |kept|
    && forall j :: 0 <= j < |kept| ==> kept[j] < |items| && ItemShown(records[j], items[kept[j]], owner, t, ttl)
  }

  /** One record for each item that yields one, in order. */
  ghost predicate ItemsShown(records: seq<RR>, rrset: ItemSet, owner: string, t: RRType) {
    exists kept :: Selects(kept, KeptItems(rrset.items, t)) && ItemsAt(records, rrset.items, kept, owner, t, rrset.ttl)
  }

  function KeptAddresses(ips: seq<Ip>): (keep: seq<bool>)
    ensures |keep| == |ips|
  {
    seq(|ips|, i requires 0 <= i < |ips| => ips[i].Some?)
  }

  ghost predicate AddressesAt(records: seq<RR>, ips: seq<Ip>, kept: seq<nat>, owner: string, t: RRType, ttl: nat) {
    && |records| == |kept|
    && forall j :: 0 <= j < |kept| ==>
         kept[j] < |ips| && ips[kept[j]].Some? && records[j] == RR(owner, t, ttl, Address(ips[kept[j]].value))
  }

  /** One record for each address that is not nil, in order. */
  ghost predicate AddressesShown(records: seq<RR>, ips: seq<Ip>, owner: string, t: RRType, ttl: nat) {
    exists kept :: Selects(kept, KeptAddresses(ips)) && AddressesAt(records, ips, kept, owner, t, ttl)
  }

  lemma {:induction false} ItemDataShown(item: Item, owner: string, t: RRType, ttl: nat)
    ensures ItemShown(RR(owner, t, ttl, ItemData(t, item)), item, owner, t, ttl)
  {
    hide Fqdn, Concat, Split255;
    if t == TYPE_TXT { SplitTextRoundTrip(item.key); }
  }

  lemma {:induction false} ItemsAtNext(records: seq<RR>, items: seq<Item>, kept: seq<nat>, item: Item, r: RR,
                                       owner: string, t: RRType, ttl: nat)
    requires ItemsAt(records, items, kept, owner, t, ttl) && ItemShown(r, item, owner, t, ttl)
    ensures ItemsAt(records, items + [item], kept, owner, t, ttl)
    ensures ItemsAt(records + [r], items + [item], kept + [|items|], owner, t, ttl)
  {
    hide ItemShown;
  }

  lemma {:induction false} ItemRecordsNext(items: seq<Item>, item: Item, owner: string, t: RRType, ttl: nat)
    ensures var b := !(t in {TYPE_TXT, TYPE_NS, TYPE_MX, TYPE_SRV} && item.key == "");
            && KeptItems(items + [item], t) == KeptItems(items, t) + [b]
            && ItemRecords(items + [item], owner, t, ttl)
               == ItemRecords(items, owner, t, ttl) + if b then [RR(owner, t, ttl, ItemData(t, item))] else []
  {
    assert (items + [item])[..|items|] == items;
  }

  lemma {:induction false} ItemRecordsAt(items: seq<Item>, owner: string, t: RRType, ttl: nat) returns (kept: seq<nat>)
    ensures Selects(kept, KeptItems(items, t)) && ItemsAt(ItemRecords(items, owner, t, ttl), items, kept, owner, t, ttl)
  {
    if items == [] {
      SelectsNone();
      return [];
    }
    hide Selects, ItemsAt, KeptItems, ItemRecords, ItemShown, ItemData;
    var n := |items| - 1;
    var init, item := items[..n], items[n];
    assert items == init + [item];
    var b := !(t in {TYPE_TXT, TYPE_NS, TYPE_MX, TYPE_SRV} && item.key == "");
    kept := ItemRecordsAt(init, owner, t, ttl);
    ItemRecordsNext(init, item, owner, t, ttl);
    ItemDataShown(item, owner, t, ttl);
    ItemsAtNext(ItemRecords(init, owner, t, ttl), init, kept, item, RR(owner, t, ttl, ItemData(t, item)), owner, t, ttl);
    SelectsNext(kept, KeptItems(init, t), b);
    assert ItemRecords(init, owner, t, ttl) + [] == ItemRecords(init, owner, t, ttl);
    kept := Selected(kept, b, n);
  }

  lemma {:induction false} ItemsAreShown(rrset: ItemSet, owner: string, t: RRType)
    ensures ItemsShown(ValueOf(rrset, owner, t), rrset, owner, t)
  {
    var kept := ItemRecordsAt(rrset.items, owner, t, rrset.ttl);
    hide Selects, ItemsAt, ItemRecords;
  }

  lemma {:induction false} AddressesAtNext(records: seq<RR>, ips: seq<Ip>, kept: seq<nat>, ip: Ip,
                                           owner: string, t: RRType, ttl: nat)
    requires AddressesAt(records, ips, kept, owner, t, ttl)
    ensures AddressesAt(records, ips + [ip], kept, owner, t, ttl)
    ensures ip.Some? ==>
              AddressesAt(records + [RR(owner, t, ttl, Address(ip.value))], ips + [ip], kept + [|ips|], owner, t, ttl)
  {
  }

  lemma {:induction false} AddressRecordsNext(ips: seq<Ip>, ip: Ip, owner: string, t: RRType, ttl: nat)
    ensures KeptAddresses(ips + [ip]) == KeptAddresses(ips) + [ip.Some?]
    ensures AddressRecords(ips + [ip], owner, t, ttl)
              == AddressRecords(ips, owner, t, ttl) + if ip.Some? then [RR(owner, t, ttl, Address(ip.value))] else []
  {
    assert (ips + [ip])[..|ips|] == ips;
  }

  lemma {:induction false} AddressRecordsAt(ips: seq<Ip>, owner: string, t: RRType, ttl: nat) returns (kept: seq<nat>)
    ensures Selects(kept, KeptAddresses(ips)) && AddressesAt(AddressRecords(ips, owner, t, ttl), ips, kept, owner, t, ttl)
  {
    if ips == [] {
      SelectsNone();
      return [];
    }
    hide Selects, AddressesAt, KeptAddresses, AddressRecords;
    var n := |ips| - 1;
    var init, ip := ips[..n], ips[n];
    assert ips == init + [ip];
    kept := AddressRecordsAt(init, owner, t, ttl);
    AddressRecordsNext(init, ip, owner, t, ttl);
    AddressesAtNext(AddressRecords(init, owner, t, ttl), init, kept, ip, owner, t, ttl);
    SelectsNext(kept, KeptAddresses(init), ip.Some?);
    assert AddressRecords(init, owner, t, ttl) + [] == AddressRecords(init, owner, t, ttl);
    kept := Selected(kept, ip.Some?, n);
  }

  lemma {:induction false} AddressesAreShown(ips: seq<Ip>, owner: string, t: RRType, ttl: nat)
    ensures AddressesShown(AddressRecords(ips, owner, t, ttl), ips, owner, t, ttl)
  {
    var kept := AddressRecordsAt(ips, owner, t, ttl);
    hide Selects, AddressesAt, AddressRecords;
  }

  // ----- The records at the end of the chain -----

  /** The types that are answered at all. */
  predicate Supported(t: RRType) {
    t in {TYPE_A, TYPE_AAAA, TYPE_CNAME, TYPE_PTR, TYPE_TXT, TYPE_NS, TYPE_MX, TYPE_SRV, TYPE_TLSA, TYPE_CAA, TYPE_SOA,
          TYPE_DNSKEY, TYPE_DS}
  }

  /** The sets of the query's type that are read at the location could be. */
  predicate ReadsSucceed(env: Env, q: Query, location: string) {
    var t := q.qtype;
    if t in {TYPE_A, TYPE_AAAA} then env.store.ips(location, t).Ok? && env.store.names(location, TYPE_ANAME).Ok?
    else if t in {TYPE_CNAME, TYPE_PTR} then env.store.names(location, t).Ok?
    else if t in {TYPE_TXT, TYPE_NS, TYPE_MX, TYPE_SRV, TYPE_TLSA} then env.store.items(location, t).Ok?
    else true
  }

  /** An address query with no address at the location but an ANAME to search. */
  predicate AsksAname(env: Env, q: Query, location: string)
    requires ReadsSucceed(env, q, location)
  {
    q.qtype in {TYPE_A, TYPE_AAAA} && env.store.ips(location, q.qtype).value.data == []
    && env.store.names(location, TYPE_ANAME).value.host != ""
  }

  /** The records of a query's type at a location of the zone, as shown for `owner`. */
  ghost predicate RecordsShown(env: Env, q: Query, location: string, owner: string, records: seq<RR>)
    requires ValidEnv(env) && ReadsSucceed(env, q, location)
  {
    var t := q.qtype;
    if t in {TYPE_A, TYPE_AAAA} then
      if AsksAname(env, q, location) then
        var found := Aname.FoundAname(env, env.store.names(location, TYPE_ANAME).value.host, t);
        AddressesShown(records, found.ips, owner, t, found.ttl)
      else
        var ips := env.store.ips(location, t).value;
        var left := AddressFilter.FilterMask(env.geo, ips);
        AddressesShown(records, AddressFilter.Ordered(ips, left, env.now), owner, t, ips.ttl)
    else if t in {TYPE_CNAME, TYPE_PTR} then HostShown(records, env.store.names(location, t).value, owner, t)
    else if t in {TYPE_TXT, TYPE_NS, TYPE_MX, TYPE_SRV, TYPE_TLSA} then
      ItemsShown(records, env.store.items(location, t).value, owner, t)
    else if t == TYPE_CAA then
      var caa := Caa.FoundCaa(env, owner);
      if caa.Some? then ItemsShown(records, caa.value, owner, t) else records == []
    else if t == TYPE_SOA then records == [env.zone.soa]
    else if t == TYPE_DNSKEY then records == if env.zone.dnssec then env.zone.keys else []
    else records == []
  }

  /** The rcode, before a denial: that of the ANAME search, if there was one. */
  function Rcode(env: Env, q: Query, location: string): (rcode: nat)
    requires ReadsSucceed(env, q, location)
  {
    if AsksAname(env, q, location) then
      Aname.FoundAname(env, env.store.names(location, TYPE_ANAME).value.host, q.qtype).rcode
    else NOERROR
  }

  /**
   The record that denies a type at a name: owned by it, naming the very next name, and listing what
   such a name may have but not the type denied.
   */
  ghost predicate Denies(env: Env, r: RR, owner: string, t: RRType) {
    && r.name == owner && r.rrtype == TYPE_NSEC && r.ttl == env.zone.minTtl
    && r.data.Nsec? && r.data.next == "\\000." + owner
    && var listed := if owner == env.zone.index.name then BITMAP_APEX
                     else if t == TYPE_DS then BITMAP_SUB_DELEGATION else BITMAP_ZONE;
       forall other :: other in r.data.bitmap <==> other in listed && other != t
  }

  /** The other sections, by whether there were records, and whether denials are signed. */
  ghost predicate RestShown(env: Env, q: Query, owner: string, rcode: nat, none: bool, r: Response) {
    && r.additional == []
    && if !none then r.res == rcode && r.authority == []
       else if !q.dnssec then r.res == rcode && r.authority == if rcode == NOERROR then [env.zone.soa] else []
       else
         && r.res == (if owner == env.zone.index.name then NOERROR else rcode)
         && |r.authority| > 0 && Denies(env, r.authority[0], owner, q.qtype)
         && r.authority[1..] == if r.res == NOERROR then [env.zone.soa] else []
  }

  /** A response whose first `k` records are aliases and the others the records of a location. */
  ghost predicate AnsweredFrom(env: Env, q: Query, location: string, owner: string, k: nat, r: Response)
    requires ValidEnv(env)
  {
    k <= |r.answer| &&
    var records := r.answer[k..];
    if !ReadsSucceed(env, q, location) then
      r.res == SERVFAIL && records == [] && r.authority == [] && r.additional == []
    else
      && RecordsShown(env, q, location, owner, records)
      && RestShown(env, q, owner, Rcode(env, q, location), records == [], r)
  }

  lemma {:induction false} RecordsAreShown(env: Env, q: Query, location: string, owner: string)
    requires ValidEnv(env) && Supported(q.qtype)
    ensures var a := RecordsAt(env, q, location, owner);
            if !ReadsSucceed(env, q, location) then a.Unreadable?
            else
              && a.Found? && RecordsShown(env, q, location, owner, a.answer)
              && Rcode(env, q, location) == if a.res.Some? then a.res.value else NOERROR
  {
    hide ValidEnv, AddressesShown, ItemsShown, AddressRecords, ItemRecords, Aname.FoundAname, Caa.FoundCaa,
         AddressFilter.FilterMask, AddressFilter.Ordered;
    var t := q.qtype;
    if t in {TYPE_A, TYPE_AAAA} && ReadsSucceed(env, q, location) {
      var ips := env.store.ips(location, t).value;
      var found := Aname.FoundAname(env, env.store.names(location, TYPE_ANAME).value.host, t);
      AddressesAreShown(found.ips, owner, t, found.ttl);
      AddressesAreShown(AddressFilter.FilterIps(env.geo, ips, env.now), owner, t, ips.ttl);
    } else if t == TYPE_CAA {
      var caa := Caa.FoundCaa(env, owner);
      if caa.Some? { ItemsAreShown(caa.value, owner, t); }
    } else {
      var s := env.store.items(location, t);
      if s.Ok? { ItemsAreShown(s.value, owner, t); }
    }
  }

  lemma {:induction false} DenialShown(env: Env, q: Query, r: Response, owner: string, t: RRType)
    requires q.dnssec && r.res != NXDOMAIN && r.authority == []
    ensures var s := AddNSec(env, q, r, owner, t);
            && s.res == (if owner == env.zone.index.name then NOERROR else r.res)
            && s.answer == r.answer && s.additional == r.additional
            && |s.authority| == 1 && Denies(env, s.authority[0], owner, t)
  {
  }

  lemma {:induction false} LocationAnswers(env: Env, q: Query, aliases: seq<RR>, location: string, owner: string)
    requires ValidEnv(env) && Supported(q.qtype)
    ensures AnsweredFrom(env, q, location, owner, |aliases|,
                         AtLocation(env, q, Response(NOERROR, aliases, [], []), location, owner))
  {
    hide ValidEnv, RecordsAt, ReadsSucceed, RecordsShown, AddNSec, Denies;
    RecordsAreShown(env, q, location, owner);
    RcodeIsNoFailure(env, q, location);
    var a := RecordsAt(env, q, location, owner);
    hide Rcode;
    if a.Found? {
      var found := Response(if a.res.Some? then a.res.value else NOERROR, aliases + a.answer, [], []);
      assert found.answer[|aliases|..] == a.answer;
      if q.dnssec { DenialShown(env, q, found, owner, q.qtype); }
      else { NoDenial(env, q, found, owner); }
      assert [] + [env.zone.soa] == [env.zone.soa];
    }
  }

  lemma {:induction false} NoDenial(env: Env, q: Query, r: Response, owner: string)
    requires !q.dnssec
    ensures AddNSec(env, q, r, owner, q.qtype) == r
  {
  }

  lemma {:induction false} RcodeIsNoFailure(env: Env, q: Query, location: string)
    ensures ReadsSucceed(env, q, location) ==> Rcode(env, q, location) in {NOERROR, SERVFAIL}
  {
    hide Aname.Follow;
  }

  lemma {:induction false} AliasesShown(env: Env, names: seq<string>)
    requires forall i :: 0 <= i < |names| ==>
               var cname := env.store.names(LocationOf(env, names[i]), TYPE_CNAME); cname.Ok? && cname.value.host != ""
    ensures var records := AliasRecords(AliasesOf(env, names));
            |records| == |names| && forall i :: 0 <= i < |names| ==> AliasShown(env, records[i], names[i])
  {
    hide LocationOf, Fqdn;
    if names != [] {
      var n := |names| - 1;
      AliasesShown(env, names[..n]);
      assert AliasesOf(env, names)[..n] == AliasesOf(env, names[..n]);
    }
  }

  /** The aliases passed are shown as they are stored. */
  lemma {:induction false} PassedShown(env: Env, q: Query, names: seq<string>)
    requires Follows(env, q, names)
    ensures var k := |names| - 1;
            var records := AliasRecords(AliasesOf(env, names[..k]));
            |records| == k && forall i :: 0 <= i < k ==> AliasShown(env, records[i], names[i])
  {
    LinksRead(env, q, names);
    hide AliasRecords, AliasesOf, AliasShown, LocationOf, LeadsOn;
    var passed := names[..|names| - 1];
    AliasesShown(env, passed);
  }

  lemma {:induction false} UnsupportedAnswer(env: Env, q: Query, r: Response, location: string, owner: string)
    requires ValidEnv(env) && !Supported(q.qtype)
    ensures AtLocation(env, q, r, location, owner) == r.(res := NOERROR, answer := [], authority := [env.zone.soa])
  {
    hide ValidEnv;
  }

  lemma {:induction false} RespondsFromLocation(env: Env, q: Query, aliases: seq<Alias>, name: string)
    requires ValidEnv(env) && AnswersItself(env, q, name)
    requires ChainFrom(env, q, q.name, MAX_LOOKUPS)
               == Chain(aliases, Arrived(name, LocationOf(env, name), FindLocation(env.zone.index, name).1))
    ensures var before := if q.flatten then [] else AliasRecords(aliases);
            Answered(env, q) == AtLocation(env, q, Response(NOERROR, before, [], []), LocationOf(env, name),
                                           if q.flatten then q.name else name)
  {
    hide ValidEnv, ChainFrom, FindLocation, FindZone, AtLocation, AliasRecords;
  }

  /** Where the chain of a query arrives. */
  lemma {:induction false} ChainReached(env: Env, q: Query, names: seq<string>, n: nat)
    requires Follows(env, q, names) && |names| <= n && AnswersItself(env, q, names[|names| - 1])
    ensures var k, last := |names| - 1, names[|names| - 1];
            ChainFrom(env, q, names[0], n)
              == Chain(AliasesOf(env, names[..k]), Arrived(last, LocationOf(env, last), FindLocation(env.zone.index, last).1))
  {
    var k, last := |names| - 1, names[|names| - 1];
    var passed := AliasesOf(env, names[..k]);
    hide ChainFrom, Follows, AnswersItself, LocationOf, AliasesOf, FindLocation;
    ChainAlong(env, q, names, n);
    ChainArrives(env, q, last, n - k);
    assert passed + [] == passed;
  }

  lemma {:induction false} AnsweredAtLocation(env: Env, q: Query, names: seq<string>)
    requires ValidEnv(env) && Follows(env, q, names) && names[0] == q.name && |names| <= 11
    requires AnswersItself(env, q, names[|names| - 1])
    ensures var k := |names| - 1;
            var aliases := if q.flatten then [] else AliasRecords(AliasesOf(env, names[..k]));
            Answered(env, q) == AtLocation(env, q, Response(NOERROR, aliases, [], []), LocationOf(env, names[k]),
                                           if q.flatten then q.name else names[k])
  {
    var k, last := |names| - 1, names[|names| - 1];
    ChainReached(env, q, names, MAX_LOOKUPS);
    hide *;
    RespondsFromLocation(env, q, AliasesOf(env, names[..k]), last);
  }

  /**
   The answer to a query whose aliases lead to a name that answers for itself, within ten aliases.
   Unless the query is flattened the aliases come first, each as it is stored. Behind them are the
   records of the set of the query's type at that name's location, each as it is stored, or a
   failure if the set could not be read; and the other sections follow from that.
   */
  lemma {:induction false} AnswerIsStored(env: Env, q: Query, names: seq<string>)
    requires ValidEnv(env) && Follows(env, q, names) && names[0] == q.name && |names| <= 11
    requires AnswersItself(env, q, names[|names| - 1])
    ensures var r, last := Answered(env, q), names[|names| - 1];
            var k := if q.flatten then 0 else |names| - 1;
            if !Supported(q.qtype) then r == Response(NOERROR, [], [env.zone.soa], [])
            else
              && AnsweredFrom(env, q, LocationOf(env, last), if q.flatten then q.name else last, k, r)
              && forall i :: 0 <= i < k ==> AliasShown(env, r.answer[i], names[i])
  {
    var n, last := |names| - 1, names[|names| - 1];
    hide ValidEnv, AtLocation, AliasRecords, Answered, LocationOf, AnswersItself, Follows, Supported, AliasesOf,
         LeadsOn, RecordsShown, RestShown, ReadsSucceed, Rcode, Fqdn;
    PassedShown(env, q, names);
    AnsweredAtLocation(env, q, names);
    var owner := if q.flatten then q.name else last;
    var aliases := if q.flatten then [] else AliasRecords(AliasesOf(env, names[..n]));
    if Supported(q.qtype) {
      LocationAnswers(env, q, aliases, LocationOf(env, last), owner);
      AliasesStay(env, q, aliases, LocationOf(env, last), owner);
    } else {
      UnsupportedAnswer(env, q, Response(NOERROR, aliases, [], []), LocationOf(env, last), owner);
    }
    hide AnsweredFrom, AliasShown;
  }

  /** Records already in the answer stay there. */
  lemma {:induction false} AliasesStay(env: Env, q: Query, aliases: seq<RR>, location: string, owner: string)
    requires ValidEnv(env) && Supported(q.qtype)
    ensures var t := AtLocation(env, q, Response(NOERROR, aliases, [], []), location, owner);
            aliases <= t.answer
  {
    RecordsAreShown(env, q, location, owner);
    hide ValidEnv, RecordsAt, RecordsShown, ReadsSucceed;
  }

  // ----- Names that do not answer -----

  function CodeOf(env: Env, name: string): (code: MatchCode) { FindLocation(env.zone.index, name).1 }

  /** A name of the zone that is missing, has only names below it, or is below a location that is no cut. */
  predicate HasNothing(env: Env, name: string) {
    && Inside(env, name)
    && match CodeOf(env, name)
       case NoMatch => true
       case EmptyNonterminalMatch => true
       case CEMatch => var ns := env.store.items(LocationOf(env, name), TYPE_NS); ns.Ok? && ns.value.items == []
       case _ => false
  }

  /** The record that denies a name: it lists what any name may have if there are others below it, and else only itself. */
  ghost predicate DeniesName(env: Env, r: RR, name: string) {
    && r.name == name && r.rrtype == TYPE_NSEC && r.ttl == env.zone.minTtl
    && r.data.Nsec? && r.data.next == "\\000." + name
    && forall t :: t in r.data.bitmap <==>
         t in if CodeOf(env, name) == EmptyNonterminalMatch then BITMAP_ZONE else BITMAP_NAME_ERROR
  }

  lemma {:induction false} ChainStopsAt(env: Env, q: Query, name: string, n: nat)
    requires n > 0 && HasNothing(env, name)
    ensures ChainFrom(env, q, name, n) == Chain([], Arrived(name, LocationOf(env, name), CodeOf(env, name)))
    ensures name != env.zone.index.name
  {
    hide FindZone, FindRelative, Fqdn;
  }

  lemma {:induction false} NothingThere(env: Env, q: Query, aliases: seq<RR>, name: string)
    requires ValidEnv(env) && HasNothing(env, name) && name != env.zone.index.name
    ensures var r := RespondAt(env, q, Response(NOERROR, aliases, [], []), name, LocationOf(env, name), CodeOf(env, name));
            && r.answer == aliases && r.additional == []
            && if q.dnssec then
                 && r.res == NOERROR && |r.authority| == 2
                 && r.authority[0] == env.zone.soa && DeniesName(env, r.authority[1], name)
               else
                 && r.authority == [env.zone.soa]
                 && r.res == if CodeOf(env, name) == EmptyNonterminalMatch then NOERROR else NXDOMAIN
  {
    hide ValidEnv, FindLocation, FindZone;
  }

  lemma {:induction false} RespondsWhereStopped(env: Env, q: Query, aliases: seq<Alias>, name: string)
    requires ValidEnv(env)
    requires ChainFrom(env, q, q.name, MAX_LOOKUPS) == Chain(aliases, Arrived(name, LocationOf(env, name), CodeOf(env, name)))
    ensures var before := if q.flatten then [] else AliasRecords(aliases);
            Answered(env, q) == RespondAt(env, q, Response(NOERROR, before, [], []), name, LocationOf(env, name),
                                          CodeOf(env, name))
  {
    hide ValidEnv, ChainFrom, FindLocation, RespondAt, AliasRecords;
  }

  /**
   The response to a query whose aliases lead to a name with nothing: the aliases, and the SOA,
   which a signed response follows with a denial of the name and an unsigned one with the rcode.
   */
  lemma {:induction false} NothingIsDenied(env: Env, q: Query, names: seq<string>)
    requires ValidEnv(env) && Follows(env, q, names) && names[0] == q.name && |names| <= 11
    requires HasNothing(env, names[|names| - 1])
    ensures var r, k, last := Answered(env, q), |names| - 1, names[|names| - 1];
            && (if q.flatten then r.answer == []
                else |r.answer| == k && forall i :: 0 <= i < k ==> AliasShown(env, r.answer[i], names[i]))
            && r.additional == []
            && if q.dnssec then
                 && r.res == NOERROR && |r.authority| == 2
                 && r.authority[0] == env.zone.soa && DeniesName(env, r.authority[1], last)
               else
                 && r.authority == [env.zone.soa]
                 && r.res == if CodeOf(env, last) == EmptyNonterminalMatch then NOERROR else NXDOMAIN
  {
    var k, last := |names| - 1, names[|names| - 1];
    var passed := AliasesOf(env, names[..k]);
    hide Answered, ChainFrom, RespondAt, AliasRecords, Follows, LeadsOn, HasNothing, CodeOf, LocationOf, AliasShown,
         DeniesName, ValidEnv, FindLocation, AliasesOf, AliasOf, Fqdn;
    PassedShown(env, q, names);
    ChainAlong(env, q, names, MAX_LOOKUPS);
    ChainStopsAt(env, q, last, MAX_LOOKUPS - k);
    assert passed + [] == passed;
    RespondsWhereStopped(env, q, passed, last);
    NothingThere(env, q, if q.flatten then [] else AliasRecords(passed), last);
  }
}
