/** Where a referral points: the zone cut, its name servers and the addresses sent along. */
module Referrals {
  import opened Names
  import opened ZoneIndex
  import opened Records
  import opened Geotools
  import opened Requests
  import opened QueryLoop
  import AddressFilter
  import LabelTree
  import Outcomes

  function OfType(rrs: seq<RR>, t: RRType): (records: seq<RR>) {
    if rrs == [] then []
    else OfType(rrs[..|rrs| - 1], t) + if rrs[|rrs| - 1].rrtype == t then [rrs[|rrs| - 1]] else []
  }

  lemma {:induction false} OfTypeNext(a: seq<RR>, r: RR, t: RRType)
    ensures OfType(a + [r], t) == OfType(a, t) + if r.rrtype == t then [r] else []
  {
    assert (a + [r])[..|a|] == a;
  }

  /** Appending records of one type adds all of them or none. */
  lemma {:induction false} OfTypeConcat(a: seq<RR>, b: seq<RR>, name: string, bType: RRType, t: RRType)
    requires AllOf(b, name, bType)
    ensures OfType(a + b, t) == OfType(a, t) + if bType == t then b else []
  {
    if b == [] {
      assert a + b == a;
    } else {
      var init, r := b[..|b| - 1], b[|b| - 1];
      assert b == init + [r] && a + b == (a + init) + [r];
      OfTypeConcat(a, init, name, bType, t);
      OfTypeNext(a + init, r, t);
      hide OfType;
    }
  }

  /** A record of one of the addresses the zone has for a host, as the address filter leaves them. */
  ghost predicate IsGlueOf(env: Env, host: string, t: RRType, r: RR) {
    var (location, code) := FindLocation(env.zone.index, host);
    var ips := env.store.ips(location, t);
    && code != NoMatch && ips.Ok?
    && var left := AddressFilter.FilterMask(env.geo, ips.value);
       HasAddress(AddressFilter.Ordered(ips.value, left, env.now), host, t, ips.value.ttl, r)
  }

  ghost predicate HasAddress(ips: seq<Ip>, host: string, t: RRType, ttl: nat, r: RR) {
    exists ip :: ip in ips && ip.Some? && r == RR(host, t, ttl, Address(ip.value))
  }

  /** A record of an address, of either kind, of one of the name servers. */
  ghost predicate IsGlue(env: Env, servers: seq<Item>, r: RR) {
    exists k, t :: 0 <= k < |servers| && t in {TYPE_A, TYPE_AAAA} && IsGlueOf(env, servers[k].key, t, r)
  }

  /** The addresses sent along are those of the name servers, every one that the zone has and no other. */
  ghost predicate GlueFor(env: Env, additional: seq<RR>, servers: seq<Item>) {
    forall r :: r in additional <==> IsGlue(env, servers, r)
  }

  lemma {:induction false} AddressMembers(ips: seq<Ip>, host: string, t: RRType, ttl: nat, r: RR)
    ensures r in AddressRecords(ips, host, t, ttl) <==> HasAddress(ips, host, t, ttl, r)
  {
    if ips != [] {
      var n := |ips| - 1;
      AddressMembers(ips[..n], host, t, ttl, r);
      assert ips == ips[..n] + [ips[n]];
    }
  }

  lemma {:induction false} AddressGlueMembers(env: Env, host: string, t: RRType, r: RR)
    requires env.Locate(host).1 != NoMatch
    ensures r in AddressGlue(env, env.Locate(host).0, host, t) <==> IsGlueOf(env, host, t, r)
  {
    hide FindLocation, AddressRecords, HasAddress;
    var ips := env.store.ips(env.Locate(host).0, t);
    if ips.Ok? {
      AddressMembers(AddressFilter.FilterIps(env.geo, ips.value, env.now), host, t, ips.value.ttl, r);
    }
  }

  lemma {:induction false} GlueOfMembers(env: Env, host: string, r: RR)
    ensures r in GlueOf(env, host) <==> IsGlueOf(env, host, TYPE_A, r) || IsGlueOf(env, host, TYPE_AAAA, r)
  {
    if env.Locate(host).1 != NoMatch {
      AddressGlueMembers(env, host, TYPE_A, r);
      AddressGlueMembers(env, host, TYPE_AAAA, r);
    }
    hide FindLocation, AddressGlue;
  }

  lemma {:induction false} GlueMembers(env: Env, servers: seq<Item>, r: RR)
    ensures r in Glue(env, servers) <==> IsGlue(env, servers, r)
  {
    hide GlueOf, IsGlueOf;
    if servers != [] {
      var n := |servers| - 1;
      var init, last := servers[..n], servers[n];
      GlueMembers(env, init, r);
      GlueOfMembers(env, last.key, r);
      if IsGlue(env, init, r) {
        var k, t :| 0 <= k < n && t in {TYPE_A, TYPE_AAAA} && IsGlueOf(env, init[k].key, t, r);
        assert IsGlueOf(env, servers[k].key, t, r);
      }
      if IsGlue(env, servers, r) {
        var k, t :| 0 <= k < |servers| && t in {TYPE_A, TYPE_AAAA} && IsGlueOf(env, servers[k].key, t, r);
        if k < n { assert IsGlueOf(env, init[k].key, t, r); }
      }
      assert IsGlueOf(env, servers[n].key, TYPE_A, r) || IsGlueOf(env, servers[n].key, TYPE_AAAA, r) ==> IsGlue(env, servers, r);
    }
  }

  lemma {:induction false} GlueOwned(env: Env, servers: seq<Item>)
    ensures GlueFor(env, Glue(env, servers), servers)
  {
    hide Glue, IsGlue;
    forall r ensures r in Glue(env, servers) <==> IsGlue(env, servers, r) { GlueMembers(env, servers, r); }
  }

  /**
   The response refers `name` to the zone cut `cut`, at which it is or below which it lies: the
   authority section holds exactly the name servers of the cut and its DS records, and the
   additional section exactly the addresses the zone has for those servers.
   */
  ghost predicate RefersTo(env: Env, r: Response, name: string, cut: string, ns: ItemSet, ds: ItemSet) {
    && AtOrBelow(name, cut)
    && OfType(r.authority, TYPE_NS) == ValueOf(ns, cut, TYPE_NS)
    && OfType(r.authority, TYPE_DS) == ValueOf(ds, cut, TYPE_DS)
    && (forall i :: 0 <= i < |r.authority| ==> r.authority[i].name == cut && r.authority[i].rrtype in {TYPE_NS, TYPE_DS})
    && GlueFor(env, r.additional, ns.items)
  }

  /** Two runs of records, each of one type, picked apart again. */
  lemma {:induction false} PickedApart(a: seq<RR>, b: seq<RR>, name: string, aType: RRType, bType: RRType)
    requires AllOf(a, name, aType) && AllOf(b, name, bType) && aType != bType
    ensures OfType(a + b, aType) == a && OfType(a + b, bType) == b
    ensures forall i :: 0 <= i < |a + b| ==> (a + b)[i].name == name && (a + b)[i].rrtype in {aType, bType}
  {
    OneType(a, name, aType, aType);
    OneType(a, name, aType, bType);
    OfTypeConcat(a, b, name, bType, aType);
    OfTypeConcat(a, b, name, bType, bType);
    hide OfType;
  }

  lemma {:induction false} OneType(a: seq<RR>, name: string, aType: RRType, t: RRType)
    requires AllOf(a, name, aType)
    ensures OfType(a, t) == if aType == t then a else []
  {
    OfTypeConcat([], a, name, aType, t);
    assert [] + a == a && OfType([], t) == [];
    hide OfType, AllOf;
  }

  lemma {:induction false} LabelsOfFull(rel: string, apex: string)
    ensures LabelsOf(rel + "." + apex) == LabelsOf(rel) + LabelsOf(apex)
  {
    SplitConcat(rel, apex, '.');
  }

  lemma {:induction false} BelowByLabels(rel: string, ce: Labels, apex: string)
    requires WellFormed(ce) && ce != [] && IsSuffix(ce, LabelsOf(rel))
    ensures AtOrBelow(rel + "." + apex, Join(ce) + "." + apex)
  {
    hide LabelsOf, Join;
    var n := LabelsOf(rel);
    LabelsOfJoin(ce);
    LabelsOfFull(Join(ce), apex);
    LabelsOfFull(rel, apex);
    var high := n[..|n| - |ce|];
    assert n + LabelsOf(apex) == high + (ce + LabelsOf(apex));
    SuffixOfConcat(high, ce + LabelsOf(apex));
  }

  /** The full name of the closest encloser is an ancestor of the query name. */
  lemma {:induction false} EncloserIsAbove(env: Env, name: string, rel: string)
    requires ValidEnv(env) && RelativeTo(env, name, rel) && env.Locate(name).1 == CEMatch
    ensures AtOrBelow(name, env.Locate(name).0 + "." + env.Apex())
  {
    hide ValidEnv, FindLocation, LabelTree.ClosestEncloser, LabelTree.Lookup, Split, Configured, AtOrBelow;
    AbsoluteLookup(env, name, rel);
    var n := LabelsOf(rel);
    var ce := LabelTree.Lookup(Locations(env), n).name;
    ApexNotConfigured(env.zone.index.locations);
    EncloserLabels(Locations(env), n);
    StarWellFormed(n, ce);
    BelowByLabels(rel, ce, env.Apex());
  }

  lemma {:induction false} EncloserLabels(conf: set<Labels>, n: Labels)
    requires LabelTree.Lookup(conf, n).ClosestEncloserOnly? && [] !in conf
    ensures var ce := LabelTree.Lookup(conf, n).name; ce != [] && IsSuffix(ce, n)
  {
    LabelTree.ClosestEncloserMeans(conf, n);
  }

  lemma {:induction false} SuffixOfConcat(a: Labels, b: Labels)
    ensures IsSuffix(b, a + b)
  {
  }

  /** A referral from the closest encloser. */
  lemma {:induction false} EncloserRefers(env: Env, q: Query, answer: seq<RR>, name: string, location: string)
    requires !q.dnssec && AtOrBelow(name, location + "." + env.Apex())
    ensures var t := AtEncloser(env, q, Response(NOERROR, answer, [], []), name, location);
            t.res == NOERROR ==>
              var ns, ds := env.store.items(location, TYPE_NS), env.store.items(location, TYPE_DS);
              && ns.Ok? && ns.value.items != [] && ds.Ok?
              && RefersTo(env, t, name, location + "." + env.Apex(), ns.value, ds.value)
  {
    hide ItemRecords, Glue, OfType, AtOrBelow, GlueFor;
    var ns, ds := env.store.items(location, TYPE_NS), env.store.items(location, TYPE_DS);
    if ns.Ok? && !ns.value.Empty() && ds.Ok? {
      var cut := location + "." + env.Apex();
      var v, signers := ValueOf(ns.value, cut, TYPE_NS), ValueOf(ds.value, cut, TYPE_DS);
      assert [] + v == v && [] + Glue(env, ns.value.items) == Glue(env, ns.value.items);
      PickedApart(v, signers, cut, TYPE_NS, TYPE_DS);
      GlueOwned(env, ns.value.items);
    }
  }

  /** A referral at the name itself. */
  lemma {:induction false} CutRefers(env: Env, q: Query, answer: seq<RR>, name: string, location: string, ns: ItemSet)
    requires !q.dnssec && ns.items != []
    ensures var t := AtCut(env, q, Response(NOERROR, answer, [], []), name, location, ns);
            t.res == NOERROR ==>
              var ds := env.store.items(location, TYPE_DS);
              && ds.Ok?
              && if q.qtype == TYPE_DS && ds.value.items != [] then
                   t == Response(NOERROR, answer + ValueOf(ds.value, name, TYPE_DS), [], [])
                 else t.answer == answer && RefersTo(env, t, name, name, ns, ds.value)
  {
    hide Glue, OfType, GlueFor, LabelsOf;
    var ds := env.store.items(location, TYPE_DS);
    if ds.Ok? {
      var v, signers := ValueOf(ns, name, TYPE_NS), ValueOf(ds.value, name, TYPE_DS);
      assert ds.value.Empty() ==> signers == [];
      hide ItemRecords;
      assert [] + signers == signers && [] + Glue(env, ns.items) == Glue(env, ns.items);
      assert [] + v == v;
      PickedApart(signers, v, name, TYPE_DS, TYPE_NS);
      GlueOwned(env, ns.items);
      SuffixOfConcat([], LabelsOf(name));
      assert [] + LabelsOf(name) == LabelsOf(name);
    }
  }

  /** The cut a name of the zone is referred to. */
  function CutFor(env: Env, name: string): (cut: string) {
    var (location, code) := env.Locate(name);
    if code == CEMatch then location + "." + env.Apex() else name
  }

  lemma {:induction false} CutIsAbove(env: Env, name: string)
    requires ValidEnv(env) && env.InZone(name) && env.Locate(name).1 == CEMatch
    ensures AtOrBelow(name, env.Locate(name).0 + "." + env.Apex())
  {
    var names :| IsZoneTreeOf(env.zones, names) && "" !in names;
    var rel := InZoneName(env.zones, names, name);
    assert name != env.Apex();
    hide IsZoneTreeOf, IsTreeOf, FindZone, FindLocation, AtOrBelow;
    EncloserIsAbove(env, name, rel);
  }

  lemma {:induction false} RespondAtRefers(env: Env, q: Query, answer: seq<RR>, name: string)
    requires ValidEnv(env) && !q.dnssec && env.InZone(name) && env.zone.soa.rrtype == TYPE_SOA
    ensures var (location, code) := env.Locate(name);
            var t := RespondAt(env, q, Response(NOERROR, answer, [], []), name, location, code);
            t.res == NOERROR && Outcomes.Referral(t) ==>
              var ns, ds := env.store.items(location, TYPE_NS), env.store.items(location, TYPE_DS);
              && ns.Ok? && ns.value.items != [] && ds.Ok?
              && RefersTo(env, t, name, CutFor(env, name), ns.value, ds.value)
  {
    hide ValidEnv, FindLocation, FindZone, AtLocation, AtCut, AtEncloser, RefersTo, AtOrBelow;
    var (location, code) := env.Locate(name);
    var ns := env.store.items(location, TYPE_NS);
    if code == CEMatch {
      CutIsAbove(env, name);
      EncloserRefers(env, q, answer, name, location);
    } else if code == ExactMatch || code == WildCardMatch {
      LocationNeverRefers(env, q, answer, location, if q.flatten then q.name else name);
      if ns.Ok? && !ns.value.Empty() { CutRefers(env, q, answer, name, location, ns.value); }
    }
  }

  lemma {:induction false} LocationNeverRefers(env: Env, q: Query, answer: seq<RR>, location: string, name: string)
    requires ValidEnv(env) && !q.dnssec && env.zone.soa.rrtype == TYPE_SOA
    ensures !Outcomes.Referral(AtLocation(env, q, Response(NOERROR, answer, [], []), location, name))
  {
    hide ValidEnv, RecordsAt;
  }

  /**
   Whenever a response without DNSSEC is a referral, it refers the last name of the chain to a
   zone cut at or above it, with the servers of that cut and with every address the zone has for them.
   */
  lemma {:induction false} ReferralsPointToCut(env: Env, q: Query)
    requires ValidEnv(env) && !q.dnssec && env.zone.soa.rrtype == TYPE_SOA
    requires Answered(env, q).res == NOERROR && Outcomes.Referral(Answered(env, q))
    ensures var c := ChainFrom(env, q, q.name, MAX_LOOKUPS);
            && c.end.Arrived?
            && var ns, ds := env.store.items(c.end.location, TYPE_NS), env.store.items(c.end.location, TYPE_DS);
               && ns.Ok? && ns.value.items != [] && ds.Ok?
               && RefersTo(env, Answered(env, q), c.end.name, CutFor(env, c.end.name), ns.value, ds.value)
  {
    var c := ChainFrom(env, q, q.name, MAX_LOOKUPS);
    hide ChainFrom, RespondAt, FindLocation, FindZone, RefersTo, CutFor;
    Outcomes.ArrivedWhereLocated(env, q, q.name, MAX_LOOKUPS);
    if c.end.Arrived? {
      RespondAtRefers(env, q, AliasAnswer(q, c), c.end.name);
    }
    hide ValidEnv, AliasAnswer;
  }
}
