/** What each kind of response means: NXDOMAIN, NODATA, referrals and aliases that leave the zone. */
module Outcomes {
  import opened Names
  import opened ZoneIndex
  import opened Records
  import opened Requests
  import opened QueryLoop
  import AliasChains
  import LabelTree

  // ----- NXDOMAIN -----

  /**
   Section 2 of RFC 8020 and section 3.3.1 of RFC 4592: `name` is below the apex, no configured
   location is at or below it, no wildcard is configured at its closest encloser, and that
   encloser, if configured, is no zone cut.
   */
  ghost predicate Missing(env: Env, name: string) {
    exists rel ::
      && RelativeTo(env, name, rel)
      && var n, conf := LabelsOf(rel), Locations(env);
         && (forall m :: m in conf ==> !IsSuffix(n, m))
         && LabelTree.SourceOfSynthesis(conf, n) !in conf
         && var ce := LabelTree.ClosestEncloser(conf, n);
            ce in conf ==> NotACut(env, Join(ce))
  }

  predicate NotACut(env: Env, location: string) {
    var ns := env.store.items(location, TYPE_NS);
    ns.Ok? && ns.value.Empty()
  }

  /** The lookup finds nothing, or only an encloser that is no zone cut. */
  predicate FindsNothing(env: Env, name: string) {
    var (location, code) := env.Locate(name);
    code == NoMatch || (code == CEMatch && NotACut(env, location))
  }

  lemma {:induction false} ExistsMeansAtOrBelow(conf: set<Labels>, n: Labels)
    requires n != []
    ensures LabelTree.Exists(conf, n) <==> exists m :: m in conf && IsSuffix(n, m)
    ensures n in conf ==> LabelTree.Exists(conf, n)
  {
    assert IsSuffix(n, n);
  }

  /** The same question asked of the label tree. */
  ghost predicate NothingFor(env: Env, m: LabelTree.Match) {
    m.NoMatch? || (m.ClosestEncloserOnly? && NotACut(env, Join(m.name)))
  }

  lemma {:induction false} NothingForIff(env: Env, conf: set<Labels>, n: Labels)
    requires n != [] && [] !in conf
    ensures NothingFor(env, LabelTree.Lookup(conf, n)) <==>
              (&& (forall m :: m in conf ==> !IsSuffix(n, m))
               && LabelTree.SourceOfSynthesis(conf, n) !in conf
               && var ce := LabelTree.ClosestEncloser(conf, n);
                  ce in conf ==> NotACut(env, Join(ce)))
  {
    ExistsMeansAtOrBelow(conf, n);
    hide LabelTree.ClosestEncloser, LabelTree.Exists, NotACut, Join;
  }

  lemma {:induction false} FindsNothingBelow(env: Env, rel: string)
    requires ValidEnv(env)
    ensures FindsNothing(env, rel + "." + env.Apex()) <==> NothingFor(env, LabelTree.Lookup(Locations(env), LabelsOf(rel)))
  {
    hide ValidEnv, FindLocation, LabelsOf, Configured, LabelTree.Lookup;
    AbsoluteLookup(env, rel + "." + env.Apex(), rel);
  }

  lemma {:induction false} FindsNothingIffMissing(env: Env, name: string)
    requires ValidEnv(env) && env.InZone(name)
    ensures FindsNothing(env, name) <==> Missing(env, name)
  {
    var names :| IsZoneTreeOf(env.zones, names) && "" !in names;
    var rel := InZoneName(env.zones, names, name);
    hide ValidEnv, IsZoneTreeOf, FindZone;
    if name == env.Apex() {
      ApexIsNotBelow(env);
    } else {
      FindsNothingBelow(env, rel);
      ApexNotConfigured(env.zone.index.locations);
      NothingForIff(env, Locations(env), LabelsOf(rel));
      hide FindsNothing, NothingFor, LabelTree.Lookup, LabelTree.ClosestEncloser, LabelsOf, Configured;
      forall other | RelativeTo(env, name, other) ensures other == rel {
        SameRelative(other, rel, env.Apex());
      }
      assert RelativeTo(env, name, rel);
    }
  }

  lemma {:induction false} ApexIsNotBelow(env: Env)
    ensures !FindsNothing(env, env.Apex()) && !Missing(env, env.Apex())
  {
    forall rel ensures !RelativeTo(env, env.Apex(), rel) {
      assert |rel + "." + env.Apex()| > |env.Apex()|;
    }
  }

  lemma {:induction false} SameRelative(a: string, b: string, apex: string)
    requires a + "." + apex == b + "." + apex
    ensures a == b
  {
    var s := a + "." + apex;
    assert s[..|a|] == a && (b + "." + apex)[..|b|] == b;
    assert |a| == |b|;
  }

  lemma {:induction false} LocationNeverNxdomain(env: Env, q: Query, r: Response, location: string, name: string)
    requires ValidEnv(env) && !q.dnssec && r.res == NOERROR
    ensures AtLocation(env, q, r, location, name).res in {NOERROR, SERVFAIL}
  {
    hide ValidEnv, FindLocation, FindZone, Aname.FoundAname, Caa.FoundCaa, ItemRecords, AddressRecords;
    if RecordsAt(env, q, location, name).Found? && (q.qtype == TYPE_A || q.qtype == TYPE_AAAA) {
      var aname := env.store.names(location, TYPE_ANAME);
      if aname.Ok? { AnameRcode(env, aname.value.host, q.qtype); }
    }
  }

  lemma {:induction false} AnameRcode(env: Env, name: string, qtype: RRType)
    ensures Aname.FoundAname(env, name, qtype).rcode in {NOERROR, SERVFAIL}
  {
    hide Aname.Follow;
  }

  /** Responding at a name of the zone: the rcode, and when it is NXDOMAIN. */
  lemma {:induction false} RespondAtRcode(env: Env, q: Query, r: Response, name: string)
    requires ValidEnv(env) && !q.dnssec && r == Response(NOERROR, r.answer, [], [])
    ensures var (location, code) := env.Locate(name);
            var t := RespondAt(env, q, r, name, location, code);
            && t.res in {NOERROR, SERVFAIL, NXDOMAIN}
            && (t.res == NXDOMAIN <==> FindsNothing(env, name))
            && (t.res == NXDOMAIN ==> t == Response(NXDOMAIN, r.answer, [env.zone.soa], []))
  {
    hide ValidEnv, FindLocation, AtLocation, Glue, ItemRecords;
    var (location, code) := env.Locate(name);
    LocationNeverNxdomain(env, q, r, location, if q.flatten then q.name else name);
  }

  lemma {:induction false} ArrivedWhereLocated(env: Env, q: Query, name: string, n: nat)
    ensures var c := ChainFrom(env, q, name, n);
            c.end.Arrived? ==> env.InZone(c.end.name) && env.Locate(c.end.name) == (c.end.location, c.end.code)
    decreases n
  {
    hide FindZone, FindLocation;
    var c := ChainFrom(env, q, name, n);
    if n > 0 && c.aliases != [] && c.end.Arrived? {
      ArrivedWhereLocated(env, q, Fqdn(c.aliases[0].cname.host), n - 1);
    }
  }

  /**
   Without DNSSEC the answer is NXDOMAIN exactly when the chain ends at a name that is missing,
   and it then carries the SOA. With DNSSEC it never is.
   */
  lemma {:induction false} NxdomainIffMissing(env: Env, q: Query)
    requires ValidEnv(env) && !q.dnssec
    ensures var c, r := ChainFrom(env, q, q.name, MAX_LOOKUPS), Answered(env, q);
            && (r.res == NXDOMAIN <==> c.end.Arrived? && Missing(env, c.end.name))
            && (r.res == NXDOMAIN ==> r.authority == [env.zone.soa] && r.additional == [] && r.answer == AliasAnswer(q, c))
  {
    hide ChainFrom, RespondAt, FindLocation, FindZone, Missing;
    var c := ChainFrom(env, q, q.name, MAX_LOOKUPS);
    ArrivedWhereLocated(env, q, q.name, MAX_LOOKUPS);
    if c.end.Arrived? {
      FindsNothingIffMissing(env, c.end.name);
      RespondAtRcode(env, q, Response(NOERROR, AliasAnswer(q, c), [], []), c.end.name);
    }
    hide ValidEnv;
  }

  /** A signed response denies names with NSEC records and NOERROR instead. */
  lemma {:induction false} SignedNeverNxdomain(env: Env, q: Query)
    requires ValidEnv(env) && q.dnssec
    ensures Answered(env, q).res != NXDOMAIN
  {
    hide ValidEnv, ChainFrom, FindLocation, FindZone, Aname.FoundAname, Caa.FoundCaa, ItemRecords, AddressRecords, Glue,
         AliasAnswer, Dnssec.Without;
    var c := ChainFrom(env, q, q.name, MAX_LOOKUPS);
    if c.end.Arrived? {
      var aname := env.store.names(c.end.location, TYPE_ANAME);
      if aname.Ok? { AnameRcode(env, aname.value.host, q.qtype); }
    }
  }

  // ----- Section 2 of RFC 2308: the kinds of NOERROR -----

  /** Every NS record in the store names a host. */
  ghost predicate ServersNamed(env: Env) {
    forall location :: var ns := env.store.items(location, TYPE_NS);
      ns.Ok? ==> forall i :: 0 <= i < |ns.value.items| ==> ns.value.items[i].key != ""
  }

  /** Nothing there: the SOA and nothing else behind the aliases, which a type that is not served drops. */
  ghost predicate Nodata(env: Env, r: Response, aliases: seq<RR>) {
    r.authority == [env.zone.soa] && r.additional == [] && (r.answer == aliases || r.answer == [])
  }

  /** A referral: name servers in the authority section and no SOA. */
  ghost predicate Referral(r: Response) {
    && (exists i :: 0 <= i < |r.authority| && r.authority[i].rrtype == TYPE_NS)
    && forall i :: 0 <= i < |r.authority| ==> r.authority[i].rrtype != TYPE_SOA
  }

  /** The chain goes on outside the zone: the name that comes next, or the target of its last alias, is not in it. */
  predicate Leaves(env: Env, c: Chain) {
    || (c.end.LeftZone? && !env.InZone(c.end.name))
    || (c.end.Escaped? && c.aliases != [] && !env.InZone(c.aliases[|c.aliases| - 1].cname.host))
  }

  /** The answer goes on behind the aliases. */
  ghost predicate WithRecords(r: Response, aliases: seq<RR>) {
    |r.answer| > |aliases| && aliases <= r.answer
  }

  /** It does, and the response holds nothing else. */
  ghost predicate OnlyRecords(r: Response, aliases: seq<RR>) {
    WithRecords(r, aliases) && r.authority == [] && r.additional == []
  }

  lemma {:induction false} ReferralFrom(authority: seq<RR>, a: seq<RR>, aName: string, aType: RRType, ns: ItemSet, cut: string)
    requires AllOf(a, aName, aType) && aType != TYPE_SOA
    requires ns.items != [] && forall i :: 0 <= i < |ns.items| ==> ns.items[i].key != ""
    requires authority == a + ValueOf(ns, cut, TYPE_NS) || authority == ValueOf(ns, cut, TYPE_NS) + a
    ensures (exists i :: 0 <= i < |authority| && authority[i].rrtype == TYPE_NS)
    ensures forall i :: 0 <= i < |authority| ==> authority[i].rrtype != TYPE_SOA
  {
    ItemRecordsEmptyIff(ns.items, cut, TYPE_NS, ns.ttl);
    assert ns.items[0].key != "";
    hide ItemRecords;
    var v := ValueOf(ns, cut, TYPE_NS);
    assert v[0].rrtype == TYPE_NS;
    var at := if authority == a + v then |a| else 0;
    assert authority[at] == v[0];
  }

  lemma {:induction false} EncloserKinds(env: Env, q: Query, r: Response, name: string, location: string)
    requires !q.dnssec && ServersNamed(env) && r == Response(NOERROR, r.answer, [], [])
    ensures var t := AtEncloser(env, q, r, name, location);
            t.res == NOERROR ==> t.answer == r.answer && Referral(t)
  {
    hide ItemRecords, Glue;
    var ns, ds := env.store.items(location, TYPE_NS), env.store.items(location, TYPE_DS);
    if ns.Ok? && !ns.value.Empty() && ds.Ok? {
      var cut := location + "." + env.Apex();
      var authority := ValueOf(ns.value, cut, TYPE_NS) + ValueOf(ds.value, cut, TYPE_DS);
      assert [] + ValueOf(ns.value, cut, TYPE_NS) == ValueOf(ns.value, cut, TYPE_NS);
      ReferralFrom(authority, ValueOf(ds.value, cut, TYPE_DS), cut, TYPE_DS, ns.value, cut);
    }
  }

  lemma {:induction false} CutKinds(env: Env, q: Query, r: Response, name: string, location: string, ns: ItemSet)
    requires !q.dnssec && r == Response(NOERROR, r.answer, [], [])
    requires ns.items != [] && forall i :: 0 <= i < |ns.items| ==> ns.items[i].key != ""
    ensures var t := AtCut(env, q, r, name, location, ns);
            t.res == NOERROR ==> OnlyRecords(t, r.answer) || (t.answer == r.answer && Referral(t))
  {
    hide Glue;
    var ds := env.store.items(location, TYPE_DS);
    if ds.Ok? {
      var signers := ValueOf(ds.value, name, TYPE_DS);
      ItemRecordsEmptyIff(ds.value.items, name, TYPE_DS, ds.value.ttl);
      assert ds.value.Empty() ==> signers == [];
      hide ItemRecords;
      assert [] + signers == signers;
      ReferralFrom(signers + ValueOf(ns, name, TYPE_NS), signers, name, TYPE_DS, ns, name);
    }
  }

  lemma {:induction false} LocationKinds(env: Env, q: Query, r: Response, location: string, name: string)
    requires ValidEnv(env) && !q.dnssec && r == Response(NOERROR, r.answer, [], [])
    ensures var t := AtLocation(env, q, r, location, name);
            t.res == NOERROR ==>
              OnlyRecords(t, r.answer) || Nodata(env, t, r.answer)
  {
    LocationNeverNxdomain(env, q, r, location, name);
    hide ValidEnv, RecordsAt;
    assert r.answer + [] == r.answer && [] + [env.zone.soa] == [env.zone.soa];
    match RecordsAt(env, q, location, name) {
      case Found(answer, res) =>
        if answer != [] { RcodeWithRecords(env, q, location, name); }
      case _ =>
    }
  }

  /** A failed ANAME search yields no record. */
  lemma {:induction false} RcodeWithRecords(env: Env, q: Query, location: string, name: string)
    requires ValidEnv(env)
    requires var a := RecordsAt(env, q, location, name); a.Found? && a.answer != []
    ensures var a := RecordsAt(env, q, location, name); a.res.Some? ==> a.res.value == NOERROR
  {
    hide ValidEnv, Aname.Follow, Caa.FoundCaa, ItemRecords;
  }

  lemma {:induction false} RespondAtKinds(env: Env, q: Query, r: Response, name: string)
    requires ValidEnv(env) && !q.dnssec && ServersNamed(env) && r == Response(NOERROR, r.answer, [], [])
    ensures var (location, code) := env.Locate(name);
            var t := RespondAt(env, q, r, name, location, code);
            t.res == NOERROR ==>
              OnlyRecords(t, r.answer) || Nodata(env, t, r.answer) || (t.answer == r.answer && Referral(t))
  {
    hide ValidEnv, FindLocation, AtLocation, AtCut, AtEncloser, OnlyRecords, Nodata, Referral;
    var (location, code) := env.Locate(name);
    match code
    case NoMatch =>
    case EmptyNonterminalMatch => DenialIsNodata(env, r);
    case CEMatch => EncloserKinds(env, q, r, name, location);
    case _ =>
      LocationKinds(env, q, r, location, if q.flatten then q.name else name);
      var ns := env.store.items(location, TYPE_NS);
      if ns.Ok? && !ns.value.Empty() { CutKinds(env, q, r, name, location, ns.value); }
  }

  lemma {:induction false} DenialIsNodata(env: Env, r: Response)
    requires r.additional == []
    ensures Nodata(env, r.(authority := [env.zone.soa], res := NOERROR), r.answer)
  {
  }

  lemma {:induction false} FirstTurnEnds(env: Env, q: Query, name: string, n: nat)
    ensures var c := ChainFrom(env, q, name, n);
            if c.aliases == [] then !c.end.Escaped? && (c.end.LeftZone? ==> !env.InZone(c.end.name))
            else c.end.Escaped? && |c.aliases| == 1 ==> !env.InZone(c.aliases[0].cname.host)
  {
    hide FindZone, FindLocation, Fqdn;
    AliasChains.FirstAlias(env, q, name, n);
    var c := ChainFrom(env, q, name, n);
    if n > 0 && c.aliases != [] && c.end.Escaped? && |c.aliases| == 1 && env.InZone(c.aliases[0].cname.host) {
      NeverEscapesAtOnce(env, q, Fqdn(c.aliases[0].cname.host), n - 1);
    }
  }

  lemma {:induction false} NeverEscapesAtOnce(env: Env, q: Query, name: string, n: nat)
    ensures var c := ChainFrom(env, q, name, n); c.end.Escaped? ==> c.aliases != []
  {
    hide FindZone, FindLocation, Fqdn;
  }

  lemma {:induction false} ChainsEndOutside(env: Env, q: Query, name: string, n: nat)
    ensures var c := ChainFrom(env, q, name, n); c.end.LeftZone? ==> !env.InZone(c.end.name)
    ensures var c := ChainFrom(env, q, name, n);
            c.end.Escaped? ==> c.aliases != [] && !env.InZone(c.aliases[|c.aliases| - 1].cname.host)
    decreases n
  {
    hide ChainFrom, FindZone, FindLocation, Fqdn, AliasChains.EndsAt;
    var c := ChainFrom(env, q, name, n);
    FirstTurnEnds(env, q, name, n);
    AliasChains.FirstAlias(env, q, name, n);
    if c.aliases != [] && !(c.end.Escaped? && |c.aliases| == 1) {
      ChainsEndOutside(env, q, Fqdn(c.aliases[0].cname.host), n - 1);
    }
  }

  /**
   Without DNSSEC every response to a name of the zone is NOERROR, NXDOMAIN or SERVFAIL. A NOERROR
   with records behind the aliases holds nothing else. One without them is exactly one of NODATA
   with the SOA, a referral with name servers, or a chain that leaves the zone, and its answer is
   the aliases, or empty for NODATA.
   */
  lemma {:induction false} NoerrorKinds(env: Env, q: Query)
    requires ValidEnv(env) && !q.dnssec && ServersNamed(env) && env.zone.soa.rrtype == TYPE_SOA
    ensures var c, r := ChainFrom(env, q, q.name, MAX_LOOKUPS), Answered(env, q);
            var aliases := AliasAnswer(q, c);
            && r.res in {NOERROR, SERVFAIL, NXDOMAIN}
            && (r.res == NOERROR ==>
                  if WithRecords(r, aliases) then OnlyRecords(r, aliases) && !Leaves(env, c)
                  else
                    || (Nodata(env, r, aliases) && !Referral(r) && !Leaves(env, c))
                    || (!Nodata(env, r, aliases) && Referral(r) && !Leaves(env, c) && r.answer == aliases)
                    || (!Nodata(env, r, aliases) && !Referral(r) && Leaves(env, c)
                        && r == Response(NOERROR, aliases, [], [])))
  {
    var c := ChainFrom(env, q, q.name, MAX_LOOKUPS);
    hide ChainFrom, RespondAt, FindLocation, FindZone;
    ArrivedWhereLocated(env, q, q.name, MAX_LOOKUPS);
    ChainsEndOutside(env, q, q.name, MAX_LOOKUPS);
    if c.end.Arrived? {
      var r := Response(NOERROR, AliasAnswer(q, c), [], []);
      RespondAtRcode(env, q, r, c.end.name);
      RespondAtKinds(env, q, r, c.end.name);
    }
    hide ValidEnv, AliasAnswer;
  }
}
