/**
 A signed response before its signatures are added (internal/handler/handler.go:703-730), against
 the response to the same query without DNSSEC in a zone that flattens, as every signed one does.
 */
module SignedAnswers {
  import opened Wrappers
  import opened Names
  import opened RadixTree
  import opened ZoneIndex
  import opened Records
  import opened Requests
  import opened QueryLoop
  import AddressFilter
  import Aname
  import Dnssec

  function Signed(q: Query): (r: Query) { q.(dnssec := true, flatten := true) }

  function Unsigned(q: Query): (r: Query) { q.(dnssec := false, flatten := true) }

  function WithoutNsec(rrs: seq<RR>): (r: seq<RR>) {
    if rrs == [] then []
    else WithoutNsec(rrs[..|rrs| - 1]) + if rrs[|rrs| - 1].rrtype == TYPE_NSEC then [] else [rrs[|rrs| - 1]]
  }

  ghost predicate NoNsec(rrs: seq<RR>) {
    forall i :: 0 <= i < |rrs| ==> rrs[i].rrtype != TYPE_NSEC
  }

  /** Signing adds denials to the authority section and turns NXDOMAIN into NOERROR, and nothing else. */
  ghost predicate OnlyDenialsAdded(s: Response, u: Response) {
    && s.res == (if u.res == NXDOMAIN then NOERROR else u.res)
    && s.answer == u.answer && s.additional == u.additional
    && WithoutNsec(s.authority) == u.authority
  }

  // ----- Records between which a denial is put -----

  lemma {:induction false} KeptWhole(rrs: seq<RR>)
    requires NoNsec(rrs)
    ensures WithoutNsec(rrs) == rrs
  {
    if rrs != [] { KeptWhole(rrs[..|rrs| - 1]); }
  }

  lemma {:induction false} DenialDropped(a: seq<RR>, denial: RR, b: seq<RR>)
    requires NoNsec(a) && NoNsec(b) && denial.rrtype == TYPE_NSEC
    ensures WithoutNsec(a + [denial] + b) == a + b
    decreases |b|
  {
    if b == [] {
      KeptWhole(a);
      assert a + [denial] + b == a + [denial] && (a + [denial])[..|a|] == a && a + b == a;
    } else {
      var n := |b| - 1;
      var all := a + [denial] + b;
      DenialDropped(a, denial, b[..n]);
      assert all[..|all| - 1] == a + [denial] + b[..n];
      assert a + b == a + b[..n] + [b[n]];
    }
  }

  /**
   What `AddNSec` does for a signed response: the record it adds is owned by the name, names the very
   next one, and lists the types such a name may have but for the one denied.
   */
  lemma {:induction false} DenialAdded(env: Env, q: Query, r: Response, name: string, t: RRType) returns (denial: RR)
    requires q.dnssec
    ensures denial.name == name && denial.rrtype == TYPE_NSEC && denial.ttl == env.zone.minTtl
    ensures denial.data.Nsec? && denial.data.next == "\\000." + name
    ensures var listed := if name == env.Apex() then BITMAP_APEX
                          else if r.res == NXDOMAIN then BITMAP_NAME_ERROR
                          else if t == TYPE_DS then BITMAP_SUB_DELEGATION else BITMAP_ZONE;
            forall other :: other in denial.data.bitmap <==>
              other in listed && (other != t || (r.res == NXDOMAIN && name != env.Apex()))
    ensures AddNSec(env, q, r, name, t)
              == r.(res := if name == env.Apex() || r.res == NXDOMAIN then NOERROR else r.res,
                    authority := r.authority + [denial])
  {
    hide Dnssec.Without;
    var added := AddNSec(env, q, r, name, t).authority;
    denial := added[|added| - 1];
  }

  // ----- Each way a chain can end -----

  /** An address query ends in a failed ANAME search here. */
  predicate AnameFails(env: Env, location: string, t: RRType) {
    t in {TYPE_A, TYPE_AAAA} &&
    var ips, aname := env.store.ips(location, t), env.store.names(location, TYPE_ANAME);
    && ips.Ok? && aname.Ok? && ips.value.data == [] && !aname.value.Empty()
    && Aname.FoundAname(env, aname.value.host, t).rcode != NOERROR
  }

  /** A failed search leaves no record, and nothing else fails without one. */
  lemma {:induction false} RecordsOrFailure(env: Env, q: Query, location: string, name: string)
    requires ValidEnv(env)
    ensures RecordsAt(env, Signed(q), location, name) == RecordsAt(env, Unsigned(q), location, name)
    ensures var a := RecordsAt(env, Unsigned(q), location, name);
            if AnameFails(env, location, q.qtype) then a == Found([], Some(SERVFAIL))
            else a.Found? && a.res.Some? ==> a.res.value == NOERROR
  {
    hide ValidEnv, ItemRecords, Aname.Follow, AddressFilter.FilterIps;
  }

  lemma {:induction false} LocationCompared(env: Env, q: Query, location: string, name: string)
    requires ValidEnv(env) && env.zone.soa.rrtype == TYPE_SOA
    ensures var r := Response(NOERROR, [], [], []);
            var s, u := AtLocation(env, Signed(q), r, location, name), AtLocation(env, Unsigned(q), r, location, name);
            OnlyDenialsAdded(s, u) <==> !(name == env.Apex() && AnameFails(env, location, q.qtype))
  {
    hide ValidEnv, RecordsAt, AnameFails, AddNSec, WithoutNsec;
    RecordsOrFailure(env, q, location, name);
    KeptWhole([]);
    KeptWhole([env.zone.soa]);
    match RecordsAt(env, Unsigned(q), location, name) {
      case Found(answer, res) =>
        if answer == [] {
          var found := Response(if res.Some? then res.value else NOERROR, [] + answer, [], []);
          var denial := DenialAdded(env, Signed(q), found, name, q.qtype);
          NoDenial(env, q, found, name, q.qtype);
          DenialDropped([], denial, []);
          DenialDropped([], denial, [env.zone.soa]);
          assert [] + [denial] + [] == [] + [denial] && [] + [env.zone.soa] == [env.zone.soa];
        }
      case _ =>
    }
  }

  lemma {:induction false} NoDenial(env: Env, q: Query, r: Response, name: string, t: RRType)
    ensures AddNSec(env, Unsigned(q), r, name, t) == r
  {
  }

  lemma {:induction false} EncloserCompared(env: Env, q: Query, name: string, location: string)
    requires env.zone.soa.rrtype == TYPE_SOA
    ensures var r := Response(NOERROR, [], [], []);
            OnlyDenialsAdded(AtEncloser(env, Signed(q), r, name, location), AtEncloser(env, Unsigned(q), r, name, location))
  {
    hide AddNSec, WithoutNsec, ItemRecords, Glue;
    var ns, ds := env.store.items(location, TYPE_NS), env.store.items(location, TYPE_DS);
    if ns.Ok? && ns.value.Empty() {
      DenialCompared(env, q, NXDOMAIN, name, q.qtype);
    } else if ns.Ok? {
      var cut := location + "." + env.Apex();
      assert |cut| > |env.Apex()|;
      var v := ValueOf(ns.value, cut, TYPE_NS);
      KeptWhole(v);
      assert [] + v == v;
      if ds.Ok? {
        var signers := ValueOf(ds.value, cut, TYPE_DS);
        var servers := Response(NOERROR, [], v, []);
        NoDenial(env, q, servers, cut, TYPE_DS);
        var denial := DenialAdded(env, Signed(q), servers, cut, TYPE_DS);
        DenialDropped(v, denial, signers);
        KeptWhole(v + signers);
      }
    } else {
      KeptWhole([]);
    }
  }

  lemma {:induction false} CutCompared(env: Env, q: Query, name: string, location: string, ns: ItemSet)
    ensures var r := Response(NOERROR, [], [], []);
            OnlyDenialsAdded(AtCut(env, Signed(q), r, name, location, ns), AtCut(env, Unsigned(q), r, name, location, ns))
  {
    hide AddNSec, WithoutNsec, ItemRecords, Glue;
    var ds := env.store.items(location, TYPE_DS);
    KeptWhole([]);
    if ds.Ok? {
      var v, signers := ValueOf(ns, name, TYPE_NS), ValueOf(ds.value, name, TYPE_DS);
      var r := Response(NOERROR, [], [], []);
      NoDenial(env, q, r, name, TYPE_DS);
      var denial := DenialAdded(env, Signed(q), r, name, TYPE_DS);
      DenialDropped([], denial, v);
      KeptWhole(signers + v);
      assert [] + signers == signers && [] + v == v;
    }
  }

  /** The SOA and a denial, as for a name with nothing of its own. */
  lemma {:induction false} DenialCompared(env: Env, q: Query, res: nat, name: string, t: RRType)
    requires env.zone.soa.rrtype == TYPE_SOA && res in {NOERROR, NXDOMAIN}
    ensures var r := Response(res, [], [env.zone.soa], []);
            OnlyDenialsAdded(AddNSec(env, Signed(q), r, name, t), AddNSec(env, Unsigned(q), r, name, t))
  {
    hide AddNSec, WithoutNsec;
    var r := Response(res, [], [env.zone.soa], []);
    NoDenial(env, q, r, name, t);
    var denial := DenialAdded(env, Signed(q), r, name, t);
    DenialDropped([env.zone.soa], denial, []);
    assert [env.zone.soa] + [denial] + [] == [env.zone.soa] + [denial];
  }

  lemma {:induction false} NameCompared(env: Env, q: Query, name: string, location: string, code: MatchCode)
    requires ValidEnv(env) && env.zone.soa.rrtype == TYPE_SOA
    ensures var r := Response(NOERROR, [], [], []);
            var s := RespondAt(env, Signed(q), r, name, location, code);
            var u := RespondAt(env, Unsigned(q), r, name, location, code);
            OnlyDenialsAdded(s, u) <==>
              !(q.name == env.Apex() && AnswersFrom(env, name, location, code) && AnameFails(env, location, q.qtype))
  {
    hide ValidEnv, AtLocation, AtCut, AtEncloser, AddNSec, WithoutNsec, AnameFails;
    KeptWhole([]);
    match code
    case NoMatch => DenialCompared(env, q, NXDOMAIN, name, TYPE_NONE);
    case EmptyNonterminalMatch => DenialCompared(env, q, NOERROR, name, TYPE_NONE);
    case CEMatch => EncloserCompared(env, q, name, location);
    case _ =>
      LocationCompared(env, q, location, q.name);
      var ns := env.store.items(location, TYPE_NS);
      if ns.Ok? { CutCompared(env, q, name, location, ns.value); }
  }

  // ----- Whole responses -----

  lemma {:induction false} SameChain(env: Env, q: Query, name: string, n: nat)
    ensures ChainFrom(env, Signed(q), name, n) == ChainFrom(env, Unsigned(q), name, n)
    decreases n
  {
    hide FindZone, FindLocation, Fqdn;
    var cname := env.store.names(env.Locate(name).0, TYPE_CNAME);
    if n > 0 && cname.Ok? { SameChain(env, q, Fqdn(cname.value.host), n - 1); }
  }

  /** A query for the apex whose addresses were to come from an ANAME search, which failed. */
  predicate FailureHidden(env: Env, q: Query) {
    var end := ChainFrom(env, Unsigned(q), q.name, MAX_LOOKUPS).end;
    && q.name == env.Apex() && end.Arrived?
    && AnswersFrom(env, end.name, end.location, end.code) && AnameFails(env, end.location, q.qtype)
  }

  /**
   The signed response is the unsigned one with denials added, and NOERROR for NXDOMAIN, exactly
   unless an ANAME search for the apex failed: the denial turns that failure into NODATA.
   */
  lemma {:induction false} SignedAgreesIff(env: Env, q: Query)
    requires ValidEnv(env) && env.zone.soa.rrtype == TYPE_SOA
    ensures OnlyDenialsAdded(Answered(env, Signed(q)), Answered(env, Unsigned(q))) <==> !FailureHidden(env, q)
  {
    hide ValidEnv, ChainFrom, RespondAt, AddNSec, WithoutNsec, AnswersFrom, AnameFails;
    var c := ChainFrom(env, Unsigned(q), q.name, MAX_LOOKUPS);
    SameChain(env, q, q.name, MAX_LOOKUPS);
    KeptWhole([]);
    match c.end
    case Arrived(name, location, code) => NameCompared(env, q, name, location, code);
    case LeftZone(_) => OutsideCompared(env, q);
    case _ =>
  }

  lemma {:induction false} OutsideCompared(env: Env, q: Query)
    ensures var r := Response(NOERROR, [], [], []);
            OnlyDenialsAdded(AddNSec(env, Signed(q), r, q.name, q.qtype), AddNSec(env, Unsigned(q), r, q.name, q.qtype))
  {
    hide AddNSec, WithoutNsec;
    var r := Response(NOERROR, [], [], []);
    NoDenial(env, q, r, q.name, q.qtype);
    var denial := DenialAdded(env, Signed(q), r, q.name, q.qtype);
    DenialDropped([], denial, []);
    assert [] + [denial] + [] == [] + [denial];
  }

  // ----- A failure that is hidden -----

  /** Zone `z.`, whose apex has an ANAME to `x.`, which the upstream cannot resolve. */
  function ApexEnv(geo: AddressFilter.Geo, signer: Dnssec.Signer): (env: Env) {
    Env(
      map[".z." := "z."],
      Zone(Index("z.", map[], []), RR("z.", TYPE_SOA, 300, Fields("", "")), 300, true, true, [], signer),
      Store((_, _) => Ok(AddressFilter.IpRRSet(300, AddressFilter.FilterConfig("multi", "none", "none"), [])),
            (_, t) => Ok(if t == TYPE_ANAME then NameSet(300, "x.") else NameSet(0, "")),
            (_, _) => Ok(ItemSet(0, []))),
      geo,
      (_, _) => UpstreamReply([], SERVFAIL),
      0)
  }

  lemma {:induction false} ApexZones(zones: map<string, string>)
    requires zones == map[".z." := "z."]
    ensures FindZone(zones, "z.") == "z." && FindZone(zones, "x.") == ""
    ensures var names := ["z."]; IsZoneTreeOf(zones, names) && "" !in names
  {
    assert ReversedName("z.") == ".z." && ReversedName("x.") == ".x.";
    assert ".z."[1] == 'z' && ".x."[1] == 'x';
    hide ReversedName, LongestPrefix;
    LongestPrefixIs(zones, ".z.", ".z.");
    LongestPrefixMeans(zones, ".x.");
  }

  lemma {:induction false} ApexValid(geo: AddressFilter.Geo, signer: Dnssec.Signer)
    ensures ValidEnv(ApexEnv(geo, signer))
  {
    var env := ApexEnv(geo, signer);
    ApexZones(env.zones);
    hide FindZone;
    assert IsTreeOf(env.zone.index.tree, env.zone.index.locations);
  }

  lemma {:induction false} ApexArrives(geo: AddressFilter.Geo, signer: Dnssec.Signer, q: Query)
    requires q.name == "z." && q.qtype == TYPE_A
    ensures var env := ApexEnv(geo, signer);
            ChainFrom(env, Unsigned(q), "z.", MAX_LOOKUPS) == Chain([], Arrived("z.", "@", ExactMatch))
            && Aname.FoundAname(env, "x.", TYPE_A) == Aname.FAILED
  {
    ApexZones(ApexEnv(geo, signer).zones);
    hide FindZone;
  }

  /** Signed it is NODATA, unsigned SERVFAIL. */
  lemma {:induction false} ApexFailureHidden(geo: AddressFilter.Geo, signer: Dnssec.Signer)
    ensures var env, q := ApexEnv(geo, signer), Query("z.", TYPE_A, true, true);
            && ValidEnv(env) && FailureHidden(env, q)
            && Answered(env, Unsigned(q)) == Response(SERVFAIL, [], [], [])
            && var s := Answered(env, Signed(q));
               && s.res == NOERROR && s.answer == [] && s.additional == []
               && |s.authority| == 2 && s.authority[0].rrtype == TYPE_NSEC && s.authority[1] == env.zone.soa
  {
    hide ValidEnv, ChainFrom, AddNSec, Aname.FoundAname;
    var env, q := ApexEnv(geo, signer), Query("z.", TYPE_A, true, true);
    ApexValid(geo, signer);
    ApexArrives(geo, signer, q);
    SameChain(env, q, "z.", MAX_LOOKUPS);
    assert FailureHidden(env, q);
    RecordsOrFailure(env, q, "@", "z.");
    hide RecordsAt, AnameFails;
    var failed := Response(SERVFAIL, [] + [], [], []);
    NoDenial(env, q, failed, "z.", TYPE_A);
    var denial := DenialAdded(env, Signed(q), failed, "z.", TYPE_A);
    assert Answered(env, Unsigned(q)) == Response(SERVFAIL, [], [], []);
    assert Answered(env, Signed(q)) == Response(NOERROR, [], [denial, env.zone.soa], []);
  }
}
