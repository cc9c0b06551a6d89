/**
 CNAME flattening against the plain answer to the same query (internal/handler/handler.go:100,
 225-246 and 300-302): a simulation, with the exact condition under which it holds.
 */
module Flattening {
  import opened Wrappers
  import opened Names
  import opened ZoneIndex
  import opened Records
  import opened Requests
  import opened QueryLoop
  import opened AliasChains
  import AddressFilter
  import Aname
  import Caa

  function Flat(q: Query): (r: Query) { q.(flatten := true) }

  function Plain(q: Query): (r: Query) { q.(flatten := false) }

  /** The types whose records flattening always moves to the query name. */
  predicate Movable(t: RRType) {
    IsItemType(t) || t in {TYPE_A, TYPE_AAAA, TYPE_CNAME, TYPE_PTR}
  }

  /** The types whose records belong to the apex, whatever name is asked for. */
  predicate ApexOwned(t: RRType) { t in {TYPE_SOA, TYPE_DNSKEY} }

  ghost predicate ApexOwnsItsRecords(env: Env) {
    AllOf([env.zone.soa], env.Apex(), TYPE_SOA) && AllOf(env.zone.keys, env.Apex(), TYPE_DNSKEY)
  }

  /** Records as flattening shows them. */
  function Shown(q: Query, records: seq<RR>): (rrs: seq<RR>)
    ensures |rrs| == |records|
  {
    if ApexOwned(q.qtype) then records else Renamed(records, q.name)
  }

  /** The records at the end of an answer that share the last one's owner and type. */
  function LastRRset(answer: seq<RR>): (rrs: seq<RR>) {
    var n := |answer|;
    if n <= 1 then answer
    else if answer[n - 2].name == answer[n - 1].name && answer[n - 2].rrtype == answer[n - 1].rrtype then
      LastRRset(answer[..n - 1]) + [answer[n - 1]]
    else [answer[n - 1]]
  }

  /**
   The plain answer seen through flattening: nothing if it ends with an alias to a name of the
   zone, else its last RRset, now owned by the query name unless it is the apex's own.
   */
  function Flattened(env: Env, q: Query, answer: seq<RR>): (rrs: seq<RR>) {
    if answer == [] then []
    else
      var last := answer[|answer| - 1];
      if last.rrtype == TYPE_CNAME && q.qtype != TYPE_CNAME then
        if last.data.Target? && env.InZone(last.data.host) then [] else [last.(name := q.name)]
      else Shown(q, LastRRset(answer))
  }

  /** A flattened response `f` and a plain one `u` say the same. */
  ghost predicate Alike(env: Env, q: Query, f: Response, u: Response) {
    && f.res == u.res && f.authority == u.authority && f.additional == u.additional
    && f.answer == Flattened(env, q, u.answer)
  }

  /** The two modes answer alike. */
  ghost predicate Agree(env: Env, q: Query)
    requires ValidEnv(env)
  {
    Alike(env, q, Answered(env, Flat(q)), Answered(env, Plain(q)))
  }

  /**
   What flattening relies on, along the chain of aliases: each target is in the zone as written
   exactly when it is once qualified, and an eleventh alias does not lead out of the zone.
   */
  predicate Faithful(env: Env, q: Query, name: string, n: nat)
    decreases n
  {
    n > 0 && NextName(env, Plain(q), name).Some? ==>
      AliasAt(env, name).Ok? &&
      var host := AliasAt(env, name).value.host;
      if n == 1 then env.InZone(host)
      else (env.InZone(host) <==> env.InZone(Fqdn(host))) && (env.InZone(host) ==> Faithful(env, q, Fqdn(host), n - 1))
  }

  /** The CNAME set read for a name. */
  function AliasAt(env: Env, name: string): (r: Result<NameSet>) {
    env.store.names(env.Locate(name).0, TYPE_CNAME)
  }

  /** A zone cut with DS records. */
  predicate CutWithDs(env: Env, name: string, location: string) {
    var ns, ds := env.store.items(location, TYPE_NS), env.store.items(location, TYPE_DS);
    name != env.Apex() && ns.Ok? && !ns.value.Empty() && ds.Ok? && !ds.value.Empty()
  }

  /** The records of the CAA set that governs `name`, with the given owner. */
  ghost function CaaRecords(env: Env, name: string, owner: string): (rrs: seq<RR>)
    requires ValidEnv(env)
  {
    var caa := Caa.FoundCaa(env, name);
    if caa.Some? then ValueOf(caa.value, owner, TYPE_CAA) else []
  }

  ghost predicate SameCaa(env: Env, a: string, b: string)
    requires ValidEnv(env)
  {
    CaaRecords(env, a, a) == CaaRecords(env, b, a)
  }

  /** What flattening relies on at the name where the chain arrives, which answers itself or is a cut. */
  ghost predicate MovesFrom(env: Env, q: Query, name: string, location: string, code: MatchCode)
    requires ValidEnv(env)
  {
    MayAlias(code) ==>
      && (q.qtype == TYPE_DS ==> !CutWithDs(env, name, location))
      && (q.qtype == TYPE_CAA && AnswersFrom(env, name, location, code) ==> SameCaa(env, q.name, name))
  }

  /**
   What it relies on at the end of the chain, if aliases led there: DS records of a cut keep their
   name, and the CAA set is the one that governs the query name.
   */
  ghost predicate EndMoves(env: Env, q: Query)
    requires ValidEnv(env)
  {
    var c := ChainFrom(env, Plain(q), q.name, MAX_LOOKUPS);
    c.aliases != [] && c.end.Arrived? ==> MovesFrom(env, q, c.end.name, c.end.location, c.end.code)
  }

  // ----- Chains in the two modes -----

  function LastHost(c: Chain): (host: string)
    requires c.aliases != []
  {
    c.aliases[|c.aliases| - 1].cname.host
  }

  /** A faithful chain is the same in both modes, but for how it is said to leave the zone. */
  ghost predicate SameChain(env: Env, f: Chain, u: Chain) {
    && f.aliases == u.aliases
    && if u.end.LeftZone? && u.aliases != [] then f.end.Escaped? && !env.InZone(Fqdn(LastHost(u)))
       else f.end == u.end && !f.end.Escaped?
  }

  /** An unfaithful one is told apart by how it ends. */
  ghost predicate DifferentChain(env: Env, f: Chain, u: Chain) {
    || (f.end.Escaped? && f.aliases != [] && env.InZone(Fqdn(LastHost(f))))
    || (f.end.LeftZone? && u.end.LeftZone? && u.aliases != [] && !env.InZone(Fqdn(LastHost(u))))
    || (f.end.Escaped? && u.end.TooLong?)
  }

  /** One alias: what it adds to the chain in each mode. */
  lemma {:induction false} AliasTurn(env: Env, q: Query, name: string, n: nat)
    requires n > 0
    ensures var f, u := ChainFrom(env, Flat(q), name, n), ChainFrom(env, Plain(q), name, n);
            match NextName(env, Plain(q), name)
            case None => f == u && f.aliases == [] && !f.end.Escaped? && !f.end.TooLong?
            case Some(next) =>
              AliasAt(env, name).Ok? &&
              var cname := AliasAt(env, name).value;
              var alias := Alias(name, cname);
              var uRest, fRest := ChainFrom(env, Plain(q), next, n - 1), ChainFrom(env, Flat(q), next, n - 1);
              && next == Fqdn(cname.host) && !cname.Empty()
              && u == Chain([alias] + uRest.aliases, uRest.end)
              && f == if env.InZone(cname.host) then Chain([alias] + fRest.aliases, fRest.end) else Chain([alias], Escaped)
  {
    var (location, code) := env.Locate(name);
    var cname := env.store.names(location, TYPE_CNAME);
    var next := NextName(env, Plain(q), name);
    hide FindZone, FindLocation, Fqdn;
    assert next.None? ==> !env.InZone(name) || !MayAlias(code) || cname.Err? || cname.value.Empty() || q.qtype == TYPE_CNAME;
  }

  lemma {:induction false} OutsideNow(env: Env, q: Query, name: string, n: nat)
    requires !env.InZone(name) && n > 0
    ensures ChainFrom(env, q, name, n) == Chain([], LeftZone(name))
  {
  }

  lemma {:induction false} InsideNow(env: Env, q: Query, name: string, n: nat)
    requires env.InZone(name) && ChainFrom(env, q, name, n).aliases == []
    ensures !ChainFrom(env, q, name, n).end.LeftZone?
  {
  }

  lemma {:induction false} NoTurn(env: Env, q: Query, name: string)
    ensures ChainFrom(env, q, name, 0) == Chain([], TooLong)
  {
  }

  lemma {:induction false} ChainsCompared(env: Env, q: Query, name: string, n: nat)
    ensures var f, u := ChainFrom(env, Flat(q), name, n), ChainFrom(env, Plain(q), name, n);
            if Faithful(env, q, name, n) then SameChain(env, f, u) else DifferentChain(env, f, u)
    decreases n
  {
    hide ChainFrom, NextName, FindZone, FindLocation, Fqdn;
    if n == 0 {
      NoTurn(env, Flat(q), name);
      NoTurn(env, Plain(q), name);
    } else {
      AliasTurn(env, q, name, n);
      var next := NextName(env, Plain(q), name);
      if next.Some? {
        var host := AliasAt(env, name).value.host;
        if n == 1 {
          NoTurn(env, Flat(q), next.value);
          NoTurn(env, Plain(q), next.value);
        } else if !env.InZone(Fqdn(host)) {
          OutsideNow(env, Flat(q), next.value, n - 1);
          OutsideNow(env, Plain(q), next.value, n - 1);
        } else if env.InZone(host) {
          ChainsCompared(env, q, next.value, n - 1);
          ExtendComparison(env, q, name, n);
        }
      }
    }
  }

  lemma {:induction false} ExtendComparison(env: Env, q: Query, name: string, n: nat)
    requires n > 1 && NextName(env, Plain(q), name).Some? && AliasAt(env, name).Ok?
    requires var host := AliasAt(env, name).value.host;
             env.InZone(host) && env.InZone(Fqdn(host))
    requires var next := NextName(env, Plain(q), name).value;
             var f, u := ChainFrom(env, Flat(q), next, n - 1), ChainFrom(env, Plain(q), next, n - 1);
             if Faithful(env, q, next, n - 1) then SameChain(env, f, u) else DifferentChain(env, f, u)
    ensures var f, u := ChainFrom(env, Flat(q), name, n), ChainFrom(env, Plain(q), name, n);
            if Faithful(env, q, name, n) then SameChain(env, f, u) else DifferentChain(env, f, u)
  {
    hide ChainFrom, NextName, FindZone, FindLocation, Fqdn;
    AliasTurn(env, q, name, n);
    var next := NextName(env, Plain(q), name).value;
    var f, u := ChainFrom(env, Flat(q), next, n - 1), ChainFrom(env, Plain(q), next, n - 1);
    var fAll, uAll := ChainFrom(env, Flat(q), name, n), ChainFrom(env, Plain(q), name, n);
    if u.aliases == [] { InsideNow(env, Plain(q), next, n - 1); }
    assert f.aliases != [] ==> LastHost(fAll) == LastHost(f);
    assert u.aliases != [] ==> LastHost(uAll) == LastHost(u);
  }

  // ----- What the answers look like -----

  /** Aliases are followed only for other types than CNAME, and a chain that stops inside the zone got there by a target inside it. */
  lemma {:induction false} AliasesLeadInside(env: Env, q: Query, name: string, n: nat)
    ensures var c := ChainFrom(env, Plain(q), name, n);
            && (c.aliases != [] ==> q.qtype != TYPE_CNAME && LastHost(c) != "")
            && ((c.end.ReadError? || c.end.Arrived?) && c.aliases != [] ==> env.InZone(Fqdn(LastHost(c))))
    decreases n
  {
    hide ChainFrom, NextName, FindZone, FindLocation, Fqdn;
    if n == 0 {
      NoTurn(env, Plain(q), name);
    } else {
      AliasTurn(env, q, name, n);
      var next := NextName(env, Plain(q), name);
      if next.Some? {
        AliasType(env, q, name);
        AliasesLeadInside(env, q, next.value, n - 1);
        var c, rest := ChainFrom(env, Plain(q), name, n), ChainFrom(env, Plain(q), next.value, n - 1);
        if rest.aliases == [] {
          if !env.InZone(next.value) && n > 1 { OutsideNow(env, Plain(q), next.value, n - 1); }
          if n == 1 { NoTurn(env, Plain(q), next.value); }
        } else {
          assert LastHost(c) == LastHost(rest);
        }
      }
    }
  }

  lemma {:induction false} AliasType(env: Env, q: Query, name: string)
    requires NextName(env, Plain(q), name).Some?
    ensures q.qtype != TYPE_CNAME
  {
  }

  lemma {:induction false} LastAliasRecord(aliases: seq<Alias>)
    requires aliases != [] && aliases[|aliases| - 1].cname.host != ""
    ensures var a, records := aliases[|aliases| - 1], AliasRecords(aliases);
            records != [] && records[|records| - 1] == RR(a.owner, TYPE_CNAME, a.cname.ttl, Target(Fqdn(a.cname.host)))
  {
  }

  lemma {:induction false} LastRRsetOfTail(before: seq<RR>, tail: seq<RR>, name: string, t: RRType)
    requires tail != [] && AllOf(tail, name, t)
    requires before == [] || before[|before| - 1].rrtype != t
    ensures LastRRset(before + tail) == tail
    decreases |tail|
  {
    hide LastRRset;
    var m := |tail| - 1;
    var init := tail[..m];
    var so := before + init;
    assert before + tail == so + [tail[m]] && tail == init + [tail[m]];
    LastRRsetNext(so, tail[m]);
    if m > 0 {
      assert so[|so| - 1] == tail[m - 1];
      LastRRsetOfTail(before, init, name, t);
    } else {
      assert so == before && tail == [tail[m]];
    }
  }

  lemma {:induction false} LastRRsetNext(answer: seq<RR>, r: RR)
    ensures LastRRset(answer + [r]) ==
              if answer != [] && answer[|answer| - 1].name == r.name && answer[|answer| - 1].rrtype == r.rrtype
              then LastRRset(answer) + [r] else [r]
  {
    var longer := answer + [r];
    assert longer[..|answer|] == answer;
    assert answer == [] ==> longer == [r];
  }

  lemma {:induction false} LastOfLastRRset(answer: seq<RR>)
    requires answer != []
    ensures var l := LastRRset(answer); l != [] && l[|l| - 1] == answer[|answer| - 1]
  {
    if |answer| > 1 { LastOfLastRRset(answer[..|answer| - 1]); }
  }

  /** The flattened view never shows an alias to a name of the zone. */
  lemma {:induction false} NoInnerAlias(env: Env, q: Query, answer: seq<RR>, r: RR)
    requires q.qtype != TYPE_CNAME && r.rrtype == TYPE_CNAME && r.data.Target? && env.InZone(r.data.host)
    ensures Flattened(env, q, answer) != [r]
  {
    hide LastRRset, FindZone;
    if answer != [] { LastOfLastRRset(answer); }
  }

  // ----- Responses in the two modes -----

  lemma {:induction false} RecordsMoved(env: Env, q: Query, location: string, name: string)
    requires ValidEnv(env) && Movable(q.qtype)
    ensures var f, u := RecordsAt(env, Flat(q), location, q.name), RecordsAt(env, Plain(q), location, name);
            && !u.Unsupported? && (f.Unreadable? <==> u.Unreadable?)
            && (u.Found? ==>
                  && f == Found(Renamed(u.answer, q.name), u.res)
                  && AllOf(u.answer, name, q.qtype)
                  && (q.qtype == TYPE_CNAME ==> |u.answer| <= 1))
  {
    hide ValidEnv, Aname.FoundAname, AddressFilter.FilterIps, ItemRecords, AddressRecords;
    var t := q.qtype;
    if t == TYPE_A || t == TYPE_AAAA {
      var ips, aname := env.store.ips(location, t), env.store.names(location, TYPE_ANAME);
      if ips.Ok? && aname.Ok? {
        var found := Aname.FoundAname(env, aname.value.host, t);
        AddressRecordsRenamed(found.ips, name, q.name, t, found.ttl);
        AddressRecordsRenamed(AddressFilter.FilterIps(env.geo, ips.value, env.now), name, q.name, t, ips.value.ttl);
      }
    } else if IsItemType(t) {
      var s := env.store.items(location, t);
      if s.Ok? { ItemRecordsRenamed(s.value.items, name, q.name, t, s.value.ttl); }
    }
  }

  /** Aliases so far, the last of which leads to a name of the zone. */
  predicate LeadInside(env: Env, q: Query, aliases: seq<Alias>) {
    aliases != [] ==>
      var host := aliases[|aliases| - 1].cname.host;
      host != "" && env.InZone(Fqdn(host)) && q.qtype != TYPE_CNAME
  }

  /** A plain answer that ends with an alias into the zone, or is empty, shows nothing. */
  lemma {:induction false} NothingToShow(env: Env, q: Query, aliases: seq<Alias>)
    requires LeadInside(env, q, aliases)
    ensures Flattened(env, q, AliasRecords(aliases)) == []
  {
    hide FindZone, Fqdn;
    if aliases != [] { LastAliasRecord(aliases); }
  }

  lemma {:induction false} RecordsShown(env: Env, q: Query, aliases: seq<Alias>, answer: seq<RR>, owner: string)
    requires answer != [] && AllOf(answer, owner, q.qtype)
    requires aliases != [] ==> aliases[|aliases| - 1].cname.host != "" && q.qtype != TYPE_CNAME
    ensures Flattened(env, q, AliasRecords(aliases) + answer) == Shown(q, answer)
  {
    hide FindZone, Fqdn, Shown;
    if aliases != [] { LastAliasRecord(aliases); }
    hide AliasRecords;
    var all := AliasRecords(aliases) + answer;
    assert aliases == [] ==> AliasRecords(aliases) == [] by { NoAliases(); }
    assert all[|all| - 1] == answer[|answer| - 1];
    LastRRsetOfTail(AliasRecords(aliases), answer, owner, q.qtype);
    hide LastRRset;
  }

  lemma {:induction false} NoAliases()
    ensures AliasRecords([]) == []
  {
  }

  /** The records of every type, found for the query name and for the name at the end of the chain. */
  lemma {:induction false} RecordsCompared(env: Env, q: Query, location: string, name: string) returns (owner: string)
    requires ValidEnv(env) && (ApexOwned(q.qtype) ==> ApexOwnsItsRecords(env))
    ensures var f, u := RecordsAt(env, Flat(q), location, q.name), RecordsAt(env, Plain(q), location, name);
            && (f.Unreadable? <==> u.Unreadable?) && (f.Unsupported? <==> u.Unsupported?)
            && (q.qtype == TYPE_CAA ==> u.Found?)
            && (u.Found? ==>
                  && f.res == u.res && AllOf(u.answer, owner, q.qtype)
                  && (q.qtype in {TYPE_CAA, TYPE_DS, TYPE_SOA, TYPE_DNSKEY} ==> u.res.None?)
                  && (q.qtype != TYPE_CAA ==> f.answer == Shown(q, u.answer))
                  && (q.qtype == TYPE_CAA ==> (f.answer == Shown(q, u.answer) <==> SameCaa(env, q.name, name))))
  {
    hide ValidEnv, ItemRecords;
    owner := if ApexOwned(q.qtype) then env.Apex() else name;
    if Movable(q.qtype) {
      RecordsMoved(env, q, location, name);
      hide RecordsAt;
    } else if q.qtype == TYPE_CAA {
      CaaMoved(env, q, location, name);
      hide RecordsAt, Caa.FoundCaa;
    }
  }

  lemma {:induction false} CaaMoved(env: Env, q: Query, location: string, name: string)
    requires ValidEnv(env) && q.qtype == TYPE_CAA
    ensures RecordsAt(env, Flat(q), location, q.name) == Found(CaaRecords(env, q.name, q.name), None)
    ensures RecordsAt(env, Plain(q), location, name) == Found(CaaRecords(env, name, name), None)
    ensures AllOf(CaaRecords(env, name, name), name, TYPE_CAA)
    ensures CaaRecords(env, name, q.name) == Renamed(CaaRecords(env, name, name), q.name)
  {
    hide ValidEnv, Caa.FoundCaa, ItemRecords;
    var caa := Caa.FoundCaa(env, name);
    if caa.Some? { ItemRecordsRenamed(caa.value.items, name, q.name, TYPE_CAA, caa.value.ttl); }
  }

  lemma {:induction false} NothingShown(env: Env, q: Query)
    ensures Flattened(env, q, []) == [] && Shown(q, []) == []
  {
  }

  lemma {:induction false} AlikeAtLocation(env: Env, q: Query, aliases: seq<Alias>, location: string, name: string)
    requires ValidEnv(env) && !q.dnssec && LeadInside(env, q, aliases)
    requires ApexOwned(q.qtype) ==> ApexOwnsItsRecords(env)
    ensures var f := AtLocation(env, Flat(q), Response(NOERROR, [], [], []), location, q.name);
            var u := AtLocation(env, Plain(q), Response(NOERROR, AliasRecords(aliases), [], []), location, name);
            Alike(env, q, f, u) <==> (q.qtype == TYPE_CAA ==> SameCaa(env, q.name, name))
  {
    hide ValidEnv, RecordsAt, Flattened, Shown, AliasRecords, FindZone, Fqdn, SameCaa, AllOf, ApexOwnsItsRecords;
    var owner := RecordsCompared(env, q, location, name);
    NothingToShow(env, q, aliases);
    NothingShown(env, q);
    var f, u := RecordsAt(env, Flat(q), location, q.name), RecordsAt(env, Plain(q), location, name);
    assert AliasRecords(aliases) + [] == AliasRecords(aliases);
    if u.Found? {
      assert [] + f.answer == f.answer;
      if u.answer != [] { RecordsShown(env, q, aliases, u.answer, owner); }
    }
  }

  /** A denial or referral at an encloser is the same in both modes and leaves the answer alone. */
  lemma {:induction false} SameAtEncloser(env: Env, q: Query, answer: seq<RR>, name: string, location: string)
    requires !q.dnssec
    ensures var f, u := Response(NOERROR, [], [], []), Response(NOERROR, answer, [], []);
            && AtEncloser(env, Plain(q), u, name, location)
               == AtEncloser(env, Flat(q), f, name, location).(answer := answer)
            && AtEncloser(env, Flat(q), f, name, location).answer == []
  {
    hide ItemRecords, Glue;
  }

  /** So is a referral at a cut. */
  lemma {:induction false} SameAtCut(env: Env, q: Query, answer: seq<RR>, name: string, location: string, ns: ItemSet)
    requires !q.dnssec
    requires var ds := env.store.items(location, TYPE_DS); q.qtype != TYPE_DS || ds.Err? || ds.value.Empty()
    ensures var f, u := Response(NOERROR, [], [], []), Response(NOERROR, answer, [], []);
            && AtCut(env, Plain(q), u, name, location, ns) == AtCut(env, Flat(q), f, name, location, ns).(answer := answer)
            && AtCut(env, Flat(q), f, name, location, ns).answer == []
  {
    hide ItemRecords, Glue;
  }

  /** DS records keep the name of the cut. */
  lemma {:induction false} DsAtCut(env: Env, q: Query, aliases: seq<Alias>, name: string, location: string, ns: ItemSet)
    requires q.qtype == TYPE_DS && LeadInside(env, q, aliases)
    requires var ds := env.store.items(location, TYPE_DS); ds.Ok? && !ds.value.Empty()
    ensures var f := AtCut(env, Flat(q), Response(NOERROR, [], [], []), name, location, ns);
            var u := AtCut(env, Plain(q), Response(NOERROR, AliasRecords(aliases), [], []), name, location, ns);
            Alike(env, q, f, u) <==> name == q.name
  {
    hide ItemRecords, Flattened, AliasRecords, FindZone, Fqdn, LeadInside, Glue, AllOf, Shown;
    var ds := env.store.items(location, TYPE_DS).value;
    var signers := ValueOf(ds, name, TYPE_DS);
    ItemRecordsEmptyIff(ds.items, name, TYPE_DS, ds.ttl);
    assert signers != [] by { var first := ds.items[0]; assert !(SkipsEmpty(TYPE_DS) && first.key == ""); }
    LastAliasHost(env, q, aliases);
    RecordsShown(env, q, aliases, signers, name);
    ShownMoves(q, signers, name);
    assert [] + signers == signers;
  }

  lemma {:induction false} LastAliasHost(env: Env, q: Query, aliases: seq<Alias>)
    requires LeadInside(env, q, aliases)
    ensures aliases != [] ==> aliases[|aliases| - 1].cname.host != "" && q.qtype != TYPE_CNAME
  {
  }

  /** Moving records to the query name changes nothing exactly when it is their name. */
  lemma {:induction false} ShownMoves(q: Query, records: seq<RR>, name: string)
    requires records != [] && AllOf(records, name, q.qtype) && !ApexOwned(q.qtype)
    ensures Shown(q, records) == records <==> name == q.name
  {
    assert Shown(q, records)[0].name == q.name && records[0].name == name;
  }

  lemma {:induction false} AlikeAtName(env: Env, q: Query, aliases: seq<Alias>, name: string, location: string, code: MatchCode)
    requires ValidEnv(env) && !q.dnssec && LeadInside(env, q, aliases)
    requires ApexOwned(q.qtype) ==> ApexOwnsItsRecords(env)
    ensures var f := RespondAt(env, Flat(q), Response(NOERROR, [], [], []), name, location, code);
            var u := RespondAt(env, Plain(q), Response(NOERROR, AliasRecords(aliases), [], []), name, location, code);
            Alike(env, q, f, u) <==> (name == q.name || MovesFrom(env, q, name, location, code))
  {
    hide ValidEnv, AtLocation, AtCut, AtEncloser, Flattened, AliasRecords, LeadInside, CaaRecords, ApexOwnsItsRecords;
    NothingToShow(env, q, aliases);
    match code
    case CEMatch => SameAtEncloser(env, q, AliasRecords(aliases), name, location);
    case ExactMatch => AlikeWhereFound(env, q, aliases, name, location, code);
    case WildCardMatch => AlikeWhereFound(env, q, aliases, name, location, code);
    case _ =>
  }

  lemma {:induction false} AlikeWhereFound(env: Env, q: Query, aliases: seq<Alias>, name: string, location: string, code: MatchCode)
    requires ValidEnv(env) && !q.dnssec && LeadInside(env, q, aliases) && MayAlias(code)
    requires ApexOwned(q.qtype) ==> ApexOwnsItsRecords(env)
    ensures var f := RespondAt(env, Flat(q), Response(NOERROR, [], [], []), name, location, code);
            var u := RespondAt(env, Plain(q), Response(NOERROR, AliasRecords(aliases), [], []), name, location, code);
            Alike(env, q, f, u) <==> (name == q.name || MovesFrom(env, q, name, location, code))
  {
    hide ValidEnv, AtLocation, AtCut, Flattened, AliasRecords, LeadInside, CaaRecords, ApexOwnsItsRecords;
    NothingToShow(env, q, aliases);
    var ns, ds := env.store.items(location, TYPE_NS), env.store.items(location, TYPE_DS);
    if AnswersFrom(env, name, location, code) {
      AlikeAtLocation(env, q, aliases, location, name);
    } else if ns.Ok? {
      if q.qtype == TYPE_DS && ds.Ok? && !ds.value.Empty() {
        DsAtCut(env, q, aliases, name, location, ns.value);
      } else {
        SameAtCut(env, q, AliasRecords(aliases), name, location, ns.value);
      }
    }
  }

  /** A chain of aliases that arrives does so at another name than it started from. */
  lemma {:induction false} ArrivesElsewhere(env: Env, q: Query)
    ensures var c := ChainFrom(env, Plain(q), q.name, MAX_LOOKUPS);
            c.end.Arrived? ==> (c.aliases == [] <==> c.end.name == q.name)
  {
    hide ChainFrom, Hop, NextName;
    var c := ChainFrom(env, Plain(q), q.name, MAX_LOOKUPS);
    ArrivedAfterHops(env, q, q.name, MAX_LOOKUPS);
    assert Hop(env, Plain(q), q.name, 0) == Some(q.name) by { NoHop(env, Plain(q), q.name); }
    if c.end.Arrived? && c.aliases != [] && c.end.name == q.name {
      CycleNeverEnds(env, Plain(q), q.name, 0, |c.aliases|, MAX_LOOKUPS);
      TooLongIffHops(env, Plain(q), q.name, MAX_LOOKUPS);
    }
  }

  lemma {:induction false} NoHop(env: Env, q: Query, name: string)
    ensures Hop(env, q, name, 0) == Some(name)
  {
  }

  lemma {:induction false} ArrivedAfterHops(env: Env, q: Query, name: string, n: nat)
    ensures var c := ChainFrom(env, Plain(q), name, n);
            c.end.Arrived? ==> Hop(env, Plain(q), name, |c.aliases|) == Some(c.end.name)
    decreases n
  {
    hide ChainFrom, Hop, NextName, FindZone, FindLocation, Fqdn;
    NoHop(env, Plain(q), name);
    FirstAlias(env, Plain(q), name, n);
    if n == 0 {
      NoTurn(env, Plain(q), name);
    } else {
      AliasTurn(env, q, name, n);
      var next := NextName(env, Plain(q), name);
      if next.Some? {
        ArrivedAfterHops(env, q, next.value, n - 1);
        HopFrom(env, Plain(q), name, |ChainFrom(env, Plain(q), next.value, n - 1).aliases|);
      }
    }
  }

  lemma {:induction false} SameChainsCompared(env: Env, q: Query)
    requires ValidEnv(env) && !q.dnssec && (ApexOwned(q.qtype) ==> ApexOwnsItsRecords(env))
    requires SameChain(env, ChainFrom(env, Flat(q), q.name, MAX_LOOKUPS), ChainFrom(env, Plain(q), q.name, MAX_LOOKUPS))
    ensures Agree(env, q) <==> EndMoves(env, q)
  {
    hide ValidEnv, ChainFrom, RespondAt, FindZone, Fqdn, MovesFrom, ApexOwnsItsRecords;
    var u := ChainFrom(env, Plain(q), q.name, MAX_LOOKUPS);
    AliasesLeadInside(env, q, q.name, MAX_LOOKUPS);
    NoAliases();
    if u.aliases != [] { LastAliasRecord(u.aliases); }
    match u.end
    case Arrived(name, location, code) =>
      ArrivesElsewhere(env, q);
      AlikeAtName(env, q, u.aliases, name, location, code);
      hide Flattened, AliasRecords, Alike;
    case ReadError =>
      NothingToShow(env, q, u.aliases);
      hide Flattened, AliasRecords;
    case _ =>
  }

  lemma {:induction false} DifferentChainsDisagree(env: Env, q: Query)
    requires ValidEnv(env) && !q.dnssec
    requires DifferentChain(env, ChainFrom(env, Flat(q), q.name, MAX_LOOKUPS), ChainFrom(env, Plain(q), q.name, MAX_LOOKUPS))
    ensures !Agree(env, q)
  {
    hide ValidEnv, ChainFrom, RespondAt, FindZone, Fqdn;
    var f, u := ChainFrom(env, Flat(q), q.name, MAX_LOOKUPS), ChainFrom(env, Plain(q), q.name, MAX_LOOKUPS);
    AliasesLeadInside(env, q, q.name, MAX_LOOKUPS);
    FlatAliases(env, q, q.name, MAX_LOOKUPS);
    if f.end.Escaped? && f.aliases != [] && env.InZone(Fqdn(LastHost(f))) {
      var r := Answered(env, Flat(q)).answer;
      assert |r| == 1;
      NoInnerAlias(env, q, Answered(env, Plain(q)).answer, r[0]);
      hide Flattened;
    } else if u.end.LeftZone? && u.aliases != [] {
      LastAliasRecord(u.aliases);
    }
  }

  lemma {:induction false} FlatAliases(env: Env, q: Query, name: string, n: nat)
    ensures var c := ChainFrom(env, Flat(q), name, n);
            c.aliases != [] ==> q.qtype != TYPE_CNAME && LastHost(c) != ""
    decreases n
  {
    hide ChainFrom, NextName, FindZone, FindLocation, Fqdn;
    if n == 0 {
      NoTurn(env, Flat(q), name);
    } else {
      AliasTurn(env, q, name, n);
      var next := NextName(env, Plain(q), name);
      if next.Some? {
        AliasType(env, q, name);
        FlatAliases(env, q, next.value, n - 1);
        var c, rest := ChainFrom(env, Flat(q), name, n), ChainFrom(env, Flat(q), next.value, n - 1);
        assert rest.aliases != [] && |c.aliases| > 1 ==> LastHost(c) == LastHost(rest);
      }
    }
  }

  /**
   The simulation, for every zone, every store and every type: without DNSSEC the flattened and the
   plain response have the same rcode, authority and additional sections, and the flattened
   answer is the plain answer's last RRset moved to the query name, exactly when the chain is
   faithful and so is its end.
   */
  lemma {:induction false} FlatteningAgreesIff(env: Env, q: Query)
    requires ValidEnv(env) && !q.dnssec && (ApexOwned(q.qtype) ==> ApexOwnsItsRecords(env))
    ensures Agree(env, q) <==> Faithful(env, q, q.name, MAX_LOOKUPS) && EndMoves(env, q)
  {
    hide Agree, Faithful, ChainFrom, ValidEnv, EndMoves, ApexOwnsItsRecords;
    ChainsCompared(env, q, q.name, MAX_LOOKUPS);
    if Faithful(env, q, q.name, MAX_LOOKUPS) { SameChainsCompared(env, q); } else { DifferentChainsDisagree(env, q); }
  }

  /** For every type but CAA and DS the faithful chain alone decides. */
  lemma {:induction false} FlatteningAgreesIffFaithful(env: Env, q: Query)
    requires ValidEnv(env) && !q.dnssec && (ApexOwned(q.qtype) ==> ApexOwnsItsRecords(env))
    requires q.qtype != TYPE_CAA && q.qtype != TYPE_DS
    ensures Agree(env, q) <==> Faithful(env, q, q.name, MAX_LOOKUPS)
  {
    hide Agree, Faithful, ChainFrom, ValidEnv, ApexOwnsItsRecords;
    FlatteningAgreesIff(env, q);
  }

  /** In particular it is for fully qualified targets and at most ten aliases. */
  lemma {:induction false} QualifiedIsFaithful(env: Env, q: Query, name: string, n: nat)
    requires n > 0 && Hop(env, Plain(q), name, n).None?
    requires forall location :: var s := env.store.names(location, TYPE_CNAME);
               s.Ok? && !s.value.Empty() ==> IsFqdn(s.value.host)
    ensures Faithful(env, q, name, n)
    decreases n
  {
    hide FindZone, FindLocation, IsFqdn;
    HopFrom(env, Plain(q), name, n - 1);
    var next := NextName(env, Plain(q), name);
    if next.Some? {
      assert Hop(env, Plain(q), next.value, 0) == next;
      if n > 1 { QualifiedIsFaithful(env, q, next.value, n - 1); }
    }
  }
}
