/** The shape of an unflattened answer, and what happens to long and cyclic chains in either mode. */
module AliasChains {
  import opened Wrappers
  import opened Names
  import opened ZoneIndex
  import opened Records
  import opened Requests
  import opened QueryLoop
  import Aname
  import AddressFilter
  import Caa

  // ----- Section 4.3.2 of RFC 1034: the answer is a contiguous chain -----

  /**
   CNAME records, the first owned by `name` and each naming the owner of the next, followed by
   records of the query type owned by the name the last CNAME gives.
   */
  ghost predicate AliasChain(answer: seq<RR>, name: string, qtype: RRType)
    decreases |answer|
  {
    AllOf(answer, name, qtype) ||
    (answer != [] && answer[0].name == name && answer[0].rrtype == TYPE_CNAME && answer[0].data.Target?
     && AliasChain(answer[1..], answer[0].data.host, qtype))
  }

  /** The aliases lead from `name` to `last`. */
  ghost predicate Linked(aliases: seq<Alias>, name: string, last: string)
    decreases |aliases|
  {
    if aliases == [] then name == last
    else aliases[0].owner == name && !aliases[0].cname.Empty() && Linked(aliases[1..], Fqdn(aliases[0].cname.host), last)
  }

  /** The name a chain ends with. */
  ghost predicate EndsAt(c: Chain, last: string) {
    match c.end
    case LeftZone(at) => last == at
    case Arrived(at, _, _) => last == at
    case _ => true
  }

  lemma {:induction false} ChainIsLinked(env: Env, q: Query, name: string, n: nat) returns (last: string)
    ensures var c := ChainFrom(env, q, name, n); Linked(c.aliases, name, last) && EndsAt(c, last)
    decreases n
  {
    var c := ChainFrom(env, q, name, n);
    FirstAlias(env, q, name, n);
    hide ChainFrom, Fqdn;
    if c.aliases == [] {
      last := name;
    } else if c.end.Escaped? && |c.aliases| == 1 {
      last := Fqdn(c.aliases[0].cname.host);
      assert c.aliases[1..] == [];
    } else {
      last := ChainIsLinked(env, q, Fqdn(c.aliases[0].cname.host), n - 1);
    }
  }

  /** The first alias of a chain, and the chain behind it. */
  lemma {:induction false} FirstAlias(env: Env, q: Query, name: string, n: nat)
    ensures var c := ChainFrom(env, q, name, n);
            if c.aliases == [] then EndsAt(c, name)
            else
              && n > 0 && c.aliases[0].owner == name && !c.aliases[0].cname.Empty()
              && ((c.end.Escaped? && |c.aliases| == 1) ||
                  ChainFrom(env, q, Fqdn(c.aliases[0].cname.host), n - 1) == Chain(c.aliases[1..], c.end))
  {
    hide FindZone, FindLocation, Fqdn;
    var c := ChainFrom(env, q, name, n);
    if c.aliases != [] && !(c.end.Escaped? && |c.aliases| == 1) {
      var rest := ChainFrom(env, q, Fqdn(c.aliases[0].cname.host), n - 1);
      assert ([c.aliases[0]] + rest.aliases)[1..] == rest.aliases;
    }
  }

  lemma {:induction false} AliasRecordsConcat(a: seq<Alias>, b: seq<Alias>)
    ensures AliasRecords(a + b) == AliasRecords(a) + AliasRecords(b)
  {
    hide AliasRecord;
    if b == [] {
      assert a + b == a;
    } else {
      var n := |b| - 1;
      AliasRecordsConcat(a, b[..n]);
      assert (a + b)[..|a| + n] == a + b[..n];
    }
  }

  lemma {:induction false} FirstAliasRecord(aliases: seq<Alias>)
    requires aliases != []
    ensures AliasRecords(aliases) == AliasRecord(aliases[0]) + AliasRecords(aliases[1..])
  {
    hide AliasRecord;
    var first, rest := [aliases[0]], aliases[1..];
    assert aliases == first + rest && first[..0] == [];
    AliasRecordsConcat(first, rest);
  }

  /** Linked aliases followed by records of the last name form an alias chain. */
  lemma {:induction false} LinkedGivesChain(aliases: seq<Alias>, name: string, last: string, tail: seq<RR>, qtype: RRType)
    requires Linked(aliases, name, last) && AllOf(tail, last, qtype)
    ensures AliasChain(AliasRecords(aliases) + tail, name, qtype)
    decreases |aliases|
  {
    hide AliasRecords, AliasRecord, AliasChain, AllOf, Fqdn;
    if aliases == [] {
      NoAliasChain(tail, name, qtype);
    } else {
      var first, rest := aliases[0], aliases[1..];
      FirstAliasRecord(aliases);
      OneAliasRecord(first);
      LinkedGivesChain(rest, Fqdn(first.cname.host), last, tail, qtype);
      var r := RR(name, TYPE_CNAME, first.cname.ttl, Target(Fqdn(first.cname.host)));
      ChainCons(r, AliasRecords(rest) + tail, qtype);
      assert AliasRecords(aliases) + tail == [r] + (AliasRecords(rest) + tail);
    }
  }

  lemma {:induction false} NoAliasChain(tail: seq<RR>, name: string, qtype: RRType)
    requires AllOf(tail, name, qtype)
    ensures AliasChain(AliasRecords([]) + tail, name, qtype)
  {
    assert AliasRecords([]) + tail == tail;
  }

  lemma {:induction false} OneAliasRecord(a: Alias)
    requires !a.cname.Empty()
    ensures AliasRecord(a) == [RR(a.owner, TYPE_CNAME, a.cname.ttl, Target(Fqdn(a.cname.host)))]
  {
  }

  lemma {:induction false} ChainCons(r: RR, rest: seq<RR>, qtype: RRType)
    requires r.rrtype == TYPE_CNAME && r.data.Target? && AliasChain(rest, r.data.host, qtype)
    ensures AliasChain([r] + rest, r.name, qtype)
  {
    assert ([r] + rest)[1..] == rest;
  }

  /** The records found at a location have the query's type and the name they are asked for under. */
  lemma {:induction false} RecordsOwned(env: Env, q: Query, location: string, name: string)
    requires ValidEnv(env) && q.qtype != TYPE_SOA && q.qtype != TYPE_DNSKEY
    ensures var a := RecordsAt(env, q, location, name); a.Found? ==> AllOf(a.answer, name, q.qtype)
  {
    hide ValidEnv, FindLocation, FindZone, ItemRecords, AddressRecords, Caa.FoundCaa, Aname.FoundAname, AddressFilter.FilterIps;
  }

  /** What a response adds to the answer. */
  function Added(r: Response, t: Response): (rrs: seq<RR>) {
    if |t.answer| >= |r.answer| then t.answer[|r.answer|..] else []
  }

  ghost predicate Adds(r: Response, t: Response, name: string, qtype: RRType) {
    AllOf(Added(r, t), name, qtype) && (t.answer == r.answer + Added(r, t) || (t.answer == [] && Added(r, t) == []))
  }

  lemma {:induction false} LocationAdds(env: Env, q: Query, r: Response, location: string, name: string)
    requires ValidEnv(env) && q.qtype != TYPE_SOA && q.qtype != TYPE_DNSKEY
    ensures Adds(r, AtLocation(env, q, r, location, name), name, q.qtype)
  {
    RecordsOwned(env, q, location, name);
    hide ValidEnv, RecordsAt;
    assert r.answer + [] == r.answer;
  }

  lemma {:induction false} CutAdds(env: Env, q: Query, r: Response, name: string, location: string, ns: ItemSet)
    ensures Adds(r, AtCut(env, q, r, name, location, ns), name, q.qtype)
  {
    hide ItemRecords, Glue;
    assert r.answer + [] == r.answer;
  }

  /** Responding at a name adds records of that name and type to the answer, or clears it. */
  lemma {:induction false} RespondAtAdds(env: Env, q: Query, r: Response, name: string, location: string, code: MatchCode)
    requires ValidEnv(env) && q.qtype != TYPE_SOA && q.qtype != TYPE_DNSKEY && !q.flatten
    ensures Adds(r, RespondAt(env, q, r, name, location, code), name, q.qtype)
  {
    hide ValidEnv, AtLocation, AtCut, Glue, ItemRecords;
    var ns := env.store.items(location, TYPE_NS);
    LocationAdds(env, q, r, location, name);
    if ns.Ok? { CutAdds(env, q, r, name, location, ns.value); }
    assert r.answer + [] == r.answer;
  }

  /**
   Without flattening the answer to every query but one for SOA or DNSKEY is a contiguous alias
   chain that starts at the query name.
   */
  lemma {:induction false} AnswerIsAliasChain(env: Env, q: Query)
    requires ValidEnv(env) && !q.flatten && q.qtype != TYPE_SOA && q.qtype != TYPE_DNSKEY
    ensures AliasChain(Answered(env, q).answer, q.name, q.qtype)
  {
    hide ValidEnv, ChainFrom, RespondAt;
    var c := ChainFrom(env, q, q.name, MAX_LOOKUPS);
    var last := ChainIsLinked(env, q, q.name, MAX_LOOKUPS);
    var r := Response(NOERROR, AliasRecords(c.aliases), [], []);
    var tail: seq<RR> := [];
    if c.end.Arrived? {
      RespondAtAdds(env, q, r, c.end.name, c.end.location, c.end.code);
      tail := Added(r, Answered(env, q));
    }
    LinkedGivesChain(c.aliases, q.name, last, tail, q.qtype);
    assert AliasRecords(c.aliases) + [] == AliasRecords(c.aliases);
  }

  // ----- Long and cyclic chains -----

  /** Where the alias at `name` leads, if `name` is an alias of the zone; flattened, only to a target in the zone as written. */
  function NextName(env: Env, q: Query, name: string): (r: Option<string>) {
    if !env.InZone(name) then None
    else
      var (location, code) := env.Locate(name);
      var cname := env.store.names(location, TYPE_CNAME);
      if MayAlias(code) && cname.Ok? && !cname.value.Empty() && q.qtype != TYPE_CNAME
         && (q.flatten ==> env.InZone(cname.value.host)) then Some(Fqdn(cname.value.host))
      else None
  }

  /** The name `k` aliases further on. */
  function Hop(env: Env, q: Query, name: string, k: nat): (r: Option<string>) {
    if k == 0 then Some(name)
    else
      match Hop(env, q, name, k - 1)
      case None => None
      case Some(at) => NextName(env, q, at)
  }

  lemma {:induction false} HopFrom(env: Env, q: Query, name: string, k: nat)
    ensures Hop(env, q, name, k + 1) ==
              match NextName(env, q, name) case None => None case Some(next) => Hop(env, q, next, k)
  {
    hide NextName;
    if k > 0 { HopFrom(env, q, name, k - 1); } else { assert Hop(env, q, name, 0) == Some(name); }
  }

  lemma {:induction false} NoLookups(env: Env, q: Query, name: string)
    ensures ChainFrom(env, q, name, 0) == Chain([], TooLong)
  {
  }

  lemma {:induction false} ChainTurn(env: Env, q: Query, name: string, n: nat)
    requires n > 0
    ensures var c := ChainFrom(env, q, name, n);
            match NextName(env, q, name)
            case None => !c.end.TooLong? && if c.end.Escaped? then q.flatten && |c.aliases| == 1 else c.aliases == []
            case Some(next) =>
              var rest := ChainFrom(env, q, next, n - 1); c.end == rest.end && |c.aliases| == |rest.aliases| + 1
  {
    var (location, code) := env.Locate(name);
    var cname := env.store.names(location, TYPE_CNAME);
    var next := NextName(env, q, name);
    hide FindZone, FindLocation, Fqdn;
    assert next.None? ==> !env.InZone(name) || !MayAlias(code) || cname.Err? || cname.value.Empty() || q.qtype == TYPE_CNAME
                          || (q.flatten && !env.InZone(cname.value.host));
  }

  /** The bound of the loop is met exactly by chains of that many aliases, in either mode. */
  lemma {:induction false} TooLongIffHops(env: Env, q: Query, name: string, n: nat)
    ensures var c := ChainFrom(env, q, name, n);
            && (c.end.TooLong? <==> Hop(env, q, name, n).Some?)
            && (c.end.TooLong? <==> |c.aliases| == n && !c.end.Escaped?)
            && (c.end.Escaped? ==> q.flatten)
    decreases n
  {
    hide ChainFrom, NextName;
    assert ChainFrom(env, q, name, 0) == Chain([], TooLong) by { NoLookups(env, q, name); }
    if n > 0 {
      HopFrom(env, q, name, n - 1);
      ChainTurn(env, q, name, n);
      var next := NextName(env, q, name);
      if next.Some? { TooLongIffHops(env, q, next.value, n - 1); }
    }
  }

  lemma {:induction false} HopsPrefix(env: Env, q: Query, name: string, j: nat, k: nat)
    requires j <= k && Hop(env, q, name, k).Some?
    ensures Hop(env, q, name, j).Some?
    decreases k
  {
    hide NextName;
    if j < k { HopsPrefix(env, q, name, j, k - 1); }
  }

  /** Once a name comes back, every further number of hops leads somewhere. */
  lemma {:induction false} CycleNeverEnds(env: Env, q: Query, name: string, i: nat, j: nat, k: nat)
    requires i < j && Hop(env, q, name, j).Some? && Hop(env, q, name, i) == Hop(env, q, name, j)
    ensures Hop(env, q, name, k).Some?
    decreases k
  {
    hide Hop;
    if k <= j {
      HopsPrefix(env, q, name, k, j);
    } else {
      CycleNeverEnds(env, q, name, i, j, k - (j - i));
      SameTail(env, q, name, i, j, k - j);
      assert i + (k - j) == k - (j - i) && j + (k - j) == k;
    }
  }

  lemma {:induction false} SameTail(env: Env, q: Query, name: string, i: nat, j: nat, d: nat)
    requires Hop(env, q, name, i) == Hop(env, q, name, j)
    ensures Hop(env, q, name, i + d) == Hop(env, q, name, j + d)
  {
    hide NextName;
    if d > 0 { SameTail(env, q, name, i, j, d - 1); }
  }

  /** In either mode a chain of eleven aliases within the zone is answered SERVFAIL with nothing in any section. */
  lemma {:induction false} LongChainsFail(env: Env, q: Query)
    requires ValidEnv(env) && Hop(env, q, q.name, MAX_LOOKUPS).Some?
    ensures Answered(env, q) == Response(SERVFAIL, [], [], [])
  {
    hide ValidEnv, ChainFrom, Hop;
    TooLongIffHops(env, q, q.name, MAX_LOOKUPS);
  }

  /** And so is every cycle of aliases, wherever it is entered. */
  lemma {:induction false} CyclesFail(env: Env, q: Query, i: nat, j: nat)
    requires ValidEnv(env)
    requires i < j && Hop(env, q, q.name, j).Some? && Hop(env, q, q.name, i) == Hop(env, q, q.name, j)
    ensures Answered(env, q) == Response(SERVFAIL, [], [], [])
  {
    hide ValidEnv, ChainFrom, Hop;
    CycleNeverEnds(env, q, q.name, i, j, MAX_LOOKUPS);
    LongChainsFail(env, q);
  }
}
