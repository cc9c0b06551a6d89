/**
 `HandleRequest` (internal/handler/handler.go:62-435) as it runs: a loop that updates the
 request context, proved to leave in it the response of module `QueryLoop`.
 */
module Handler {
  import opened Wrappers
  import opened Names
  import opened ZoneIndex
  import opened Records
  import opened Requests
  import opened QueryLoop
  import Aname
  import AddressFilter
  import Caa
  import Dnssec

  /** What everything outside answers while one request runs. */
  datatype Server = Server(
    zones: map<string, string>,
    load: string -> Option<Zone>,
    stores: string -> Store,
    geo: AddressFilter.Geo,
    upstream: (string, RRType) -> UpstreamReply,
    now: nat)

  ghost predicate ValidServer(server: Server) {
    && (exists names :: IsZoneTreeOf(server.zones, names) && "" !in names)
    && forall z :: server.load(z).Some? ==>
         var zone := server.load(z).value;
         && zone.index.name == z && IsTreeOf(zone.index.tree, zone.index.locations)
         && Dnssec.ValidSigner(zone.signer)
  }

  function EnvFor(server: Server, zone: Zone): (r: Env) {
    Env(server.zones, zone, server.stores(zone.index.name), server.geo, server.upstream, server.now)
  }

  /** The whole chain is the aliases already passed and the chain from `name`. */
  ghost predicate Along(env: Env, q: Query, passed: seq<Alias>, name: string, n: nat) {
    var rest := ChainFrom(env, q, name, n);
    ChainFrom(env, q, q.name, MAX_LOOKUPS) == Chain(passed + rest.aliases, rest.end)
  }

  lemma {:induction false} AlongStart(env: Env, q: Query)
    ensures Along(env, q, [], q.name, MAX_LOOKUPS)
  {
    hide ChainFrom;
    var c := ChainFrom(env, q, q.name, MAX_LOOKUPS);
    assert [] + c.aliases == c.aliases;
  }

  lemma {:induction false} AlongEnds(env: Env, q: Query, passed: seq<Alias>, name: string, n: nat, end: End)
    requires Along(env, q, passed, name, n) && ChainFrom(env, q, name, n) == Chain([], end)
    ensures ChainFrom(env, q, q.name, MAX_LOOKUPS) == Chain(passed, end)
  {
    hide ChainFrom;
  }

  lemma {:induction false} AnsweredAtEnd(env: Env, q: Query, passed: seq<Alias>, name: string, n: nat, end: End)
    requires ValidEnv(env) && Along(env, q, passed, name, n) && ChainFrom(env, q, name, n) == Chain([], end)
    requires !end.Escaped?
    ensures Lookups(ChainFrom(env, q, q.name, MAX_LOOKUPS)) == |passed| + if end.ReadError? || end.Arrived? then 1 else 0
    ensures var r := Response(NOERROR, if q.flatten then [] else AliasRecords(passed), [], []);
            Answered(env, q) ==
              match end
              case TooLong => Response(SERVFAIL, [], [], [])
              case LeftZone(_) => if r.answer == [] then AddNSec(env, q, r, q.name, q.qtype) else r
              case Escaped => r
              case ReadError => r.(res := SERVFAIL)
              case Arrived(at, location, code) => RespondAt(env, q, r, at, location, code)
  {
    hide ChainFrom, ValidEnv;
    AlongEnds(env, q, passed, name, n, end);
  }

  lemma {:induction false} AnsweredEscaped(env: Env, q: Query, passed: seq<Alias>, last: Alias)
    requires ValidEnv(env) && q.flatten
    requires ChainFrom(env, q, q.name, MAX_LOOKUPS) == Chain(passed + [last], Escaped)
    ensures Answered(env, q) == Response(NOERROR, last.cname.Value(q.name, TYPE_CNAME), [], [])
    ensures Lookups(ChainFrom(env, q, q.name, MAX_LOOKUPS)) == |passed| + 1
  {
    hide ChainFrom, ValidEnv;
  }

  /** The response so far shows the aliases passed and nothing else. */
  ghost predicate Midway(env: Env, q: Query, r: Response, passed: seq<Alias>, name: string, n: nat) {
    && r == Response(NOERROR, if q.flatten then [] else AliasRecords(passed), [], [])
    && Along(env, q, passed, name, n)
  }

  lemma {:induction false} MidwayStart(env: Env, q: Query)
    ensures Midway(env, q, Response(NOERROR, [], [], []), [], q.name, MAX_LOOKUPS)
  {
    hide Along;
    AlongStart(env, q);
  }

  lemma {:induction false} AnsweredTooLong(env: Env, q: Query, r: Response, passed: seq<Alias>, name: string)
    requires ValidEnv(env) && Midway(env, q, r, passed, name, 0)
    ensures r.authority == [] && r.additional == []
    ensures Answered(env, q) == Response(SERVFAIL, [], [], [])
    ensures Lookups(ChainFrom(env, q, q.name, MAX_LOOKUPS)) == |passed|
  {
    hide ValidEnv, Along, Answered;
    ChainStops(env, q, name, 0);
    AnsweredAtEnd(env, q, passed, name, 0, TooLong);
    hide ChainFrom, Lookups;
  }

  lemma {:induction false} AlongAlias(env: Env, q: Query, passed: seq<Alias>, name: string, n: nat)
    requires Along(env, q, passed, name, n) && n > 0 && env.InZone(name) && q.qtype != TYPE_CNAME
    requires MayAlias(env.Locate(name).1)
    requires var cname := env.store.names(env.Locate(name).0, TYPE_CNAME); cname.Ok? && !cname.value.Empty()
    ensures var cname := env.store.names(env.Locate(name).0, TYPE_CNAME).value;
            var next := passed + [Alias(name, cname)];
            && (q.flatten && !env.InZone(cname.host) ==>
                  ChainFrom(env, q, q.name, MAX_LOOKUPS) == Chain(next, Escaped))
            && (!(q.flatten && !env.InZone(cname.host)) ==> Along(env, q, next, Fqdn(cname.host), n - 1))
  {
    hide FindZone, FindLocation;
    var cname := env.store.names(env.Locate(name).0, TYPE_CNAME).value;
    var alias := Alias(name, cname);
    var rest := ChainFrom(env, q, name, n);
    if !(q.flatten && !env.InZone(cname.host)) {
      var after := ChainFrom(env, q, Fqdn(cname.host), n - 1);
      assert rest == Chain([alias] + after.aliases, after.end);
      assert passed + ([alias] + after.aliases) == passed + [alias] + after.aliases;
    } else {
      assert rest == Chain([alias], Escaped);
    }
  }

  /** A name at which the chain ends. */
  lemma {:induction false} ChainStops(env: Env, q: Query, name: string, n: nat)
    ensures n == 0 ==> ChainFrom(env, q, name, n) == Chain([], TooLong)
    ensures n > 0 && !env.InZone(name) ==> ChainFrom(env, q, name, n) == Chain([], LeftZone(name))
    ensures n > 0 && env.InZone(name) ==>
              var (location, code) := env.Locate(name);
              var cname := env.store.names(location, TYPE_CNAME);
              && (MayAlias(code) && cname.Err? ==> ChainFrom(env, q, name, n) == Chain([], ReadError))
              && (!MayAlias(code) || (cname.Ok? && (cname.value.Empty() || q.qtype == TYPE_CNAME)) ==>
                    ChainFrom(env, q, name, n) == Chain([], Arrived(name, location, code)))
  {
    hide FindZone, FindLocation;
  }

  /** request.go:12. `wantsDnssec` is the client's DO bit on an authoritative request. */
  class RequestContext {
    const name: string
    const qtype: RRType
    const wantsDnssec: bool
    var dnssec: bool
    var res: nat
    var answer: seq<RR>
    var authority: seq<RR>
    var additional: seq<RR>

    constructor (name: string, qtype: RRType, wantsDnssec: bool)
      ensures this.name == name && this.qtype == qtype && this.wantsDnssec == wantsDnssec
      ensures !dnssec && Current() == Response(NOERROR, [], [], [])
    {
      this.name, this.qtype, this.wantsDnssec := name, qtype, wantsDnssec;
      dnssec, res, answer, authority, additional := false, NOERROR, [], [], [];
    }

    ghost function Current(): (r: Response)
      reads this
    {
      Response(res, answer, authority, additional)
    }

    /** The query this context stands for, once it is known whether to sign. */
    ghost predicate For(q: Query)
      reads this
    {
      name == q.name && qtype == q.qtype && dnssec == q.dnssec
    }

    /** handler.go:703. */
    method AddNSec(env: Env, ghost q: Query, name: string, qtype: RRType)
      requires For(q)
      modifies this`res, this`authority
      ensures Current() == QueryLoop.AddNSec(env, q, old(Current()), name, qtype)
    {
      if !dnssec { return; }
      var bitmap: seq<RRType>;
      if name == env.Apex() {
        res := NOERROR;
        bitmap := Dnssec.FilterNsecBitmap(qtype, BITMAP_APEX);
      } else if res == NXDOMAIN {
        res := NOERROR;
        bitmap := BITMAP_NAME_ERROR;
      } else if qtype == TYPE_DS {
        bitmap := Dnssec.FilterNsecBitmap(qtype, BITMAP_SUB_DELEGATION);
      } else {
        bitmap := Dnssec.FilterNsecBitmap(qtype, BITMAP_ZONE);
      }
      authority := authority + [RR(name, TYPE_NSEC, env.zone.minTtl, Nsec("\\000." + name, bitmap))];
    }

    /** handler.go:193-198, for either address type. A failed read adds nothing. */
    method AppendAddresses(env: Env, location: string, host: string, t: RRType)
      modifies this`additional
      ensures additional == old(additional) + AddressGlue(env, location, host, t)
    {
      var ips := env.store.ips(location, t);
      if ips.Ok? {
        var filtered := AddressFilter.Filter(env.geo, ips.value, env.now);
        var records := GenerateAddresses(host, t, ips.value.ttl, filtered);
        additional := additional + records;
      }
    }

    /** handler.go:191-204. */
    method AppendGlueOf(env: Env, host: string)
      modifies this`additional
      ensures additional == old(additional) + GlueOf(env, host)
    {
      hide AddressGlue, FindLocation;
      var (location, code) := env.Locate(host);
      if code != NoMatch {
        AppendAddresses(env, location, host, TYPE_A);
        AppendAddresses(env, location, host, TYPE_AAAA);
      }
    }

    /** handler.go:190-205 and :274-289. */
    method AppendGlue(env: Env, servers: seq<Item>)
      modifies this`additional
      ensures additional == old(additional) + Glue(env, servers)
    {
      hide GlueOf;
      ghost var before := additional;
      for i := 0 to |servers|
        invariant additional == before + Glue(env, servers[..i])
      {
        assert servers[..i + 1][..i] == servers[..i];
        AppendGlueOf(env, servers[i].key);
      }
      assert servers[..|servers|] == servers;
    }

    /** handler.go:156-213. */
    method ReferBelow(env: Env, ghost q: Query, currentQName: string, location: string)
      requires For(q)
      modifies this`res, this`authority, this`additional
      ensures Current() == AtEncloser(env, q, old(Current()), currentQName, location)
    {
      var ns := env.store.items(location, TYPE_NS);
      if ns.Err? {
        res := SERVFAIL;
        return;
      }
      if !ns.value.Empty() {
        var cutPoint := location + "." + env.Apex();
        var servers := ns.value.Value(cutPoint, TYPE_NS);
        authority := authority + servers;
        var ds := env.store.items(location, TYPE_DS);
        if ds.Err? {
          res := SERVFAIL;
          return;
        }
        if ds.value.Empty() { AddNSec(env, q, cutPoint, TYPE_DS); }
        var signers := ds.value.Value(cutPoint, TYPE_DS);
        authority := authority + signers;
        AppendGlue(env, ns.value.items);
        res := NOERROR;
      } else {
        authority := [env.zone.soa];
        res := NXDOMAIN;
        AddNSec(env, q, currentQName, qtype);
      }
    }

    /** handler.go:254-291. */
    method ReferAt(env: Env, ghost q: Query, currentQName: string, location: string, ns: ItemSet)
      requires For(q)
      modifies this`res, this`answer, this`authority, this`additional
      ensures Current() == AtCut(env, q, old(Current()), currentQName, location, ns)
    {
      var ds := env.store.items(location, TYPE_DS);
      if ds.Err? {
        res := SERVFAIL;
        return;
      }
      if ds.value.Empty() {
        AddNSec(env, q, currentQName, TYPE_DS);
      } else {
        var signers := ds.value.Value(currentQName, TYPE_DS);
        if qtype == TYPE_DS {
          answer := answer + signers;
          res := NOERROR;
          return;
        }
        authority := authority + signers;
      }
      var servers := ns.Value(currentQName, TYPE_NS);
      authority := authority + servers;
      AppendGlue(env, ns.items);
      res := NOERROR;
    }

    /** handler.go:305-344, for either address type. */
    method AddressesAt(env: Env, t: RRType, location: string, currentQName: string)
      returns (ok: bool, records: seq<RR>)
      requires t == TYPE_A || t == TYPE_AAAA
      requires env.Apex() != ""
      modifies this`res
      ensures match AddressAnswer(env, location, currentQName, t)
              case Unreadable => !ok && res == old(res)
              case Unsupported => false
              case Found(a, rcode) => ok && records == a && res == if rcode.Some? then rcode.value else old(res)
    {
      records := [];
      var rrset := env.store.ips(location, t);
      if rrset.Err? { return false, []; }
      var aname := env.store.names(location, TYPE_ANAME);
      if aname.Err? { return false, []; }
      if |rrset.value.data| == 0 && !aname.value.Empty() {
        var f := Aname.FindANAME(env, aname.value.host, t);
        res := f.rcode;
        records := GenerateAddresses(currentQName, t, f.ttl, f.ips);
      } else {
        var ips := AddressFilter.Filter(env.geo, rrset.value, env.now);
        records := GenerateAddresses(currentQName, t, rrset.value.ttl, ips);
      }
      ok := true;
    }

    /** handler.go:303-414: the records of the type asked for. */
    method CollectRecords(env: Env, ghost q: Query, location: string, currentQName: string)
      returns (supported: bool, ok: bool, records: seq<RR>)
      requires ValidEnv(env) && For(q)
      modifies this`res
      ensures match RecordsAt(env, q, location, currentQName)
              case Unreadable => supported && !ok && res == old(res)
              case Unsupported => !supported && res == old(res)
              case Found(a, rcode) =>
                supported && ok && records == a && res == if rcode.Some? then rcode.value else old(res)
    {
      assert env.Apex() != "";
      hide AddressAnswer, FindLocation, FindZone, Caa.FoundCaa, ItemRecords, ValidEnv;
      supported, ok, records := true, true, [];
      if qtype == TYPE_A || qtype == TYPE_AAAA {
        ok, records := AddressesAt(env, qtype, location, currentQName);
      } else if qtype == TYPE_CNAME || qtype == TYPE_PTR {
        var s := env.store.names(location, qtype);
        if s.Err? { return true, false, []; }
        records := s.value.Value(currentQName, qtype);
      } else if IsItemType(qtype) {
        var s := env.store.items(location, qtype);
        if s.Err? { return true, false, []; }
        records := s.value.Value(currentQName, qtype);
      } else if qtype == TYPE_CAA {
        var caa := Caa.FindCAA(env, currentQName);
        if caa.Some? { records := caa.value.Value(currentQName, qtype); }
      } else if qtype == TYPE_SOA {
        records := [env.zone.soa];
      } else if qtype == TYPE_DNSKEY {
        if env.zone.dnssec { records := env.zone.keys; }
      } else if qtype != TYPE_DS {
        supported := false;
      }
    }

    /** handler.go:303-422. */
    method AnswerAt(env: Env, ghost q: Query, location: string, currentQName: string)
      requires ValidEnv(env) && For(q)
      modifies this`res, this`answer, this`authority
      ensures Current() == AtLocation(env, q, old(Current()), location, currentQName)
    {
      hide RecordsAt, ValidEnv;
      var supported, ok, records := CollectRecords(env, q, location, currentQName);
      if !supported {
        answer := [];
        authority := [env.zone.soa];
        res := NOERROR;
        return;
      }
      if !ok {
        res := SERVFAIL;
        return;
      }
      answer := answer + records;
      if |records| == 0 {
        AddNSec(env, q, currentQName, qtype);
        if res == NOERROR { authority := authority + [env.zone.soa]; }
      }
    }

    /** handler.go:131-423 for a name that is no alias. */
    method Arrive(env: Env, q: Query, currentQName: string, location: string, code: MatchCode)
      requires ValidEnv(env) && For(q)
      modifies this`res, this`answer, this`authority, this`additional
      ensures Current() == RespondAt(env, q, old(Current()), currentQName, location, code)
    {
      match code {
        case NoMatch =>
          authority := [env.zone.soa];
          res := NXDOMAIN;
          AddNSec(env, q, currentQName, TYPE_NONE);
        case EmptyNonterminalMatch =>
          authority := [env.zone.soa];
          res := NOERROR;
          AddNSec(env, q, currentQName, TYPE_NONE);
        case CEMatch =>
          ReferBelow(env, q, currentQName, location);
        case _ =>
          if currentQName != env.Apex() {
            var ns := env.store.items(location, TYPE_NS);
            if ns.Err? {
              res := SERVFAIL;
              return;
            }
            if !ns.value.Empty() {
              ReferAt(env, q, currentQName, location, ns.value);
              return;
            }
          }
          AnswerAt(env, q, location, if q.flatten then q.name else currentQName);
      }
    }

    /** handler.go:117-423: one turn of the loop, which ends in a response or follows an alias. */
    method Turn(env: Env, q: Query, currentQName: string, ghost passed: seq<Alias>, ghost n: nat)
      returns (next: Option<string>, ghost after: seq<Alias>, ghost lookups: int)
      requires ValidEnv(env) && For(q) && n > 0 && Midway(env, q, Current(), passed, currentQName, n)
      modifies this`res, this`answer, this`authority, this`additional
      ensures next.None? ==> Current() == Answered(env, q)
      ensures next.None? ==> |passed| + lookups == Lookups(ChainFrom(env, q, q.name, MAX_LOOKUPS))
      ensures next.Some? ==> |after| == |passed| + 1 && Midway(env, q, Current(), after, next.value, n - 1)
      ensures 0 <= lookups <= 1 && (next.Some? ==> lookups == 1)
    {
      hide FindZone, FindLocation, RespondAt, ChainFrom, Lookups, Along, Answered, ValidEnv, Fqdn;
      next, after, lookups := None, passed, 0;
      ChainStops(env, q, currentQName, n);
      if FindZone(env.zones, currentQName) != env.Apex() {
        AnsweredAtEnd(env, q, passed, currentQName, n, LeftZone(currentQName));
        res := NOERROR;
        if |answer| == 0 { AddNSec(env, q, name, qtype); }
        return;
      }
      var (location, code) := env.Locate(currentQName);
      lookups := 1;
      if code == ExactMatch || code == WildCardMatch {
        var cname := env.store.names(location, TYPE_CNAME);
        if cname.Err? {
          AnsweredAtEnd(env, q, passed, currentQName, n, ReadError);
          res := SERVFAIL;
          return;
        }
        if !cname.value.Empty() && qtype != TYPE_CNAME {
          next, after := FollowAlias(env, q, currentQName, cname.value, passed, n);
          return;
        }
      }
      AnsweredAtEnd(env, q, passed, currentQName, n, Arrived(currentQName, location, code));
      Arrive(env, q, currentQName, location, code);
    }

    /** handler.go:225-246: an alias is shown, followed, or both. */
    method FollowAlias(env: Env, q: Query, currentQName: string, cname: NameSet, ghost passed: seq<Alias>, ghost n: nat)
      returns (next: Option<string>, ghost after: seq<Alias>)
      requires ValidEnv(env) && For(q) && n > 0 && Midway(env, q, Current(), passed, currentQName, n)
      requires env.InZone(currentQName) && MayAlias(env.Locate(currentQName).1) && qtype != TYPE_CNAME
      requires env.store.names(env.Locate(currentQName).0, TYPE_CNAME) == Ok(cname) && !cname.Empty()
      modifies this`res, this`answer
      ensures |after| == |passed| + 1
      ensures next.None? ==> Current() == Answered(env, q)
      ensures next.None? ==> |after| == Lookups(ChainFrom(env, q, q.name, MAX_LOOKUPS))
      ensures next.Some? ==> Midway(env, q, Current(), after, next.value, n - 1)
    {
      hide FindZone, FindLocation, ChainFrom, Lookups, Along, Answered, ValidEnv, Fqdn;
      AlongAlias(env, q, passed, currentQName, n);
      after := passed + [Alias(currentQName, cname)];
      assert after[..|passed|] == passed;
      if !q.flatten {
        answer := answer + cname.Value(currentQName, TYPE_CNAME);
      } else if FindZone(env.zones, cname.host) != env.Apex() {
        AnsweredEscaped(env, q, passed, Alias(currentQName, cname));
        answer := answer + cname.Value(name, TYPE_CNAME);
        res := NOERROR;
        return None, after;
      }
      next := Some(Fqdn(cname.host));
    }

    /** The loop, handler.go:102-424; `lookups` counts the names it looks up in the zone. */
    method Resolve(env: Env, q: Query) returns (ghost lookups: int)
      requires ValidEnv(env) && For(q) && Current() == Response(NOERROR, [], [], [])
      modifies this`res, this`answer, this`authority, this`additional
      ensures Current() == Answered(env, q)
      ensures lookups == Lookups(ChainFrom(env, q, q.name, MAX_LOOKUPS)) && lookups <= 11
    {
      hide ChainFrom, Lookups, Midway, Answered, ValidEnv;
      MidwayStart(env, q);
      var loopCount := 0;
      var currentQName := name;
      ghost var passed: seq<Alias> := [];
      lookups := 0;
      while true
        invariant lookups == |passed| == loopCount <= 11
        invariant Midway(env, q, Current(), passed, currentQName, 11 - loopCount)
        decreases 11 - loopCount
      {
        if loopCount > 10 {
          AnsweredTooLong(env, q, Current(), passed, currentQName);
          answer := [];
          res := SERVFAIL;
          return;
        }
        loopCount := loopCount + 1;
        var next, after, looked := Turn(env, q, currentQName, passed, 12 - loopCount);
        lookups := lookups + looked;
        if next.None? { return; }
        currentQName, passed := next.value, after;
      }
    }

    /** handler.go:62. */
    method HandleRequest(server: Server)
      requires ValidServer(server) && Current() == Response(NOERROR, [], [], [])
      modifies this
      ensures var zoneName := FindZone(server.zones, name);
              if zoneName == "" then Current() == Response(NOTAUTH, [], [], [])
              else if server.load(zoneName).None? then Current() == Response(SERVFAIL, [], [], [])
              else
                var zone := server.load(zoneName).value;
                var env := Env(server.zones, zone, server.stores(zoneName), server.geo, server.upstream, server.now);
                var signed := wantsDnssec && zone.dnssec;
                var q := Query(name, qtype, signed, signed || zone.cnameFlattening);
                && ValidEnv(env) && env.InZone(name)
                && var r := Answered(env, q);
                   && res == r.res && additional == r.additional
                   && if signed then
                        && Dnssec.SignedForm(answer, r.answer, name, zone.signer)
                        && Dnssec.SignedForm(authority, r.authority, name, zone.signer)
                        && multiset(Dnssec.Signable(answer)) == multiset(Dnssec.Signable(r.answer))
                        && multiset(Dnssec.Signable(authority)) == multiset(Dnssec.Signable(r.authority))
                      else answer == r.answer && authority == r.authority
    {
      hide FindZone, Answered, Dnssec.Signable, Dnssec.SignedForm;
      var zoneName := FindZone(server.zones, name);
      if zoneName == "" {
        res := NOTAUTH;
        return;
      }
      var loaded := server.load(zoneName);
      if loaded.None? {
        res := SERVFAIL;
        return;
      }
      var zone := loaded.value;
      dnssec := wantsDnssec && zone.dnssec;
      var q := Query(name, qtype, dnssec, dnssec || zone.cnameFlattening);
      var env := EnvFor(server, zone);
      ghost var lookups := Resolve(env, q);
      ghost var unsigned := Current();
      if dnssec {
        answer := Dnssec.SignResponse(answer, name, zone.signer);
        authority := Dnssec.SignResponse(authority, name, zone.signer);
        Dnssec.SigningConservesRecords(answer, unsigned.answer, name, zone.signer);
        Dnssec.SigningConservesRecords(authority, unsigned.authority, name, zone.signer);
      }
    }
  }
}
