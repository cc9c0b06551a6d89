/**
 What a query is answered with (internal/handler/handler.go:99-424), said without the loop: the
 chain of aliases a name leads through, and the response to where the chain ends.
 */
module QueryLoop {
  import opened Wrappers
  import opened Names
  import opened ZoneIndex
  import opened Records
  import opened Requests
  import Aname
  import AddressFilter
  import Caa
  import Dnssec

  // ----- The chain of aliases -----

  const MAX_LOOKUPS: nat := 11

  /** One alias followed: the name it was found for and the set that was read. */
  datatype Alias = Alias(owner: string, cname: NameSet)

  datatype End =
    | TooLong                                                     // eleven aliases and no end
    | LeftZone(name: string)                                      // the name is in another zone, or none
    | Escaped                                                     // flattened only: the last alias leads out
    | ReadError                                                   // its CNAME set could not be read
    | Arrived(name: string, location: string, code: MatchCode)    // a name of the zone that is no alias

  datatype Chain = Chain(aliases: seq<Alias>, end: End)

  predicate MayAlias(code: MatchCode) { code == ExactMatch || code == WildCardMatch }

  /** The chain from `name`, looking up at most `n` names. */
  function ChainFrom(env: Env, q: Query, name: string, n: nat): (c: Chain)
    ensures |c.aliases| <= n
    decreases n, name    // with the name, so that a constant bound is not unfolded to its end
  {
    if n == 0 then Chain([], TooLong)
    else if !env.InZone(name) then Chain([], LeftZone(name))
    else
      var (location, code) := env.Locate(name);
      var cname := env.store.names(location, TYPE_CNAME);
      if !MayAlias(code) then Chain([], Arrived(name, location, code))
      else if cname.Err? then Chain([], ReadError)
      else if cname.value.Empty() || q.qtype == TYPE_CNAME then Chain([], Arrived(name, location, code))
      else
        var alias := Alias(name, cname.value);
        if q.flatten && !env.InZone(cname.value.host) then Chain([alias], Escaped)
        else
          var rest := ChainFrom(env, q, Fqdn(cname.value.host), n - 1);
          Chain([alias] + rest.aliases, rest.end)
  }

  /** How many names a chain looks up in the zone. */
  function Lookups(c: Chain): (n: nat) {
    |c.aliases| + if c.end.ReadError? || c.end.Arrived? then 1 else 0
  }

  function AliasRecord(a: Alias): (rrs: seq<RR>) { a.cname.Value(a.owner, TYPE_CNAME) }

  function AliasRecords(aliases: seq<Alias>): (rrs: seq<RR>) {
    if aliases == [] then []
    else AliasRecords(aliases[..|aliases| - 1]) + AliasRecord(aliases[|aliases| - 1])
  }

  /** The aliases as the answer shows them: all of them, or, flattened, only one that leads out of the zone. */
  function AliasAnswer(q: Query, c: Chain): (rrs: seq<RR>) {
    if !q.flatten then AliasRecords(c.aliases)
    else if c.end.Escaped? && c.aliases != [] then c.aliases[|c.aliases| - 1].cname.Value(q.name, TYPE_CNAME)
    else []
  }

  // ----- Denial of existence -----

  const BITMAP_ZONE: seq<RRType> := [TYPE_A, TYPE_CNAME, TYPE_PTR, TYPE_MX, TYPE_TXT, TYPE_AAAA, TYPE_SRV,
                                     TYPE_RRSIG, TYPE_NSEC, TYPE_TLSA, TYPE_CAA]
  const BITMAP_APEX: seq<RRType> := [TYPE_A, TYPE_NS, TYPE_SOA, TYPE_PTR, TYPE_MX, TYPE_TXT, TYPE_AAAA, TYPE_SRV,
                                     TYPE_RRSIG, TYPE_NSEC, TYPE_TLSA, TYPE_CAA]
  const BITMAP_SUB_DELEGATION: seq<RRType> := [TYPE_NS, TYPE_DS, TYPE_RRSIG, TYPE_NSEC]
  const BITMAP_NAME_ERROR: seq<RRType> := [TYPE_RRSIG, TYPE_NSEC]

  /** handler.go:703: nothing without DNSSEC; with it, a denial that also turns NXDOMAIN into NOERROR. */
  function AddNSec(env: Env, q: Query, r: Response, name: string, qtype: RRType): (t: Response) {
    if !q.dnssec then r
    else
      var res := if name == env.Apex() || r.res == NXDOMAIN then NOERROR else r.res;
      var bitmap :=
        if name == env.Apex() then Dnssec.Without(BITMAP_APEX, qtype)
        else if r.res == NXDOMAIN then BITMAP_NAME_ERROR
        else if qtype == TYPE_DS then Dnssec.Without(BITMAP_SUB_DELEGATION, qtype)
        else Dnssec.Without(BITMAP_ZONE, qtype);
      r.(res := res, authority := r.authority + [RR(name, TYPE_NSEC, env.zone.minTtl, Nsec("\\000." + name, bitmap))])
  }

  // ----- Referrals -----

  function AddressGlue(env: Env, location: string, host: string, t: RRType): (rrs: seq<RR>) {
    var ips := env.store.ips(location, t);
    if ips.Err? then []
    else AddressRecords(AddressFilter.FilterIps(env.geo, ips.value, env.now), host, t, ips.value.ttl)
  }

  /** The addresses of one name server, as far as the zone knows them. */
  function GlueOf(env: Env, host: string): (rrs: seq<RR>) {
    var (location, code) := env.Locate(host);
    if code == NoMatch then []
    else AddressGlue(env, location, host, TYPE_A) + AddressGlue(env, location, host, TYPE_AAAA)
  }

  function Glue(env: Env, servers: seq<Item>): (rrs: seq<RR>) {
    if servers == [] then [] else Glue(env, servers[..|servers| - 1]) + GlueOf(env, servers[|servers| - 1].key)
  }

  function ValueOf(s: ItemSet, name: string, t: RRType): (rrs: seq<RR>) { ItemRecords(s.items, name, t, s.ttl) }

  /** handler.go:156-213: a name below a configured one. `r` is the response so far. */
  function AtEncloser(env: Env, q: Query, r: Response, name: string, location: string): (t: Response) {
    var ns, ds := env.store.items(location, TYPE_NS), env.store.items(location, TYPE_DS);
    if ns.Err? then r.(res := SERVFAIL)
    else if ns.value.Empty() then
      AddNSec(env, q, r.(authority := [env.zone.soa], res := NXDOMAIN), name, q.qtype)
    else
      var cut := location + "." + env.Apex();
      var servers := r.(authority := r.authority + ValueOf(ns.value, cut, TYPE_NS));
      if ds.Err? then servers.(res := SERVFAIL)
      else
        var denied := if ds.value.Empty() then AddNSec(env, q, servers, cut, TYPE_DS) else servers;
        denied.(res := NOERROR,
                authority := denied.authority + ValueOf(ds.value, cut, TYPE_DS),
                additional := denied.additional + Glue(env, ns.value.items))
  }

  /** handler.go:247-292: a name that is itself a zone cut. */
  function AtCut(env: Env, q: Query, r: Response, name: string, location: string, ns: ItemSet): (t: Response) {
    var ds := env.store.items(location, TYPE_DS);
    if ds.Err? then r.(res := SERVFAIL)
    else if !ds.value.Empty() && q.qtype == TYPE_DS then
      r.(res := NOERROR, answer := r.answer + ValueOf(ds.value, name, TYPE_DS))
    else
      var before := if ds.value.Empty() then AddNSec(env, q, r, name, TYPE_DS)
                    else r.(authority := r.authority + ValueOf(ds.value, name, TYPE_DS));
      before.(res := NOERROR,
              authority := before.authority + ValueOf(ns, name, TYPE_NS),
              additional := before.additional + Glue(env, ns.items))
  }

  // ----- The records asked for -----

  datatype Finding =
    | Unreadable
    | Unsupported
    | Found(answer: seq<RR>, res: Option<nat>)

  /** The types answered by reading one set of items. */
  predicate IsItemType(t: RRType) {
    t in {TYPE_TXT, TYPE_NS, TYPE_MX, TYPE_SRV, TYPE_TLSA}
  }

  function AddressAnswer(env: Env, location: string, name: string, t: RRType): (r: Finding) {
    var ips, aname := env.store.ips(location, t), env.store.names(location, TYPE_ANAME);
    if ips.Err? || aname.Err? then Unreadable
    else if ips.value.data == [] && !aname.value.Empty() then
      var f := Aname.FoundAname(env, aname.value.host, t);
      Found(AddressRecords(f.ips, name, t, f.ttl), Some(f.rcode))
    else
      Found(AddressRecords(AddressFilter.FilterIps(env.geo, ips.value, env.now), name, t, ips.value.ttl), None)
  }

  /** handler.go:303-414. */
  ghost function RecordsAt(env: Env, q: Query, location: string, name: string): (r: Finding)
    requires ValidEnv(env)
  {
    var t := q.qtype;
    if t == TYPE_A || t == TYPE_AAAA then AddressAnswer(env, location, name, t)
    else if t == TYPE_CNAME || t == TYPE_PTR then
      var s := env.store.names(location, t);
      if s.Err? then Unreadable else Found(s.value.Value(name, t), None)
    else if IsItemType(t) then
      var s := env.store.items(location, t);
      if s.Err? then Unreadable else Found(ValueOf(s.value, name, t), None)
    else if t == TYPE_CAA then
      var caa := Caa.FoundCaa(env, name);
      Found(if caa.Some? then ValueOf(caa.value, name, t) else [], None)
    else if t == TYPE_SOA then Found([env.zone.soa], None)
    else if t == TYPE_DNSKEY then Found(if env.zone.dnssec then env.zone.keys else [], None)
    else if t == TYPE_DS then Found([], None)
    else Unsupported
  }

  /** handler.go:295-422. */
  ghost function AtLocation(env: Env, q: Query, r: Response, location: string, name: string): (t: Response)
    requires ValidEnv(env)
  {
    match RecordsAt(env, q, location, name)
    case Unreadable => r.(res := SERVFAIL)
    case Unsupported => r.(res := NOERROR, answer := [], authority := [env.zone.soa])
    case Found(answer, res) =>
      var found := r.(res := if res.Some? then res.value else r.res, answer := r.answer + answer);
      if answer != [] then found
      else
        var denied := AddNSec(env, q, found, name, q.qtype);
        if denied.res == NOERROR then denied.(authority := denied.authority + [env.zone.soa]) else denied
  }

  /** The name's own records are asked for: it is found and is no zone cut. */
  predicate AnswersFrom(env: Env, name: string, location: string, code: MatchCode) {
    MayAlias(code) &&
    var ns := env.store.items(location, TYPE_NS);
    name == env.Apex() || (ns.Ok? && ns.value.Empty())
  }

  /** The response for a name of the zone that is no alias. */
  ghost function RespondAt(env: Env, q: Query, r: Response, name: string, location: string, code: MatchCode): (t: Response)
    requires ValidEnv(env)
  {
    match code
    case NoMatch => AddNSec(env, q, r.(authority := [env.zone.soa], res := NXDOMAIN), name, TYPE_NONE)
    case EmptyNonterminalMatch => AddNSec(env, q, r.(authority := [env.zone.soa], res := NOERROR), name, TYPE_NONE)
    case CEMatch => AtEncloser(env, q, r, name, location)
    case _ =>
      var ns := env.store.items(location, TYPE_NS);
      var shown := if q.flatten then q.name else name;
      if name == env.Apex() then AtLocation(env, q, r, location, shown)
      else if ns.Err? then r.(res := SERVFAIL)
      else if !ns.value.Empty() then AtCut(env, q, r, name, location, ns.value)
      else AtLocation(env, q, r, location, shown)
  }

  ghost function Respond(env: Env, q: Query, c: Chain): (t: Response)
    requires ValidEnv(env)
  {
    var r := Response(NOERROR, AliasAnswer(q, c), [], []);
    match c.end
    case TooLong => r.(res := SERVFAIL, answer := [])
    case LeftZone(_) => if r.answer == [] then AddNSec(env, q, r, q.name, q.qtype) else r
    case Escaped => r
    case ReadError => r.(res := SERVFAIL)
    case Arrived(name, location, code) => RespondAt(env, q, r, name, location, code)
  }

  /** The response to a query in a loaded zone, before signing. */
  ghost function Answered(env: Env, q: Query): (t: Response)
    requires ValidEnv(env)
  {
    Respond(env, q, ChainFrom(env, q, q.name, MAX_LOOKUPS))
  }
}
