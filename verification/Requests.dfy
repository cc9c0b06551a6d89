/**
 What one request sees (internal/handler/request.go and the fields of the handler): the zones
 loaded, the zone it falls in, and the answers of redis, the geographic database, the upstream
 resolver and the clock, all fixed while the request runs.
 */
module Requests {
  import opened Wrappers
  import opened Names
  import opened ZoneIndex
  import opened Records
  import AddressFilter
  import Dnssec
  import LabelTree

  const NOERROR: nat := 0
  const SERVFAIL: nat := 2
  const NXDOMAIN: nat := 3
  const NOTAUTH: nat := 9

  /** The store's own type for alias records that are resolved here (dns_types.go:16). */
  const TYPE_ANAME: RRType := 500

  /** Reads of record sets by location and type; `Err` is a failed read, a missing set reads as empty. */
  datatype Store = Store(
    ips: (string, RRType) -> Result<AddressFilter.IpRRSet>,
    names: (string, RRType) -> Result<NameSet>,
    items: (string, RRType) -> Result<ItemSet>)

  /** A loaded zone. `keys` are its DNSKEY records. */
  datatype Zone = Zone(
    index: Index,
    soa: RR,
    minTtl: nat,
    dnssec: bool,
    cnameFlattening: bool,
    keys: seq<RR>,
    signer: Dnssec.Signer)

  datatype UpstreamReply = UpstreamReply(answers: seq<RR>, rcode: nat)

  datatype Env = Env(
    zones: map<string, string>,
    zone: Zone,
    store: Store,
    geo: AddressFilter.Geo,
    upstream: (string, RRType) -> UpstreamReply,
    now: nat)
  {
    function Apex(): (apex: string) { zone.index.name }

    predicate InZone(name: string) { FindZone(zones, name) == Apex() }

    function Locate(name: string): (r: (string, MatchCode)) { FindLocation(zone.index, name) }
  }

  /** The tree of the zone holds its locations and the zone is one of those loaded. */
  ghost predicate ValidEnv(env: Env) {
    && IsTreeOf(env.zone.index.tree, env.zone.index.locations)
    && env.Apex() != ""
    && exists names :: IsZoneTreeOf(env.zones, names) && "" !in names
  }

  /** One query. `dnssec` says whether this response is to be signed. */
  datatype Query = Query(name: string, qtype: RRType, dnssec: bool, flatten: bool)

  datatype Response = Response(res: nat, answer: seq<RR>, authority: seq<RR>, additional: seq<RR>)

  // ----- Names in the zone, said with labels -----

  /** The labels of `name` below the apex. */
  ghost predicate RelativeTo(env: Env, name: string, rel: string) {
    name == rel + "." + env.Apex()
  }

  ghost function Locations(env: Env): (r: set<Labels>) {
    Configured(env.zone.index.locations)
  }

  /** A name below the apex is located as the label tree says. */
  lemma {:induction false} AbsoluteLookup(env: Env, query: string, rel: string)
    requires ValidEnv(env) && RelativeTo(env, query, rel)
    ensures env.Locate(query) == Render(LabelTree.Lookup(Locations(env), LabelsOf(rel)))
  {
    FindLocationRendered(env.zone.index, rel);
  }
}
