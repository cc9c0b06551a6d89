/** `findANAME` (internal/handler/handler.go:603-701): following an ANAME to addresses. */
module Aname {
  import opened Wrappers
  import opened ZoneIndex
  import opened Records
  import opened Requests
  import opened Geotools
  import opened Selections
  import AddressFilter

  const MAX_LOOKUPS: nat := 11

  datatype Found = Found(ips: seq<Ip>, rcode: nat, ttl: nat)

  const FAILED := Found([], SERVFAIL, 0)

  /** The addresses of the wanted type among the upstream's answers. */
  function UpstreamIps(answers: seq<RR>, qtype: RRType): (res: seq<Ip>) {
    if answers == [] then []
    else
      var r := answers[|answers| - 1];
      UpstreamIps(answers[..|answers| - 1], qtype)
      + if r.rrtype == qtype && r.data.Address? then [Some(r.data.ip)] else []
  }

  method FromUpstream(env: Env, name: string, qtype: RRType) returns (f: Found)
    ensures f == UpstreamFound(env, name, qtype)
  {
    var reply := env.upstream(name, qtype);
    if reply.rcode != NOERROR { return FAILED; }
    var ips: seq<Ip> := [];
    var upstreamTtl: nat := 0;
    if |reply.answers| > 0 { upstreamTtl := reply.answers[0].ttl; }
    for i := 0 to |reply.answers|
      invariant ips == UpstreamIps(reply.answers[..i], qtype)
    {
      assert reply.answers[..i + 1][..i] == reply.answers[..i];
      var r := reply.answers[i];
      if r.rrtype == qtype && r.data.Address? { ips := ips + [Some(r.data.ip)]; }
    }
    assert reply.answers[..|reply.answers|] == reply.answers;
    f := Found(ips, reply.rcode, upstreamTtl);
  }

  function UpstreamFound(env: Env, name: string, qtype: RRType): (r: Found) {
    var reply := env.upstream(name, qtype);
    if reply.rcode != NOERROR then FAILED
    else Found(UpstreamIps(reply.answers, qtype), reply.rcode, if reply.answers == [] then 0 else reply.answers[0].ttl)
  }

  /** What one name says: an answer, or another name to go on with. */
  datatype Turn = Answer(found: Found) | GoOn(name: string)

  function AnameTurn(env: Env, name: string, qtype: RRType): (r: Turn) {
    if !env.InZone(name) then Answer(UpstreamFound(env, name, qtype))
    else
      var (location, code) := env.Locate(name);
      var cname, ips, aname := env.store.names(location, TYPE_CNAME), env.store.ips(location, qtype),
                               env.store.names(location, TYPE_ANAME);
      if code == NoMatch || cname.Err? then Answer(FAILED)
      else if !cname.value.Empty() then GoOn(cname.value.host)
      else if ips.Err? then Answer(FAILED)
      else if ips.value.data != [] then
        Answer(Found(AddressFilter.FilterIps(env.geo, ips.value, env.now), NOERROR, ips.value.ttl))
      else if aname.Err? then Answer(FAILED)
      else if !aname.value.Empty() then GoOn(aname.value.host)
      else Answer(Found([], NOERROR, 0))
  }

  /** Following at most `n` names. */
  function Follow(env: Env, name: string, qtype: RRType, n: nat): (f: Found)
    ensures f.rcode == NOERROR || f == FAILED
    decreases n, name    // with the name, so that a constant bound is not unfolded to its end
  {
    if n == 0 then FAILED
    else
      match AnameTurn(env, name, qtype)
      case Answer(found) => found
      case GoOn(next) => Follow(env, next, qtype, n - 1)
  }

  function FoundAname(env: Env, name: string, qtype: RRType): (r: Found) {
    Follow(env, name, qtype, MAX_LOOKUPS)
  }

  method FindANAME(env: Env, aname: string, qtype: RRType) returns (f: Found)
    requires qtype == TYPE_A || qtype == TYPE_AAAA
    requires env.Apex() != ""
    ensures f == FoundAname(env, aname, qtype)
  {
    hide FindLocation, FindZone, AddressFilter.FilterIps, UpstreamFound;
    var currentQName := aname;
    var loopCount := 0;
    while true
      invariant loopCount <= 11
      invariant FoundAname(env, aname, qtype) == Follow(env, currentQName, qtype, 11 - loopCount)
      decreases 11 - loopCount
    {
      if loopCount > 10 { return FAILED; }
      loopCount := loopCount + 1;
      var zoneName := FindZone(env.zones, currentQName);
      if zoneName == "" || zoneName != env.Apex() {
        f := FromUpstream(env, currentQName, qtype);
        return;
      }
      var (location, matchType) := env.Locate(currentQName);
      if matchType == NoMatch { return FAILED; }
      var cname := env.store.names(location, TYPE_CNAME);
      if cname.Err? { return FAILED; }
      if !cname.value.Empty() {
        currentQName := cname.value.host;
        continue;
      }
      var ips := env.store.ips(location, qtype);
      if ips.Err? { return FAILED; }
      if |ips.value.data| != 0 {
        var filtered := AddressFilter.Filter(env.geo, ips.value, env.now);
        return Found(filtered, NOERROR, ips.value.ttl);
      }
      var next := env.store.names(location, TYPE_ANAME);
      if next.Err? { return FAILED; }
      if !next.value.Empty() {
        currentQName := next.value.host;
        continue;
      }
      return Found([], NOERROR, 0);
    }
  }

  /** The name reached after `k` turns, if every one of them went on. */
  function NameAfter(env: Env, name: string, qtype: RRType, k: nat): (r: Option<string>) {
    if k == 0 then Some(name)
    else
      match NameAfter(env, name, qtype, k - 1)
      case None => None
      case Some(at) => var turn := AnameTurn(env, at, qtype); if turn.GoOn? then Some(turn.name) else None
  }

  /**
   The bounded search against the unbounded chain: the chain of names answers within eleven
   turns and the result is what its last name says, or eleven turns were not enough and the
   result is a failure.
   */
  lemma {:induction false} FollowIsLastTurn(env: Env, name: string, qtype: RRType, n: nat, k: nat)
    requires k <= n && NameAfter(env, name, qtype, k).Some?
    ensures Follow(env, name, qtype, n) == Follow(env, NameAfter(env, name, qtype, k).value, qtype, n - k)
    ensures k < n && AnameTurn(env, NameAfter(env, name, qtype, k).value, qtype).Answer? ==>
              Follow(env, name, qtype, n) == AnameTurn(env, NameAfter(env, name, qtype, k).value, qtype).found
    ensures k == n ==> Follow(env, name, qtype, n) == FAILED
  {
    hide AnameTurn;
    if k > 0 { FollowIsLastTurn(env, name, qtype, n, k - 1); }
  }

  lemma {:induction false} NamePrefix(env: Env, name: string, qtype: RRType, j: nat, k: nat)
    requires j <= k && NameAfter(env, name, qtype, k).Some?
    ensures NameAfter(env, name, qtype, j).Some?
    decreases k
  {
    hide AnameTurn;
    if j < k { NamePrefix(env, name, qtype, j, k - 1); }
  }

  lemma {:induction false} SameTail(env: Env, name: string, qtype: RRType, i: nat, j: nat, d: nat)
    requires NameAfter(env, name, qtype, i) == NameAfter(env, name, qtype, j)
    ensures NameAfter(env, name, qtype, i + d) == NameAfter(env, name, qtype, j + d)
  {
    hide AnameTurn;
    if d > 0 { SameTail(env, name, qtype, i, j, d - 1); }
  }

  lemma {:induction false} CycleNeverEnds(env: Env, name: string, qtype: RRType, i: nat, j: nat, k: nat)
    requires i < j && NameAfter(env, name, qtype, j).Some?
    requires NameAfter(env, name, qtype, i) == NameAfter(env, name, qtype, j)
    ensures NameAfter(env, name, qtype, k).Some?
    decreases k
  {
    hide NameAfter;
    if k <= j {
      NamePrefix(env, name, qtype, k, j);
    } else {
      CycleNeverEnds(env, name, qtype, i, j, k - (j - i));
      SameTail(env, name, qtype, i, j, k - j);
      assert i + (k - j) == k - (j - i) && j + (k - j) == k;
    }
  }

  /** Every cycle of CNAMEs and ANAMEs, of whatever length and wherever it is entered, ends in a failure. */
  lemma {:induction false} CyclesFail(env: Env, name: string, qtype: RRType, i: nat, j: nat)
    requires i < j && NameAfter(env, name, qtype, j).Some?
    requires NameAfter(env, name, qtype, i) == NameAfter(env, name, qtype, j)
    ensures FoundAname(env, name, qtype) == FAILED
  {
    CycleNeverEnds(env, name, qtype, i, j, MAX_LOOKUPS);
    FollowIsLastTurn(env, name, qtype, MAX_LOOKUPS, MAX_LOOKUPS);
    hide NameAfter, Follow;
  }

  // ----- What the search finds, from the zones, the store and the upstream -----

  predicate Inside(env: Env, name: string) { FindZone(env.zones, name) == env.zone.index.name }

  /** A name of the zone leads on to its CNAME's target, or, with no CNAME and no address of its own, to its ANAME's. */
  ghost predicate LeadsOn(env: Env, t: RRType, name: string, next: string) {
    var (location, code) := FindLocation(env.zone.index, name);
    var cname, ips, aname := env.store.names(location, TYPE_CNAME), env.store.ips(location, t),
                             env.store.names(location, TYPE_ANAME);
    && Inside(env, name) && code != NoMatch && cname.Ok?
    && if cname.value.host != "" then next == cname.value.host
       else
         && ips.Ok? && ips.value.data == [] && aname.Ok? && aname.value.host != ""
         && next == aname.value.host
  }

  ghost predicate Ends(env: Env, t: RRType, name: string) {
    forall next :: !LeadsOn(env, t, name, next)
  }

  /** `names` are followed one after the other, from the first. */
  ghost predicate Follows(env: Env, t: RRType, names: seq<string>) {
    names != [] && forall i :: 0 <= i < |names| - 1 ==> LeadsOn(env, t, names[i], names[i + 1])
  }

  /** The upstream's addresses of the wanted type, in order, with the first record's ttl, or a failure. */
  ghost predicate FromReply(f: Found, reply: UpstreamReply, t: RRType) {
    if reply.rcode != NOERROR then f == Found([], SERVFAIL, 0)
    else
      && f.rcode == NOERROR && f.ttl == (if reply.answers == [] then 0 else reply.answers[0].ttl)
      && exists kept :: Selects(kept, AddressesIn(reply.answers, t)) && AddressesTaken(f.ips, reply.answers, kept)
  }

  /** `ips` are the addresses of the answers at the positions `kept`. */
  ghost predicate AddressesTaken(ips: seq<Ip>, answers: seq<RR>, kept: seq<nat>) {
    |ips| == |kept| && forall j :: 0 <= j < |kept| ==> kept[j] < |answers| && IsAddress(ips[j], answers[kept[j]])
  }

  predicate IsAddress(ip: Ip, r: RR) { r.data.Address? && ip == Some(r.data.ip) }

  function AddressesIn(answers: seq<RR>, t: RRType): (keep: seq<bool>)
    ensures |keep| == |answers|
  {
    seq(|answers|, i requires 0 <= i < |answers| => answers[i].rrtype == t && answers[i].data.Address?)
  }

  /** What is found at a name that does not lead on. */
  ghost predicate FoundAt(env: Env, t: RRType, name: string, f: Found) {
    if !Inside(env, name) then FromReply(f, env.upstream(name, t), t)
    else
      var (location, code) := FindLocation(env.zone.index, name);
      var cname, ips, aname := env.store.names(location, TYPE_CNAME), env.store.ips(location, t),
                               env.store.names(location, TYPE_ANAME);
      if code == NoMatch || cname.Err? || ips.Err? then f == Found([], SERVFAIL, 0)
      else if ips.value.data != [] then
        var left := AddressFilter.FilterMask(env.geo, ips.value);
        f == Found(AddressFilter.Ordered(ips.value, left, env.now), NOERROR, ips.value.ttl)
      else if aname.Err? then f == Found([], SERVFAIL, 0)
      else f == Found([], NOERROR, 0)
  }

  lemma {:induction false} TakenNext(ips: seq<Ip>, answers: seq<RR>, kept: seq<nat>, r: RR)
    requires AddressesTaken(ips, answers, kept)
    ensures AddressesTaken(ips, answers + [r], kept)
    ensures r.data.Address? ==> AddressesTaken(ips + [Some(r.data.ip)], answers + [r], kept + [|answers|])
  {
  }

  lemma {:induction false} UpstreamNext(answers: seq<RR>, r: RR, t: RRType)
    ensures UpstreamIps(answers + [r], t)
              == UpstreamIps(answers, t) + if r.rrtype == t && r.data.Address? then [Some(r.data.ip)] else []
    ensures AddressesIn(answers + [r], t) == AddressesIn(answers, t) + [r.rrtype == t && r.data.Address?]
  {
    assert (answers + [r])[..|answers|] == answers;
  }

  lemma {:induction false} UpstreamSelects(answers: seq<RR>, t: RRType) returns (kept: seq<nat>)
    ensures Selects(kept, AddressesIn(answers, t)) && AddressesTaken(UpstreamIps(answers, t), answers, kept)
  {
    if answers == [] {
      SelectsNone();
      return [];
    }
    hide Selects, AddressesTaken, AddressesIn, UpstreamIps;
    var n := |answers| - 1;
    var init, r := answers[..n], answers[n];
    assert answers == init + [r];
    var b := r.rrtype == t && r.data.Address?;
    kept := UpstreamSelects(init, t);
    UpstreamNext(init, r, t);
    TakenNext(UpstreamIps(init, t), init, kept, r);
    SelectsNext(kept, AddressesIn(init, t), b);
    kept := Selected(kept, b, n);
  }

  lemma {:induction false} UpstreamFoundIs(env: Env, name: string, t: RRType)
    ensures FromReply(UpstreamFound(env, name, t), env.upstream(name, t), t)
  {
    var answers := env.upstream(name, t).answers;
    var kept := UpstreamSelects(answers, t);
    hide Selects, UpstreamIps;
  }

  lemma {:induction false} TurnLeadsOn(env: Env, t: RRType, name: string, next: string)
    requires LeadsOn(env, t, name, next)
    ensures AnameTurn(env, name, t) == GoOn(next)
  {
    hide FindZone, FindLocation;
  }

  lemma {:induction false} TurnEnds(env: Env, t: RRType, name: string)
    requires Ends(env, t, name)
    ensures AnameTurn(env, name, t).Answer? && FoundAt(env, t, name, AnameTurn(env, name, t).found)
  {
    hide FindZone, FindLocation, FromReply, UpstreamFound;
    UpstreamFoundIs(env, name, t);
    var location := FindLocation(env.zone.index, name).0;
    var cname, aname := env.store.names(location, TYPE_CNAME), env.store.names(location, TYPE_ANAME);
    assert cname.Ok? ==> !LeadsOn(env, t, name, cname.value.host);
    assert aname.Ok? ==> !LeadsOn(env, t, name, aname.value.host);
  }

  lemma {:induction false} FollowedBy(env: Env, t: RRType, names: seq<string>, n: nat)
    requires Follows(env, t, names) && |names| <= n + 1
    ensures Follow(env, names[0], t, n) == Follow(env, names[|names| - 1], t, n - (|names| - 1))
    decreases |names|
  {
    hide AnameTurn, LeadsOn;
    if |names| > 1 {
      TurnLeadsOn(env, t, names[0], names[1]);
      FollowedBy(env, t, names[1..], n - 1);
    }
  }

  /**
   The whole search: names are followed until one does not lead on, and that name says what is
   found; if even the eleventh leads on, the search fails.
   */
  lemma {:induction false} AnameFinds(env: Env, t: RRType, names: seq<string>)
    requires Follows(env, t, names) && |names| <= 12
    ensures |names| == 12 ==> FoundAname(env, names[0], t) == Found([], SERVFAIL, 0)
    ensures var last := names[|names| - 1];
            |names| <= 11 && Ends(env, t, last) ==> FoundAt(env, t, last, FoundAname(env, names[0], t))
  {
    hide AnameTurn, LeadsOn, FoundAt, Ends;
    FollowedBy(env, t, names, 11);
    var last := names[|names| - 1];
    if Ends(env, t, last) { TurnEnds(env, t, last); }
    hide Follows;
  }

  /** And one of the two always happens. */
  lemma {:induction false} AnameSearchEnds(env: Env, t: RRType, start: string, n: nat) returns (names: seq<string>)
    ensures Follows(env, t, names) && names[0] == start && |names| <= n + 1
    ensures |names| == n + 1 || Ends(env, t, names[|names| - 1])
    decreases n
  {
    hide LeadsOn;
    names := [start];
    if n > 0 && !Ends(env, t, start) {
      var next :| LeadsOn(env, t, start, next);
      var rest := AnameSearchEnds(env, t, next, n - 1);
      names := [start] + rest;
    }
  }

  lemma {:induction false} NameAfterFollows(env: Env, t: RRType, names: seq<string>, k: nat)
    requires Follows(env, t, names) && k < |names|
    ensures NameAfter(env, names[0], t, k) == Some(names[k])
  {
    hide AnameTurn, LeadsOn;
    if k > 0 {
      NameAfterFollows(env, t, names, k - 1);
      TurnLeadsOn(env, t, names[k - 1], names[k]);
    }
  }

  /** If following names comes back to one of them the search fails, however long the cycle is. */
  lemma {:induction false} RepeatedNameFails(env: Env, t: RRType, names: seq<string>, i: nat, j: nat)
    requires Follows(env, t, names) && i < j < |names| && names[i] == names[j]
    ensures FoundAname(env, names[0], t) == Found([], SERVFAIL, 0)
  {
    NameAfterFollows(env, t, names, i);
    NameAfterFollows(env, t, names, j);
    hide Follows, NameAfter;
    CyclesFail(env, names[0], t, i, j);
  }
}
