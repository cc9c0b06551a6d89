/** Concrete zones in which CNAME flattening and the plain answer differ. */
module FlatteningExamples {
  import opened Wrappers
  import opened Names
  import opened RadixTree
  import opened ZoneIndex
  import opened Records
  import opened Requests
  import opened QueryLoop
  import opened AliasChains
  import opened Flattening
  import AddressFilter
  import Caa
  import Dnssec

  // ----- A target without its final dot -----

  /** Zone `z.` with one location `a`, an alias to `b.z` written without its final dot. */
  function ExampleEnv(geo: AddressFilter.Geo, signer: Dnssec.Signer): (env: Env) {
    Env(
      map[".z." := "z."],
      Zone(Index("z.", map["a." := Some("a")], ["a"]), RR("z.", TYPE_SOA, 300, Fields("", "")), 300, false, false, [], signer),
      Store((_, _) => Err,
            (location, t) => Ok(if location == "a" && t == TYPE_CNAME then NameSet(300, "b.z") else NameSet(0, "")),
            (_, _) => Ok(ItemSet(0, []))),
      geo,
      (_, _) => UpstreamReply([], SERVFAIL),
      0)
  }

  lemma {:induction false} ExampleNames()
    ensures ReversedName("z.") == ".z." && ReversedName("a.z.") == ".z.a." && ReversedName("a") == "a."
    ensures ReversedName("b.z.") == ".z.b." && ReversedName("b.z") == "z.b."
    ensures TrimSuffix("a.z.", ".z.") == "a" && Fqdn("b.z") == "b.z."
  {
    assert "a.z."[1..] == ".z.";
    assert "a.z."[..1] == "a";
  }

  lemma {:induction false} ExampleNode(d: string)
    ensures HasNode(["a"], d) <==> d == ".a"
  {
    assert ".a"[1..] == "a" && ".a"[0..] == ".a" && ".a"[2..] == "";
    assert "." + ["a"][0] == ".a";
    if d == ".a" { assert IsSuffix(d, "." + ["a"][0]); }
  }

  lemma {:induction false} ExampleKeys()
    ensures KeysAreNodes({"a."}, ["a"])
  {
    assert Reversed(".a") == "a." && Reversed("a.") == ".a";
    forall k: string ensures k in {"a."} <==> HasNode(["a"], Reversed(k)) {
      ReversedTwice(k);
      ExampleNode(Reversed(k));
      hide HasNode, Reversed;
    }
  }

  lemma {:induction false} ExampleTree()
    ensures IsTreeOf(map["a." := Some("a")], ["a"])
  {
    ExampleNames();
    ExampleKeys();
    hide KeysAreNodes, HasNode, Reversed, ReversedName;
    assert map["a." := Some("a")].Keys == {"a."};
  }

  lemma {:induction false} ExampleValid(geo: AddressFilter.Geo, signer: Dnssec.Signer)
    ensures ValidEnv(ExampleEnv(geo, signer))
  {
    ExampleTree();
    ExampleNames();
    var names := ["z."];
    assert IsZoneTreeOf(map[".z." := "z."], names);
  }

  lemma {:induction false} ExampleZones(zones: map<string, string>)
    requires zones == map[".z." := "z."]
    ensures FindZone(zones, "a.z.") == "z." && FindZone(zones, "b.z.") == "z." && FindZone(zones, "b.z") == ""
  {
    ExampleNames();
    assert ".z."[0] == '.' && "z.b."[0] == 'z';
    assert IsPrefix(".z.", ".z.a.") && IsPrefix(".z.", ".z.b.") && !IsPrefix(".z.", "z.b.");
    hide LongestPrefix, ReversedName;
    LongestPrefixIs(zones, ".z.a.", ".z.");
    LongestPrefixIs(zones, ".z.b.", ".z.");
    LongestPrefixMeans(zones, "z.b.");
  }

  lemma {:induction false} ExampleLocation(z: Index)
    requires z.name == "z." && z.tree == map["a." := Some("a")]
    ensures FindLocation(z, "a.z.") == ("a", ExactMatch)
  {
    ExampleNames();
    hide ReversedName, TrimSuffix, LongestPrefix;
    assert "." + "z." == ".z.";
    assert "a." in z.tree && IsPrefix("a.", "a.");
    LongestPrefixIs(z.tree, "a.", "a.");
  }

  lemma {:induction false} UnfaithfulTarget(env: Env, q: Query, name: string, n: nat)
    requires n > 1 && env.InZone(name) && env.Locate(name).1 == ExactMatch && q.qtype != TYPE_CNAME
    requires var cname := AliasAt(env, name);
             cname.Ok? && !cname.value.Empty() && !env.InZone(cname.value.host) && env.InZone(Fqdn(cname.value.host))
    ensures !Faithful(env, q, name, n)
  {
    hide FindZone, FindLocation, Fqdn;
  }

  /** A target written without its final dot breaks the agreement: one mode answers the alias, the other NXDOMAIN. */
  lemma {:induction false} UnqualifiedTargetDisagrees(geo: AddressFilter.Geo, signer: Dnssec.Signer)
    ensures var env, q := ExampleEnv(geo, signer), Query("a.z.", TYPE_A, false, false);
            ValidEnv(env) && Movable(q.qtype) && !Agree(env, q)
  {
    hide ValidEnv, Agree, ReversedName, TrimSuffix, Fqdn, FindZone, FindLocation, Faithful;
    var env, q := ExampleEnv(geo, signer), Query("a.z.", TYPE_A, false, false);
    ExampleValid(geo, signer);
    ExampleNames();
    ExampleZones(env.zones);
    ExampleLocation(env.zone.index);
    UnfaithfulTarget(env, q, "a.z.", MAX_LOOKUPS);
    FlatteningAgreesIffFaithful(env, q);
  }

  // ----- An eleventh alias that leaves the zone -----

  /** The location `a`, `aa`, and so on, and its full name in the zone `z.`. */
  function Rung(k: nat): (l: string)
    ensures |l| == k
  {
    seq(k, _ => 'a')
  }

  function RungName(k: nat): (name: string) { Rung(k) + ".z." }

  function RungKeys(n: nat): (keys: set<string>) {
    set k: nat | 1 <= k <= n :: Rung(k) + "."
  }

  function RungTree(n: nat): (tree: map<string, Option<string>>) {
    map key | key in RungKeys(n) && key != "" :: Some(key[..|key| - 1])
  }

  function Rungs(n: nat): (locations: seq<string>) {
    seq(n, i requires 0 <= i => Rung(i + 1))
  }

  /** Zone `z.` with eleven locations, each an alias to the next and the last one to `x.`. */
  function LadderEnv(geo: AddressFilter.Geo, signer: Dnssec.Signer): (env: Env) {
    Env(
      map[".z." := "z."],
      Zone(Index("z.", RungTree(11), Rungs(11)), RR("z.", TYPE_SOA, 300, Fields("", "")), 300, false, false, [], signer),
      Store((_, _) => Err,
            (location, t) => Ok(if t != TYPE_CNAME then NameSet(0, "")
                                else NameSet(300, if |location| < 11 then RungName(|location| + 1) else "x.")),
            (_, _) => Ok(ItemSet(0, []))),
      geo,
      (_, _) => UpstreamReply([], SERVFAIL),
      0)
  }

  lemma {:induction false} RungKey(k: nat)
    ensures ReversedName(Rung(k)) == Rung(k) + "." && Reversed(Rung(k) + ".") == "." + Rung(k)
  {
  }

  lemma {:induction false} WholeRung(d: string, k: nat)
    requires d != "" && d[0] == '.' && IsSuffix(d, "." + Rung(k))
    ensures d == "." + Rung(k)
  {
    hide Rung;
    var name, i := "." + Rung(k), k + 1 - |d|;
    RungChars(k);
    assert d[0] == name[i..][0] == name[i];
    assert i == 0;
    assert name[0..] == name;
  }

  lemma {:induction false} RungChars(k: nat)
    ensures forall i :: 0 <= i < k ==> Rung(k)[i] == 'a'
  {
  }

  lemma {:induction false} NodeIsRung(n: nat, d: string)
    ensures HasNode(Rungs(n), d) <==> exists k: nat :: 1 <= k <= n && d == "." + Rung(k)
  {
    hide Rung, HasNode;
    if HasNode(Rungs(n), d) { NodeGivesRung(n, d); }
    if k: nat :| 1 <= k <= n && d == "." + Rung(k) { RungGivesNode(n, k); }
  }

  lemma {:induction false} NodeGivesRung(n: nat, d: string)
    requires HasNode(Rungs(n), d)
    ensures exists k: nat :: 1 <= k <= n && d == "." + Rung(k)
  {
    hide Rung, IsSuffix;
    var i :| 0 <= i < n && IsSuffix(d, "." + Rungs(n)[i]);
    WholeRung(d, i + 1);
  }

  lemma {:induction false} RungGivesNode(n: nat, k: nat)
    requires 1 <= k <= n
    ensures HasNode(Rungs(n), "." + Rung(k))
  {
    hide Rung;
    assert Rungs(n)[k - 1] == Rung(k);
    var d := "." + Rung(k);
    assert IsSuffix(d, "." + Rungs(n)[k - 1]);
  }

  lemma {:induction false} RungKeysAreNodes(n: nat)
    ensures KeysAreNodes(RungTree(n).Keys, Rungs(n))
  {
    hide Rung, Reversed, HasNode;
    forall key: string ensures key in RungTree(n) <==> HasNode(Rungs(n), Reversed(key)) {
      NodeIsRung(n, Reversed(key));
      ReversedTwice(key);
      if key in RungKeys(n) {
        var k: nat :| 1 <= k <= n && key == Rung(k) + ".";
        RungKey(k);
      }
      if k: nat :| 1 <= k <= n && Reversed(key) == "." + Rung(k) {
        RungKey(k);
        ReversedTwice(Rung(k) + ".");
        assert key == Rung(k) + "." && key in RungKeys(n);
      }
    }
  }

  lemma {:induction false} RungValue(n: nat, k: nat)
    requires 1 <= k <= n
    ensures ReversedName(Rung(k)) in RungTree(n) && RungTree(n)[ReversedName(Rung(k))] == Some(Rung(k))
    ensures Rungs(n)[k - 1] == Rung(k)
  {
    hide Rung, ReversedName;
    RungKey(k);
    var key := Rung(k) + ".";
    assert key in RungKeys(n) && key[..|key| - 1] == Rung(k);
  }

  lemma {:induction false} RungTreeIsTree(n: nat)
    ensures IsTreeOf(RungTree(n), Rungs(n))
  {
    hide Rung, ReversedName, KeysAreNodes;
    RungKeysAreNodes(n);
    var tree, locations := RungTree(n), Rungs(n);
    forall key | key in tree && tree[key].Some?
      ensures tree[key].value in locations && key == ReversedName(tree[key].value)
    {
      var k: nat :| 1 <= k <= n && key == Rung(k) + ".";
      RungKey(k);
      RungValue(n, k);
    }
    forall i | 0 <= i < n
      ensures ReversedName(locations[i]) in tree && tree[ReversedName(locations[i])] == Some(locations[i])
    {
      RungValue(n, i + 1);
    }
  }

  lemma {:induction false} LadderValid(geo: AddressFilter.Geo, signer: Dnssec.Signer)
    ensures ValidEnv(LadderEnv(geo, signer))
  {
    hide RungTree, Rungs, IsTreeOf, IsZoneTreeOf;
    RungTreeIsTree(11);
    OneZone();
  }

  lemma {:induction false} OneZone()
    ensures var names := ["z."]; IsZoneTreeOf(map[".z." := "z."], names) && "" !in names
  {
    ExampleNames();
  }

  lemma {:induction false} LadderZones(zones: map<string, string>, k: nat)
    requires zones == map[".z." := "z."]
    ensures FindZone(zones, RungName(k)) == "z." && FindZone(zones, "x.") == ""
  {
    var name := "." + RungName(k);
    assert name[|name| - 3..] == ".z.";
    ReversedPrefix(".z.", name);
    assert Reversed(".z.") == ".z." && ReversedName("x.") == ".x." && ".x."[1] == 'x' && ".z."[1] == 'z';
    hide Reversed, LongestPrefix, RungName;
    LongestPrefixIs(zones, ReversedName(RungName(k)), ".z.");
    LongestPrefixMeans(zones, ".x.");
  }

  lemma {:induction false} RungQualified(k: nat)
    ensures Fqdn(RungName(k)) == RungName(k)
  {
    var name := RungName(k);
    assert name[..|name| - 1] == Rung(k) + ".z";
    hide Rung;
  }

  lemma {:induction false} RungLocated(z: Index, n: nat, k: nat)
    requires z.name == "z." && z.tree == RungTree(n) && 1 <= k <= n
    ensures FindLocation(z, RungName(k)) == (Rung(k), ExactMatch)
  {
    hide Rung, ReversedName, LongestPrefix, RungTree;
    RungKey(k);
    RungValue(n, k);
    var name := RungName(k);
    assert |name| == k + 3 && name[|name| - 3..] == ".z." && name[..k] == Rung(k);
    assert "." + "z." == ".z.";
    var key := Rung(k) + ".";
    assert IsPrefix(key, key);
    LongestPrefixIs(z.tree, key, key);
  }

  /** From the `k`-th rung on the climb is not faithful: it ends outside on the eleventh alias. */
  lemma {:induction false} LadderUnfaithful(env: Env, q: Query, k: nat)
    requires 1 <= k <= 11 && q.qtype != TYPE_CNAME
    requires forall j :: 1 <= j <= 11 ==> OnLadder(env, j)
    ensures !Faithful(env, q, RungName(k), 12 - k)
    decreases 12 - k
  {
    hide FindZone, FindLocation, Fqdn, RungName;
    assert OnLadder(env, k);
    if k < 11 {
      assert OnLadder(env, k + 1);
      LadderUnfaithful(env, q, k + 1);
    }
  }

  /** The name on rung `j` is in the zone and an alias to the next rung, or from the last one out of the zone. */
  ghost predicate OnLadder(env: Env, j: nat) {
    var name, cname := RungName(j), AliasAt(env, RungName(j));
    && env.InZone(name) && env.Locate(name).1 == ExactMatch && Fqdn(name) == name
    && cname.Ok? && !cname.value.Empty()
    && if j < 11 then cname.value.host == RungName(j + 1) else !env.InZone(cname.value.host)
  }

  /** An eleventh alias that leaves the zone: flattened it is the answer, plain it is one alias too many. */
  lemma {:induction false} EleventhAliasDisagrees(geo: AddressFilter.Geo, signer: Dnssec.Signer)
    ensures var env, q := LadderEnv(geo, signer), Query("a.z.", TYPE_A, false, false);
            ValidEnv(env) && Movable(q.qtype) && !Agree(env, q)
  {
    var env, q := LadderEnv(geo, signer), Query("a.z.", TYPE_A, false, false);
    LadderValid(geo, signer);
    forall j: nat | 1 <= j <= 11 ensures OnLadder(env, j) { RungOnLadder(geo, signer, j); }
    assert RungName(1) == "a.z.";
    hide ValidEnv, Agree, Faithful, OnLadder, RungName;
    LadderUnfaithful(env, q, 1);
    FlatteningAgreesIffFaithful(env, q);
  }

  lemma {:induction false} RungOnLadder(geo: AddressFilter.Geo, signer: Dnssec.Signer, j: nat)
    requires 1 <= j <= 11
    ensures OnLadder(LadderEnv(geo, signer), j)
  {
    hide FindZone, FindLocation, Fqdn, RungName, RungTree, Rung;
    var env := LadderEnv(geo, signer);
    LadderZones(env.zones, j);
    RungQualified(j);
    RungLocated(env.zone.index, 11, j);
    assert RungName(j + 1) != "" by { LadderZones(env.zones, j + 1); RungQualified(j + 1); }
  }

  // ----- Types that flattening treats by name -----

  /** Zone `z.` in which `a` is an alias to `aa`, where there is a set of each of the given types. */
  function AliasEnv(geo: AddressFilter.Geo, signer: Dnssec.Signer, types: set<RRType>): (env: Env) {
    Env(
      map[".z." := "z."],
      Zone(Index("z.", RungTree(2), Rungs(2)), RR("z.", TYPE_SOA, 300, Fields("", "")), 300, false, false, [], signer),
      Store((_, _) => Err,
            (location, t) => Ok(if location == "a" && t == TYPE_CNAME then NameSet(300, "aa.z.") else NameSet(0, "")),
            (location, t) => Ok(if location == "aa" && t in types then ItemSet(300, [Item("x.", "")]) else ItemSet(0, []))),
      geo,
      (_, _) => UpstreamReply([], SERVFAIL),
      0)
  }

  lemma {:induction false} FirstRungs()
    ensures Rung(1) == "a" && Rung(2) == "aa" && RungName(1) == "a.z." && RungName(2) == "aa.z."
  {
  }

  lemma {:induction false} AliasZoneValid(env: Env)
    requires env.zones == map[".z." := "z."] && env.zone.index == Index("z.", RungTree(2), Rungs(2))
    ensures ValidEnv(env)
  {
    hide RungTree, Rungs, IsTreeOf, IsZoneTreeOf;
    RungTreeIsTree(2);
    OneZone();
  }

  lemma {:induction false} AliasZone(env: Env)
    requires env.zones == map[".z." := "z."] && env.zone.index == Index("z.", RungTree(2), Rungs(2))
    ensures ValidEnv(env) && env.InZone("a.z.") && env.InZone("aa.z.") && Fqdn("aa.z.") == "aa.z."
    ensures env.Locate("a.z.") == ("a", ExactMatch) && env.Locate("aa.z.") == ("aa", ExactMatch)
  {
    hide RungTree, Rungs, ValidEnv, FindZone, FindLocation, Fqdn, Rung, RungName;
    AliasZoneValid(env);
    FirstRungs();
    LadderZones(env.zones, 1);
    LadderZones(env.zones, 2);
    RungQualified(2);
    RungLocated(env.zone.index, 2, 1);
    RungLocated(env.zone.index, 2, 2);
  }

  /** The alias is followed, and the chain arrives at its target. */
  lemma {:induction false} AliasFollowed(geo: AddressFilter.Geo, signer: Dnssec.Signer, types: set<RRType>, t: RRType)
    requires t != TYPE_CNAME
    ensures var env, q := AliasEnv(geo, signer, types), Query("a.z.", t, false, false);
            && Faithful(env, q, "a.z.", MAX_LOOKUPS)
            && ChainFrom(env, Plain(q), "a.z.", MAX_LOOKUPS)
               == Chain([Alias("a.z.", NameSet(300, "aa.z."))], Arrived("aa.z.", "aa", ExactMatch))
  {
    var env, q := AliasEnv(geo, signer, types), Query("a.z.", t, false, false);
    AliasZone(env);
    hide FindZone, FindLocation, Fqdn, ValidEnv;
    var rest := ChainFrom(env, Plain(q), "aa.z.", 10);
    assert rest == Chain([], Arrived("aa.z.", "aa", ExactMatch));
    assert [Alias("a.z.", NameSet(300, "aa.z."))] + [] == [Alias("a.z.", NameSet(300, "aa.z."))];
    assert NextName(env, Plain(q), "aa.z.") == None;
    assert Faithful(env, q, "aa.z.", 10);
  }

  /** An alias to a cut with DS records: both modes give them the name of the cut. */
  lemma {:induction false} DsKeepsTheCut(geo: AddressFilter.Geo, signer: Dnssec.Signer)
    ensures var env, q := AliasEnv(geo, signer, {TYPE_NS, TYPE_DS}), Query("a.z.", TYPE_DS, false, false);
            ValidEnv(env) && Faithful(env, q, q.name, MAX_LOOKUPS) && !Agree(env, q)
  {
    hide ValidEnv, Agree, Faithful, ChainFrom, RungTree, Rungs, FindZone, FindLocation;
    var env, q := AliasEnv(geo, signer, {TYPE_NS, TYPE_DS}), Query("a.z.", TYPE_DS, false, false);
    AliasZone(env);
    AliasFollowed(geo, signer, {TYPE_NS, TYPE_DS}, TYPE_DS);
    FlatteningAgreesIff(env, q);
    assert CutWithDs(env, "aa.z.", "aa");
  }

  /** An alias to a name with a CAA set: flattened the search starts again from the query name, which has none. */
  lemma {:induction false} CaaStartsAgain(geo: AddressFilter.Geo, signer: Dnssec.Signer)
    ensures var env, q := AliasEnv(geo, signer, {TYPE_CAA}), Query("a.z.", TYPE_CAA, false, false);
            ValidEnv(env) && Faithful(env, q, q.name, MAX_LOOKUPS) && !Agree(env, q)
  {
    hide ValidEnv, Agree, Faithful, ChainFrom, RungTree, Rungs, FindZone, FindLocation, Caa.AfterFirstDot;
    var env, q := AliasEnv(geo, signer, {TYPE_CAA}), Query("a.z.", TYPE_CAA, false, false);
    AliasZone(env);
    AliasFollowed(geo, signer, {TYPE_CAA}, TYPE_CAA);
    FlatteningAgreesIff(env, q);
    assert CaaRecords(env, "a.z.", "a.z.") == [];
    var items := [Item("x.", "")];
    ItemRecordsEmptyIff(items, "a.z.", TYPE_CAA, 300);
    assert items[0].key == "x.";
    assert CaaRecords(env, "aa.z.", "a.z.") != [];
  }
}
