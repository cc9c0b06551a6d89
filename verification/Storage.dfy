/**
 internal/storage/data_handler.go: database keys, the list of zones and the zone cache as
 one caller sees them. Redis reads are parameters; `Err` is a failed read.
 */
module Storage {
  import opened Wrappers
  import opened Names
  import opened ZoneIndex

  // ----- Database keys -----

  const KEY_PREFIX := "z42:zones:"

  function ZoneLocationsKey(zone: string): (key: string) { KEY_PREFIX + zone + ":labels" }
  function ZoneConfigKey(zone: string): (key: string) { KEY_PREFIX + zone + ":config" }
  function ZonePubKey(zone: string, keyType: string): (key: string) { KEY_PREFIX + zone + ":" + keyType + ":pub" }
  function ZonePrivKey(zone: string, keyType: string): (key: string) { KEY_PREFIX + zone + ":" + keyType + ":priv" }

  function ZoneLocationRRSetKey(zone: string, location: string, rtype: string): (key: string) {
    KEY_PREFIX + zone + ":labels:" + location + ":" + rtype
  }

  function SplitDbKey(key: string): (r: seq<string>) {
    Split(TrimPrefix(key, KEY_PREFIX), ':')
  }

  predicate IsRRSetEntry(parts: seq<string>) {
    |parts| == 4 && parts[1] == "labels"
  }

  lemma {:induction false} PrefixTrimmed(rest: string)
    ensures TrimPrefix(KEY_PREFIX + rest, KEY_PREFIX) == rest
  {
  }

  lemma {:induction false} SplitCount(s: string, c: char)
    ensures |Split(s, c)| == 1 <==> c !in s
    ensures c !in s ==> Split(s, c) == [s]
  {
    hide IndexOf;
    if c !in s {
      SplitWhole(s, c);
    } else {
      var i := IndexOf(s, c);
      assert s[..|s|] == s;
    }
  }

  /**
   A record-set key is split back into its parts. The entry is recognised as a record set
   exactly when neither the zone nor the location holds a colon; a colon in the location
   alone leaves the zone in front.
   */
  lemma {:induction false} RRSetKeyRoundTrip(zone: string, location: string, rtype: string)
    requires ':' !in rtype
    ensures IsRRSetEntry(SplitDbKey(ZoneLocationRRSetKey(zone, location, rtype))) <==> ':' !in zone && ':' !in location
    ensures ':' !in zone && ':' !in location ==>
              SplitDbKey(ZoneLocationRRSetKey(zone, location, rtype)) == [zone, "labels", location, rtype]
    ensures ':' !in zone ==>
              SplitDbKey(ZoneLocationRRSetKey(zone, location, rtype)) == [zone, "labels"] + Split(location, ':') + [rtype]
  {
    hide Split, IndexOf;
    var key := zone + ":labels:" + location + ":" + rtype;
    PrefixTrimmed(key);
    assert ZoneLocationRRSetKey(zone, location, rtype) == KEY_PREFIX + key;
    assert key == zone + [':'] + ("labels" + [':'] + (location + [':'] + rtype));
    SplitConcat(zone, "labels" + [':'] + (location + [':'] + rtype), ':');
    SplitConcat("labels", location + [':'] + rtype, ':');
    SplitConcat(location, rtype, ':');
    SplitCount(zone, ':');
    SplitCount("labels", ':');
    SplitCount(location, ':');
    SplitCount(rtype, ':');
  }

  /** Every other key of a zone invalidates that zone's copy, never a record set. */
  lemma {:induction false} ZoneKeysRoundTrip(zone: string, keyType: string)
    requires ':' !in zone && ':' !in keyType
    ensures SplitDbKey(ZoneLocationsKey(zone)) == [zone, "labels"]
    ensures SplitDbKey(ZoneConfigKey(zone)) == [zone, "config"]
    ensures SplitDbKey(ZonePubKey(zone, keyType)) == [zone, keyType, "pub"]
    ensures SplitDbKey(ZonePrivKey(zone, keyType)) == [zone, keyType, "priv"]
  {
    hide SplitDbKey;
    SimpleKey(zone, "labels", ZoneLocationsKey(zone));
    SimpleKey(zone, "config", ZoneConfigKey(zone));
    TypedKey(zone, keyType, "pub", ZonePubKey(zone, keyType));
    TypedKey(zone, keyType, "priv", ZonePrivKey(zone, keyType));
  }

  lemma {:induction false} SimpleKey(zone: string, tail: string, key: string)
    requires ':' !in zone && ':' !in tail && key == KEY_PREFIX + zone + (":" + tail)
    ensures SplitDbKey(key) == [zone, tail]
  {
    hide Split, SplitDbKey;
    SplitCount(zone, ':');
    SplitCount(tail, ':');
    SplitZoneKey(zone, tail);
    assert key == KEY_PREFIX + (zone + [':'] + tail);
  }

  lemma {:induction false} TypedKey(zone: string, keyType: string, tail: string, key: string)
    requires ':' !in zone && ':' !in keyType && ':' !in tail && key == KEY_PREFIX + zone + ":" + keyType + (":" + tail)
    ensures SplitDbKey(key) == [zone, keyType, tail]
  {
    hide Split, SplitDbKey;
    SplitCount(zone, ':');
    SplitCount(keyType, ':');
    SplitCount(tail, ':');
    SplitConcat(keyType, tail, ':');
    SplitZoneKey(zone, keyType + [':'] + tail);
    assert key == KEY_PREFIX + (zone + [':'] + (keyType + [':'] + tail));
  }

  lemma {:induction false} SplitZoneKey(zone: string, rest: string)
    ensures SplitDbKey(KEY_PREFIX + (zone + [':'] + rest)) == Split(zone, ':') + Split(rest, ':')
  {
    PrefixTrimmed(zone + [':'] + rest);
    SplitConcat(zone, rest, ':');
  }

  // ----- The handler's state -----

  /** A built zone and the Unix second until which it counts as fresh. */
  datatype CachedZone = CachedZone(zone: Index, config: string, cacheTimeout: int)

  class DataHandler {
    const zoneCacheTimeout: int
    var zones: map<string, string>
    var zoneCache: map<string, CachedZone>
    var recordCache: set<string>

    constructor (zoneCacheTimeout: int)
      ensures this.zoneCacheTimeout == zoneCacheTimeout
      ensures zones == map[] && zoneCache == map[] && recordCache == {}
    {
      this.zoneCacheTimeout := zoneCacheTimeout;
      zones, zoneCache, recordCache := map[], map[], {};
    }

    /** data_handler.go:176. A failed read keeps the zones already loaded. */
    method LoadZones(members: Result<seq<string>>)
      modifies this`zones
      ensures members.Err? ==> zones == old(zones)
      ensures members.Ok? ==> IsZoneTreeOf(zones, members.value)
    {
      if members.Err? { return; }
      var names := members.value;
      var newZones: map<string, string> := map[];
      for n := 0 to |names|
        invariant forall k :: k in newZones ==> newZones[k] in names && k == ReversedName(newZones[k])
        invariant forall i :: 0 <= i < n ==> ReversedName(names[i]) in newZones
      {
        var rname := ReverseName(names[n]);
        newZones := newZones[rname := names[n]];
      }
      zones := newZones;
    }

    /** data_handler.go:96-104, a keyspace event for a key under the zones prefix. */
    method OnKeyEvent(key: string)
      modifies this`zoneCache, this`recordCache
      ensures var parts := SplitDbKey(key);
              if IsRRSetEntry(parts) then
                recordCache == old(recordCache) - {key} && zoneCache == old(zoneCache)
              else
                recordCache == old(recordCache) && zoneCache == old(zoneCache) - {parts[0]}
    {
      var parts := SplitDbKey(key);
      if IsRRSetEntry(parts) {
        recordCache := recordCache - {key};
      } else {
        zoneCache := zoneCache - {parts[0]};
      }
    }

    /**
     data_handler.go:209, a call whose load nothing interrupts. `now` is the clock at the call,
     `later` when the zone has been built; `kept` says whether the lossy cache takes the copy.
     */
    method GetZone(zone: string, now: int, later: int, locations: Result<seq<string>>, config: Result<string>, kept: bool)
      returns (z: Option<CachedZone>)
      modifies this`zoneCache
      ensures zone in old(zoneCache) && now <= old(zoneCache)[zone].cacheTimeout ==>
                z == Some(old(zoneCache)[zone]) && zoneCache == old(zoneCache)
      ensures !(zone in old(zoneCache) && now <= old(zoneCache)[zone].cacheTimeout) ==>
                match locations
                case Err =>
                  && zoneCache == old(zoneCache)
                  && z == if zone in old(zoneCache) then Some(old(zoneCache)[zone]) else None
                case Ok(locs) =>
                  && z.Some? && z.value.zone.name == zone && z.value.zone.locations == locs
                  && IsTreeOf(z.value.zone.tree, locs)
                  && z.value.config == (if config.Ok? then config.value else "")
                  && z.value.cacheTimeout == later + zoneCacheTimeout
                  && zoneCache == if kept then old(zoneCache)[zone := z.value] else old(zoneCache)
    {
      z := None;
      if zone in zoneCache {
        z := Some(zoneCache[zone]);
        if now <= zoneCache[zone].cacheTimeout { return; }
      }
      if locations.Err? { return; }
      var configStr := "";
      if config.Ok? { configStr := config.value; }
      var index := NewZone(zone, locations.value);
      var built := CachedZone(index, configStr, later + zoneCacheTimeout);
      if kept { zoneCache := zoneCache[zone := built]; }
      z := Some(built);
    }
  }

  /** Writing the locations, the configuration or a key of a zone drops that zone's copy and no other. */
  method InvalidateZone(h: DataHandler, zone: string, keyType: string, key: string)
    requires ':' !in zone && ':' !in keyType
    requires key in {ZoneLocationsKey(zone), ZoneConfigKey(zone), ZonePubKey(zone, keyType), ZonePrivKey(zone, keyType)}
    modifies h`zoneCache, h`recordCache
    ensures h.zoneCache == old(h.zoneCache) - {zone} && h.recordCache == old(h.recordCache)
  {
    ZoneKeysRoundTrip(zone, keyType);
    h.OnKeyEvent(key);
  }

  /**
   Writing a record set drops exactly that set, except at a location that holds a colon: there the
   set stays cached and the zone's copy goes instead.
   */
  method InvalidateRRSet(h: DataHandler, zone: string, location: string, rtype: string)
    requires ':' !in zone && ':' !in rtype
    modifies h`zoneCache, h`recordCache
    ensures var key := ZoneLocationRRSetKey(zone, location, rtype);
            if ':' in location then h.zoneCache == old(h.zoneCache) - {zone} && h.recordCache == old(h.recordCache)
            else h.zoneCache == old(h.zoneCache) && h.recordCache == old(h.recordCache) - {key}
  {
    RRSetKeyRoundTrip(zone, location, rtype);
    h.OnKeyEvent(ZoneLocationRRSetKey(zone, location, rtype));
  }

  /** A location the round trip fails for. */
  lemma {:induction false} ColonHidesRRSet()
    ensures var parts := SplitDbKey(ZoneLocationRRSetKey("z.", "a:b", "txt"));
            parts == ["z.", "labels", "a", "b", "txt"] && !IsRRSetEntry(parts)
  {
    hide Split, SplitDbKey, ZoneLocationRRSetKey;
    RRSetKeyRoundTrip("z.", "a:b", "txt");
    assert "a:b" == "a" + [':'] + "b";
    SplitConcat("a", "b", ':');
    SplitCount("a", ':');
    SplitCount("b", ':');
  }
}
