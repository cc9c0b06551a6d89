/** internal/types/dns_types.go: resource records, and the record sets that produce them. */
module Records {
  import opened Wrappers
  import opened Names
  import opened Geotools

  type RRType = nat

  const TYPE_NONE: RRType := 0
  const TYPE_A: RRType := 1
  const TYPE_NS: RRType := 2
  const TYPE_CNAME: RRType := 5
  const TYPE_SOA: RRType := 6
  const TYPE_PTR: RRType := 12
  const TYPE_MX: RRType := 15
  const TYPE_TXT: RRType := 16
  const TYPE_AAAA: RRType := 28
  const TYPE_SRV: RRType := 33
  const TYPE_OPT: RRType := 41
  const TYPE_DS: RRType := 43
  const TYPE_RRSIG: RRType := 46
  const TYPE_NSEC: RRType := 47
  const TYPE_DNSKEY: RRType := 48
  const TYPE_TLSA: RRType := 52
  const TYPE_CAA: RRType := 257

  datatype RData =
    | Address(ip: string)
    | Target(host: string)
    | Strings(txt: seq<string>)
    | Fields(key: string, rest: string)
    | Nsec(next: string, bitmap: seq<RRType>)
    | Signature(covered: RRType, signature: string)

  datatype RR = RR(name: string, rrtype: RRType, ttl: nat, data: RData)

  /** The records with their owner replaced. */
  function Renamed(rrs: seq<RR>, name: string): (r: seq<RR>)
    ensures |r| == |rrs| && forall i :: 0 <= i < |r| ==> r[i] == rrs[i].(name := name)
  {
    seq(|rrs|, i requires 0 <= i < |rrs| => rrs[i].(name := name))
  }

  /** Every record is of type `t` and owned by `name`. */
  ghost predicate AllOf(rrs: seq<RR>, name: string, t: RRType) {
    forall i :: 0 <= i < |rrs| ==> rrs[i].name == name && rrs[i].rrtype == t
  }

  // ----- Sets with one name: CNAME, PTR, ANAME -----

  datatype NameSet = NameSet(ttl: nat, host: string) {
    predicate Empty() { host == "" }

    function Value(name: string, t: RRType): (r: seq<RR>)
      ensures AllOf(r, name, t) && |r| == if Empty() then 0 else 1
    {
      if host == "" then [] else [RR(name, t, ttl, Target(Fqdn(host)))]
    }
  }

  // ----- Sets of items: TXT, NS, MX, SRV, CAA, TLSA, DS -----

  /** `key` is the text or the host; the remaining fields stay unread. */
  datatype Item = Item(key: string, rest: string)

  predicate SkipsEmpty(t: RRType) {
    t in {TYPE_TXT, TYPE_NS, TYPE_MX, TYPE_SRV}
  }

  function ItemData(t: RRType, item: Item): (r: RData) {
    if t == TYPE_TXT then Strings(Split255(item.key))
    else if t == TYPE_NS then Target(Fqdn(item.key))
    else if t == TYPE_MX || t == TYPE_SRV then Fields(Fqdn(item.key), item.rest)
    else Fields(item.key, item.rest)
  }

  /** The records of the items, in order, leaving out those a type skips. */
  function ItemRecords(items: seq<Item>, name: string, t: RRType, ttl: nat): (r: seq<RR>)
    ensures AllOf(r, name, t)
  {
    if items == [] then []
    else
      var item := items[|items| - 1];
      var before := ItemRecords(items[..|items| - 1], name, t, ttl);
      if SkipsEmpty(t) && item.key == "" then before else before + [RR(name, t, ttl, ItemData(t, item))]
  }

  datatype ItemSet = ItemSet(ttl: nat, items: seq<Item>) {
    predicate Empty() { items == [] }

    method Value(name: string, t: RRType) returns (res: seq<RR>)
      ensures res == ItemRecords(items, name, t, ttl)
    {
      res := [];
      for i := 0 to |items|
        invariant res == ItemRecords(items[..i], name, t, ttl)
      {
        assert items[..i + 1][..i] == items[..i];
        if SkipsEmpty(t) && |items[i].key| == 0 { continue; }
        res := res + [RR(name, t, ttl, ItemData(t, items[i]))];
      }
      assert items[..|items|] == items;
    }
  }

  lemma {:induction false} ItemRecordsRenamed(items: seq<Item>, name: string, other: string, t: RRType, ttl: nat)
    ensures ItemRecords(items, other, t, ttl) == Renamed(ItemRecords(items, name, t, ttl), other)
  {
    if items != [] { ItemRecordsRenamed(items[..|items| - 1], name, other, t, ttl); }
  }

  /** A set yields no record exactly when every item is skipped. */
  lemma {:induction false} ItemRecordsEmptyIff(items: seq<Item>, name: string, t: RRType, ttl: nat)
    ensures ItemRecords(items, name, t, ttl) == [] <==>
              forall i :: 0 <= i < |items| ==> SkipsEmpty(t) && items[i].key == ""
  {
    if items != [] {
      var n := |items| - 1;
      ItemRecordsEmptyIff(items[..n], name, t, ttl);
      assert forall i :: 0 <= i < n ==> items[..n][i] == items[i];
    }
  }

  // ----- Addresses -----

  /** The records of a list of addresses; nil addresses yield none. */
  function AddressRecords(ips: seq<Ip>, name: string, t: RRType, ttl: nat): (r: seq<RR>)
    ensures AllOf(r, name, t)
  {
    if ips == [] then []
    else
      var ip := ips[|ips| - 1];
      var before := AddressRecords(ips[..|ips| - 1], name, t, ttl);
      if ip.None? then before else before + [RR(name, t, ttl, Address(ip.value))]
  }

  /** handler.go:471 and :485. */
  method GenerateAddresses(name: string, t: RRType, ttl: nat, ips: seq<Ip>) returns (answers: seq<RR>)
    ensures answers == AddressRecords(ips, name, t, ttl)
  {
    answers := [];
    for i := 0 to |ips|
      invariant answers == AddressRecords(ips[..i], name, t, ttl)
    {
      assert ips[..i + 1][..i] == ips[..i];
      if ips[i] == None { continue; }
      answers := answers + [RR(name, t, ttl, Address(ips[i].value))];
    }
    assert ips[..|ips|] == ips;
  }

  lemma {:induction false} AddressRecordsRenamed(ips: seq<Ip>, name: string, other: string, t: RRType, ttl: nat)
    ensures AddressRecords(ips, other, t, ttl) == Renamed(AddressRecords(ips, name, t, ttl), other)
  {
    if ips != [] { AddressRecordsRenamed(ips[..|ips| - 1], name, other, t, ttl); }
  }

  // ----- Text strings -----

  function Concat(parts: seq<string>): (s: string) {
    if parts == [] then "" else Concat(parts[..|parts| - 1]) + parts[|parts| - 1]
  }

  /** The text in pieces of 255; the last piece is whatever is left, possibly nothing. */
  function Split255(s: string): (parts: seq<string>)
    ensures |parts| == |s| / 255 + 1
  {
    seq(|s| / 255 + 1, k requires 0 <= k <= |s| / 255 => if 255 * k + 255 <= |s| then s[255 * k..255 * k + 255] else s[255 * k..])
  }

  /** dns_types.go:384. */
  method SplitText(s: string) returns (sx: seq<string>)
    ensures sx == Split255(s)
  {
    if |s| < 255 { return [s]; }
    sx := [];
    var p, i := 0, 255;
    while true
      invariant p == 255 * |sx| && i == p + 255 && p <= |s|
      invariant |sx| <= |s| / 255 && sx == Split255(s)[..|sx|]
      decreases |s| - p
    {
      if i <= |s| {
        sx := sx + [s[p..i]];
      } else {
        sx := sx + [s[p..]];
        break;
      }
      p, i := p + 255, i + 255;
    }
  }

  /** No character is lost or moved, every piece but the last is full, and the last is not. */
  lemma {:induction false} SplitTextRoundTrip(s: string)
    ensures Concat(Split255(s)) == s
    ensures var parts := Split255(s);
            && (forall k :: 0 <= k < |parts| - 1 ==> |parts[k]| == 255)
            && |parts[|parts| - 1]| < 255
  {
    var parts := Split255(s);
    ConcatPieces(s, |parts| - 1);
    assert parts[..|parts| - 1] + [parts[|parts| - 1]] == parts;
    var p := 255 * (|s| / 255);
    assert s[..p] + s[p..] == s;
  }

  lemma {:induction false} ConcatPieces(s: string, n: nat)
    requires n <= |s| / 255
    ensures Concat(Split255(s)[..n]) == s[..255 * n]
  {
    if n > 0 {
      ConcatPieces(s, n - 1);
      var parts := Split255(s);
      assert parts[..n][..n - 1] == parts[..n - 1];
      assert s[..255 * n] == s[..255 * (n - 1)] + s[255 * (n - 1)..255 * n];
    }
  }
}
