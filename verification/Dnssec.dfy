/**
 `SplitSets` (internal/types/dns_types.go:359) and internal/dnssec/dnssec.go: records grouped
 into sets and signed set by set. Iterating over a Go map is modelled by an arbitrary choice
 of the next key; the signature is an uninterpreted function of the set.
 */
module Dnssec {
  import opened Records
  import opened Selections

  datatype RRSetKey = RRSetKey(qname: string, qtype: RRType)

  function KeyOf(r: RR): (res: RRSetKey) { RRSetKey(r.name, r.rrtype) }

  predicate Grouped(r: RR) { r.rrtype != TYPE_RRSIG && r.rrtype != TYPE_OPT }

  /** The records that are grouped at all. */
  function Signable(rrs: seq<RR>): (records: seq<RR>) {
    if rrs == [] then []
    else
      var n := |rrs| - 1;
      Signable(rrs[..n]) + if Grouped(rrs[n]) then [rrs[n]] else []
  }

  /** The records with one key, in the order they came. */
  function Group(rrs: seq<RR>, k: RRSetKey): (records: seq<RR>) {
    if rrs == [] then []
    else
      var n := |rrs| - 1;
      Group(rrs[..n], k) + if KeyOf(rrs[n]) == k then [rrs[n]] else []
  }

  function KeysOf(rrs: seq<RR>): (res: set<RRSetKey>) {
    set r | r in rrs && Grouped(r) :: KeyOf(r)
  }

  lemma {:induction false} GroupMembers(rrs: seq<RR>, k: RRSetKey)
    ensures forall r :: r in Group(rrs, k) <==> r in rrs && KeyOf(r) == k
  {
    if rrs != [] {
      var n := |rrs| - 1;
      GroupMembers(rrs[..n], k);
      assert rrs == rrs[..n] + [rrs[n]];
    }
  }

  ghost predicate IsSplit(m: map<RRSetKey, seq<RR>>, rrs: seq<RR>) {
    && m.Keys == KeysOf(rrs)
    && forall k :: k in m ==> m[k] == Group(rrs, k)
  }

  method SplitSets(rrs: seq<RR>) returns (m: map<RRSetKey, seq<RR>>)
    ensures IsSplit(m, rrs)
  {
    m := map[];
    for i := 0 to |rrs|
      invariant IsSplit(m, rrs[..i])
    {
      var r := rrs[i];
      assert rrs[..i + 1] == rrs[..i] + [r];
      SplitNext(m, rrs[..i], r);
      hide IsSplit;
      if r.rrtype == TYPE_RRSIG || r.rrtype == TYPE_OPT { continue; }
      if KeyOf(r) in m {
        m := m[KeyOf(r) := m[KeyOf(r)] + [r]];
      } else {
        m := m[KeyOf(r) := [r]];
      }
    }
    assert rrs[..|rrs|] == rrs;
  }

  /** How one more record changes the groups. */
  lemma {:induction false} SplitNext(m: map<RRSetKey, seq<RR>>, before: seq<RR>, r: RR)
    requires IsSplit(m, before)
    ensures !Grouped(r) ==> IsSplit(m, before + [r])
    ensures Grouped(r) && KeyOf(r) in m ==> IsSplit(m[KeyOf(r) := m[KeyOf(r)] + [r]], before + [r])
    ensures Grouped(r) && KeyOf(r) !in m ==> IsSplit(m[KeyOf(r) := [r]], before + [r])
  {
    hide Group, KeysOf;
    KeysNext(before, r);
    forall k ensures Group(before + [r], k) == if KeyOf(r) == k then Group(before, k) + [r] else Group(before, k) {
      GroupNext(before, r, k);
    }
    if Grouped(r) { GroupsNonempty(before, KeyOf(r)); } else { UngroupedHasNoKey(before, r); }
  }

  lemma {:induction false} KeysNext(before: seq<RR>, r: RR)
    ensures KeysOf(before + [r]) == if Grouped(r) then KeysOf(before) + {KeyOf(r)} else KeysOf(before)
  {
    assert forall q :: q in before + [r] <==> q in before || q == r;
  }

  lemma {:induction false} GroupNext(before: seq<RR>, r: RR, k: RRSetKey)
    ensures Group(before + [r], k) == if KeyOf(r) == k then Group(before, k) + [r] else Group(before, k)
  {
    assert (before + [r])[..|before|] == before;
  }

  lemma {:induction false} UngroupedHasNoKey(rrs: seq<RR>, r: RR)
    requires !Grouped(r)
    ensures KeyOf(r) !in KeysOf(rrs)
  {
  }

  /** A key has a nonempty group exactly when it is one of the keys. */
  lemma {:induction false} GroupsNonempty(rrs: seq<RR>, k: RRSetKey)
    requires k.qtype != TYPE_RRSIG && k.qtype != TYPE_OPT
    ensures k in KeysOf(rrs) <==> Group(rrs, k) != []
  {
    GroupMembers(rrs, k);
    var g := Group(rrs, k);
    assert forall i :: 0 <= i < |g| ==> g[i] in g && g[i] in rrs && KeyOf(g[i]) == k && Grouped(g[i]);
    if k in KeysOf(rrs) {
      var r :| r in rrs && Grouped(r) && KeyOf(r) == k;
      assert r in g;
    }
    if g != [] {
      assert g[0] in rrs && Grouped(g[0]) && KeyOf(g[0]) == k;
    }
  }

  // ----- Signing -----

  /** The zone's part in signing: its name, the signature over its keys, and the zone-signing key. */
  datatype Signer = Signer(zone: string, dnsKeySig: RR, sign: (seq<RR>, RRSetKey) -> RR)

  /** Every signature is an RRSIG record. */
  ghost predicate ValidSigner(z: Signer) {
    z.dnsKeySig.rrtype == TYPE_RRSIG && forall rrset, k :: z.sign(rrset, k).rrtype == TYPE_RRSIG
  }

  /** Delegation NS sets are not signed: only a query for the apex signs an NS set. */
  predicate IsSigned(k: RRSetKey, qname: string, z: Signer) {
    k.qtype != TYPE_NS || qname == z.zone
  }

  function SignatureOf(rrset: seq<RR>, k: RRSetKey, z: Signer): (sig: RR) {
    if k.qtype == TYPE_DNSKEY then z.dnsKeySig else z.sign(rrset, k)
  }

  /** One set as it appears in the response: its records, then its signature if it has one. */
  function Block(rrs: seq<RR>, k: RRSetKey, qname: string, z: Signer): (records: seq<RR>) {
    Group(rrs, k) + if IsSigned(k, qname, z) then [SignatureOf(Group(rrs, k), k, z)] else []
  }

  function Blocks(rrs: seq<RR>, order: seq<RRSetKey>, qname: string, z: Signer): (records: seq<RR>) {
    if order == [] then []
    else Blocks(rrs, order[..|order| - 1], qname, z) + Block(rrs, order[|order| - 1], qname, z)
  }

  /** `order` lists the keys of the records, each once. */
  ghost predicate OrderOf(order: seq<RRSetKey>, keys: set<RRSetKey>) {
    && (forall k :: k in order <==> k in keys)
    && (forall i, j :: 0 <= i < j < |order| ==> order[i] != order[j])
  }

  /** The response consists of the blocks of the sets, in some order. */
  ghost predicate SignedForm(out: seq<RR>, rrs: seq<RR>, qname: string, z: Signer) {
    exists order :: OrderOf(order, KeysOf(rrs)) && out == Blocks(rrs, order, qname, z)
  }

  /** dnssec.go:33-46: one set and its signature. */
  method AppendBlock(ghost rrs: seq<RR>, soFar: seq<RR>, rrset: seq<RR>, k: RRSetKey, qname: string, z: Signer)
    returns (res: seq<RR>)
    requires k in KeysOf(rrs) && rrset == Group(rrs, k)
    ensures res == soFar + Block(rrs, k, qname, z)
  {
    KeyOfGroup(rrs, k);
    hide Group, KeysOf;
    res := soFar + rrset;
    var rrtype := rrset[0].rrtype;
    if rrtype == TYPE_RRSIG || rrtype == TYPE_OPT {
      assert false;
    } else if rrtype == TYPE_DNSKEY {
      res := res + [z.dnsKeySig];
    } else if rrtype == TYPE_NS {
      if qname == z.zone {
        res := res + [z.sign(rrset, k)];
      }
    } else {
      res := res + [z.sign(rrset, k)];
    }
  }

  /** dnssec.go:29. */
  method SignResponse(rrs: seq<RR>, qname: string, z: Signer) returns (res: seq<RR>)
    ensures SignedForm(res, rrs, qname, z)
  {
    res := [];
    var sets := SplitSets(rrs);
    var left := sets.Keys;
    ghost var order: seq<RRSetKey> := [];
    assert OrderOf(order, sets.Keys - left) && Blocks(rrs, order, qname, z) == [];
    assert sets.Keys == KeysOf(rrs);
    assert forall k :: k in sets ==> sets[k] == Group(rrs, k);
    hide Group, KeysOf, Block, Blocks, OrderOf, IsSplit;
    while left != {}
      invariant left <= sets.Keys
      invariant OrderOf(order, sets.Keys - left)
      invariant res == Blocks(rrs, order, qname, z)
      decreases left
    {
      var k :| k in left;
      var rrset := sets[k];
      BlocksNext(rrs, order, k, qname, z);
      OrderNext(order, sets.Keys, left, k);
      left := left - {k};
      res := AppendBlock(rrs, res, rrset, k, qname, z);
      order := order + [k];
    }
    assert sets.Keys - left == sets.Keys;
  }

  lemma {:induction false} KeyOfGroup(rrs: seq<RR>, k: RRSetKey)
    requires k in KeysOf(rrs)
    ensures var g := Group(rrs, k); g != [] && KeyOf(g[0]) == k && Grouped(g[0])
  {
    GroupsNonempty(rrs, k);
    GroupMembers(rrs, k);
    assert Group(rrs, k)[0] in Group(rrs, k);
  }

  lemma {:induction false} BlocksNext(rrs: seq<RR>, order: seq<RRSetKey>, k: RRSetKey, qname: string, z: Signer)
    ensures Blocks(rrs, order + [k], qname, z) == Blocks(rrs, order, qname, z) + Block(rrs, k, qname, z)
  {
    assert (order + [k])[..|order|] == order;
  }

  lemma {:induction false} OrderNext(order: seq<RRSetKey>, keys: set<RRSetKey>, left: set<RRSetKey>, k: RRSetKey)
    requires OrderOf(order, keys - left) && left <= keys && k in left
    ensures OrderOf(order + [k], keys - (left - {k}))
  {
  }

  /** dnssec.go:19. */
  method FilterNsecBitmap(qtype: RRType, bitmap: seq<RRType>) returns (res: seq<RRType>)
    ensures res == Without(bitmap, qtype)
  {
    res := [];
    for i := 0 to |bitmap|
      invariant res == Without(bitmap[..i], qtype)
    {
      assert bitmap[..i + 1][..i] == bitmap[..i];
      if bitmap[i] != qtype { res := res + [bitmap[i]]; }
    }
    assert bitmap[..|bitmap|] == bitmap;
  }

  function Without(bitmap: seq<RRType>, qtype: RRType): (r: seq<RRType>)
    ensures forall t :: t in r <==> t in bitmap && t != qtype
  {
    if bitmap == [] then []
    else
      var n := |bitmap| - 1;
      Without(bitmap[..n], qtype) + if bitmap[n] != qtype then [bitmap[n]] else []
  }

  // ----- What signing conserves -----

  lemma {:induction false} SignableNext(s: seq<RR>, r: RR)
    ensures Signable(s + [r]) == Signable(s) + if Grouped(r) then [r] else []
  {
    assert (s + [r])[..|s|] == s;
  }

  lemma {:induction false} NothingSignable()
    ensures Signable([]) == []
  {
  }

  lemma {:induction false} SignableConcat(a: seq<RR>, b: seq<RR>)
    ensures Signable(a + b) == Signable(a) + Signable(b)
  {
    hide Signable;
    if b == [] {
      NothingSignable();
      assert a + b == a;
    } else {
      var n := |b| - 1;
      var init, r := b[..n], b[n];
      SignableConcat(a, init);
      assert b == init + [r] && a + b == (a + init) + [r];
      SignableNext(init, r);
      SignableNext(a + init, r);
    }
  }

  /** How often a record occurs among the grouped ones, and in the group of a key. */
  lemma {:induction false} Occurrences(rrs: seq<RR>, k: RRSetKey, r: RR)
    ensures multiset(Signable(rrs))[r] == if Grouped(r) then multiset(rrs)[r] else 0
    ensures multiset(Group(rrs, k))[r] == if KeyOf(r) == k then multiset(rrs)[r] else 0
  {
    if rrs != [] {
      var n := |rrs| - 1;
      var init, x := rrs[..n], rrs[n];
      assert rrs == init + [x];
      Occurrences(init, k, r);
      SignableNext(init, x);
      GroupNext(init, x, k);
      hide Signable, Group;
      CountConcat(init, [x], r);
      CountConcat(Signable(init), [x], r);
      CountConcat(Group(init, k), [x], r);
    }
  }

  lemma {:induction false} BlockOccurrences(rrs: seq<RR>, k: RRSetKey, qname: string, z: Signer, r: RR)
    requires ValidSigner(z)
    ensures multiset(Signable(Block(rrs, k, qname, z)))[r]
              == if KeyOf(r) == k && Grouped(r) then multiset(rrs)[r] else 0
  {
    var g := Group(rrs, k);
    var tail := if IsSigned(k, qname, z) then [SignatureOf(g, k, z)] else [];
    SignableConcat(g, tail);
    assert Signable(tail) == [];
    assert Signable(g) + [] == Signable(g);
    Occurrences(rrs, k, r);
    Occurrences(g, k, r);
  }

  lemma {:induction false} BlocksOccurrences(rrs: seq<RR>, order: seq<RRSetKey>, qname: string, z: Signer, r: RR)
    requires ValidSigner(z) && forall i, j :: 0 <= i < j < |order| ==> order[i] != order[j]
    ensures multiset(Signable(Blocks(rrs, order, qname, z)))[r]
              == if KeyOf(r) in order && Grouped(r) then multiset(rrs)[r] else 0
  {
    if order != [] {
      var n := |order| - 1;
      var init, k := order[..n], order[n];
      assert order == init + [k] && forall i :: 0 <= i < |init| ==> init[i] == order[i];
      BlocksNext(rrs, init, k, qname, z);
      hide Blocks, Block, Signable, Group;
      BlocksOccurrences(rrs, init, qname, z, r);
      BlockOccurrences(rrs, k, qname, z, r);
      SignableConcat(Blocks(rrs, init, qname, z), Block(rrs, k, qname, z));
      CountConcat(Signable(Blocks(rrs, init, qname, z)), Signable(Block(rrs, k, qname, z)), r);
    }
  }

  lemma {:induction false} CountConcat(a: seq<RR>, b: seq<RR>, r: RR)
    ensures multiset(a + b)[r] == multiset(a)[r] + multiset(b)[r]
  {
  }

  lemma {:induction false} BlockMembers(rrs: seq<RR>, k: RRSetKey, qname: string, z: Signer, r: RR)
    requires ValidSigner(z) && k in KeysOf(rrs) && r in Block(rrs, k, qname, z)
    ensures r.rrtype == TYPE_RRSIG || (r in rrs && r.rrtype != TYPE_OPT)
  {
    GroupMembers(rrs, k);
    KeyOfGroup(rrs, k);
  }

  lemma {:induction false} BlocksMembers(rrs: seq<RR>, order: seq<RRSetKey>, qname: string, z: Signer, r: RR)
    requires ValidSigner(z) && (forall k :: k in order ==> k in KeysOf(rrs)) && r in Blocks(rrs, order, qname, z)
    ensures r.rrtype == TYPE_RRSIG || (r in rrs && r.rrtype != TYPE_OPT)
  {
    hide Block, KeysOf;
    var n := |order| - 1;
    if r in Block(rrs, order[n], qname, z) {
      BlockMembers(rrs, order[n], qname, z, r);
    } else {
      BlocksMembers(rrs, order[..n], qname, z, r);
    }
  }

  /**
   Signing loses, invents and repeats no record: apart from signatures the response is a
   permutation of its input, from which OPT records are dropped.
   */
  lemma {:induction false} SigningConservesRecords(out: seq<RR>, rrs: seq<RR>, qname: string, z: Signer)
    requires ValidSigner(z) && SignedForm(out, rrs, qname, z)
    ensures multiset(Signable(out)) == multiset(Signable(rrs))
    ensures forall r: RR :: r.rrtype != TYPE_RRSIG ==>
              multiset(out)[r] == if r.rrtype == TYPE_OPT then 0 else multiset(rrs)[r]
  {
    var order: seq<RRSetKey> :| OrderOf(order, KeysOf(rrs)) && out == Blocks(rrs, order, qname, z);
    forall r ensures multiset(Signable(out))[r] == multiset(Signable(rrs))[r] {
      BlocksOccurrences(rrs, order, qname, z, r);
      Occurrences(rrs, KeyOf(r), r);
    }
    forall r: RR | r.rrtype != TYPE_RRSIG
      ensures multiset(out)[r] == if r.rrtype == TYPE_OPT then 0 else multiset(rrs)[r]
    {
      Occurrences(out, KeyOf(r), r);
      Occurrences(rrs, KeyOf(r), r);
      hide Signable, Blocks, KeysOf, Group;
      if r in out { BlocksMembers(rrs, order, qname, z, r); }
    }
  }

  function SignatureCount(rrs: seq<RR>): (n: nat) {
    if rrs == [] then 0
    else SignatureCount(rrs[..|rrs| - 1]) + if rrs[|rrs| - 1].rrtype == TYPE_RRSIG then 1 else 0
  }

  lemma {:induction false} SignatureCountConcat(a: seq<RR>, b: seq<RR>)
    ensures SignatureCount(a + b) == SignatureCount(a) + SignatureCount(b)
  {
    if b == [] {
      assert a + b == a;
    } else {
      var n := |b| - 1;
      SignatureCountConcat(a, b[..n]);
      assert (a + b)[..|a| + n] == a + b[..n];
    }
  }

  lemma {:induction false} NoSignatures(rrs: seq<RR>)
    requires forall i :: 0 <= i < |rrs| ==> rrs[i].rrtype != TYPE_RRSIG
    ensures SignatureCount(rrs) == 0
  {
    if rrs != [] { NoSignatures(rrs[..|rrs| - 1]); }
  }

  lemma {:induction false} BlockSignatures(rrs: seq<RR>, k: RRSetKey, qname: string, z: Signer)
    requires ValidSigner(z) && k.qtype != TYPE_RRSIG
    ensures SignatureCount(Block(rrs, k, qname, z)) == if IsSigned(k, qname, z) then 1 else 0
  {
    var g := Group(rrs, k);
    GroupMembers(rrs, k);
    assert forall i :: 0 <= i < |g| ==> g[i] in g;
    NoSignatures(g);
    var tail := if IsSigned(k, qname, z) then [SignatureOf(g, k, z)] else [];
    SignatureCountConcat(g, tail);
    assert IsSigned(k, qname, z) ==> tail[..0] == [] && tail[0].rrtype == TYPE_RRSIG;
  }

  ghost function SignedKeys(order: seq<RRSetKey>, qname: string, z: Signer): (r: set<RRSetKey>) {
    set k | k in order && IsSigned(k, qname, z)
  }

  lemma {:induction false} BlocksSignatures(rrs: seq<RR>, order: seq<RRSetKey>, qname: string, z: Signer)
    requires ValidSigner(z) && forall i, j :: 0 <= i < j < |order| ==> order[i] != order[j]
    requires forall i :: 0 <= i < |order| ==> order[i].qtype != TYPE_RRSIG
    ensures SignatureCount(Blocks(rrs, order, qname, z)) == |SignedKeys(order, qname, z)|
  {
    if order == [] {
      assert SignedKeys(order, qname, z) == {};
    } else {
      var n := |order| - 1;
      var init, k := order[..n], order[n];
      assert order == init + [k] && k !in init;
      BlocksNext(rrs, init, k, qname, z);
      SignedKeysNext(init, k, qname, z);
      hide Blocks, Block, SignatureCount, Group, SignedKeys, IsSigned;
      BlocksSignatures(rrs, init, qname, z);
      BlockSignatures(rrs, k, qname, z);
      SignatureCountConcat(Blocks(rrs, init, qname, z), Block(rrs, k, qname, z));
    }
  }

  lemma {:induction false} SignedKeysNext(order: seq<RRSetKey>, k: RRSetKey, qname: string, z: Signer)
    requires k !in order
    ensures |SignedKeys(order + [k], qname, z)| == |SignedKeys(order, qname, z)| + if IsSigned(k, qname, z) then 1 else 0
  {
    assert SignedKeys(order + [k], qname, z) == SignedKeys(order, qname, z) + if IsSigned(k, qname, z) then {k} else {};
  }

  /** There is one signature per set, except that an NS set is signed only for a query at the apex. */
  lemma {:induction false} OneSignaturePerSet(out: seq<RR>, rrs: seq<RR>, qname: string, z: Signer)
    requires ValidSigner(z) && SignedForm(out, rrs, qname, z)
    ensures SignatureCount(out) == |set k | k in KeysOf(rrs) && (k.qtype != TYPE_NS || qname == z.zone)|
  {
    var order: seq<RRSetKey> :| OrderOf(order, KeysOf(rrs)) && out == Blocks(rrs, order, qname, z);
    forall i | 0 <= i < |order| ensures order[i].qtype != TYPE_RRSIG {
      assert order[i] in order;
      KeyOfGroup(rrs, order[i]);
    }
    BlocksSignatures(rrs, order, qname, z);
    assert SignedKeys(order, qname, z) == set k | k in KeysOf(rrs) && (k.qtype != TYPE_NS || qname == z.zone);
  }

  /** Where the block of a key stands; behind it the response ends or the next set begins. */
  lemma {:induction false} BlockWithin(rrs: seq<RR>, order: seq<RRSetKey>, qname: string, z: Signer, k: RRSetKey)
    returns (at: nat)
    requires k in order && forall l :: l in order ==> l in KeysOf(rrs)
    ensures var out, block := Blocks(rrs, order, qname, z), Block(rrs, k, qname, z);
            var end := at + |block|;
            && end <= |out| && out[at..end] == block
            && (end < |out| ==> out[end].rrtype != TYPE_RRSIG)
  {
    var n := |order| - 1;
    var init, last := order[..n], order[n];
    assert order == init + [last];
    BlocksNext(rrs, init, last, qname, z);
    BlockStart(rrs, last, qname, z);
    hide Blocks, Block, KeysOf;
    var before, tail := Blocks(rrs, init, qname, z), Block(rrs, last, qname, z);
    if last == k {
      at := |before|;
      SliceOfConcat(before, tail, |before|, |tail|);
    } else {
      at := BlockWithin(rrs, init, qname, z, k);
      SliceOfConcat(before, tail, at, |Block(rrs, k, qname, z)|);
    }
  }

  lemma {:induction false} BlockStart(rrs: seq<RR>, k: RRSetKey, qname: string, z: Signer)
    requires k in KeysOf(rrs)
    ensures var block := Block(rrs, k, qname, z); block != [] && block[0].rrtype != TYPE_RRSIG
  {
    KeyOfGroup(rrs, k);
    hide Group;
  }

  lemma {:induction false} SliceOfConcat(a: seq<RR>, b: seq<RR>, at: nat, n: nat)
    ensures at + n <= |a| ==> (a + b)[at..at + n] == a[at..at + n]
    ensures at == |a| && n == |b| ==> (a + b)[at..at + n] == b
  {
  }

  /** The records with one owner and type stand in their group in the order they came. */
  lemma {:induction false} GroupSelects(rrs: seq<RR>, k: RRSetKey) returns (kept: seq<nat>)
    ensures Selects(kept, OfSet(rrs, k)) && Picked(Group(rrs, k), rrs, kept)
  {
    if rrs == [] {
      SelectsNone();
      return [];
    }
    var n := |rrs| - 1;
    var init := rrs[..n];
    kept := GroupSelects(init, k);
    SelectsWithin(kept, OfSet(init, k));
    SelectsNext(kept, OfSet(init, k), OfSet(rrs, k)[n]);
    assert OfSet(rrs, k) == OfSet(init, k) + [OfSet(rrs, k)[n]];
    kept := Selected(kept, OfSet(rrs, k)[n], n);
    hide Selects;
  }

  /** Which records have the owner and the type of a set. */
  function OfSet(rrs: seq<RR>, k: RRSetKey): (keep: seq<bool>)
    ensures |keep| == |rrs|
  {
    seq(|rrs|, i requires 0 <= i < |rrs| => rrs[i].name == k.qname && rrs[i].rrtype == k.qtype)
  }

  /** `part` holds the records at the positions `kept`. */
  ghost predicate Picked(part: seq<RR>, rrs: seq<RR>, kept: seq<nat>) {
    |part| == |kept| && forall j :: 0 <= j < |kept| ==> kept[j] < |rrs| && part[j] == rrs[kept[j]]
  }

  /**
   What stands directly behind a set at `at..end`: for the keys the signature that comes with them;
   for an NS set, unless the query is at the apex, no signature; else that of the zone-signing key.
   */
  ghost predicate SignedBehind(out: seq<RR>, at: nat, end: nat, k: RRSetKey, qname: string, z: Signer)
    requires at <= end <= |out|
  {
    if k.qtype == TYPE_DNSKEY then end < |out| && out[end] == z.dnsKeySig
    else if k.qtype == TYPE_NS && qname != z.zone then end == |out| || out[end].rrtype != TYPE_RRSIG
    else end < |out| && out[end] == z.sign(out[at..end], k)
  }

  lemma {:induction false} BlockSigned(out: seq<RR>, at: nat, block: seq<RR>, g: seq<RR>, k: RRSetKey, qname: string, z: Signer)
    requires at + |block| <= |out| && out[at..at + |block|] == block
    requires at + |block| < |out| ==> out[at + |block|].rrtype != TYPE_RRSIG
    requires BlockOf(block, g, k, qname, z)
    ensures at + |g| <= |out| && out[at..at + |g|] == g && SignedBehind(out, at, at + |g|, k, qname, z)
  {
    SliceOfSlice(out, at, block, |g|);
  }

  /**
   How each set stands in a signed response, from the records alone: its records in one piece and in
   input order, and directly behind them its signature.
   */
  lemma {:induction false} SetsAreContiguous(out: seq<RR>, rrs: seq<RR>, qname: string, z: Signer, r: RR)
    returns (at: nat, kept: seq<nat>)
    requires SignedForm(out, rrs, qname, z) && r in rrs && r.rrtype != TYPE_RRSIG && r.rrtype != TYPE_OPT
    ensures var k, end := RRSetKey(r.name, r.rrtype), at + |kept|;
            && Selects(kept, OfSet(rrs, k))
            && end <= |out| && Picked(out[at..end], rrs, kept) && SignedBehind(out, at, end, k, qname, z)
  {
    var k := RRSetKey(r.name, r.rrtype);
    KeyOfRecord(rrs, r);
    hide Block, Blocks, Group, KeysOf, OrderOf, SignedForm, OfSet, Picked, Selects, SignedBehind, BlockOf;
    var order := OrderWith(out, rrs, qname, z, k);
    at := BlockWithin(rrs, order, qname, z, k);
    kept := GroupSelects(rrs, k);
    PickedLength(Group(rrs, k), rrs, kept);
    BlockShape(rrs, k, qname, z);
    BlockSigned(out, at, Block(rrs, k, qname, z), Group(rrs, k), k, qname, z);
  }

  lemma {:induction false} PickedLength(part: seq<RR>, rrs: seq<RR>, kept: seq<nat>)
    requires Picked(part, rrs, kept)
    ensures |part| == |kept|
  {
  }

  lemma {:induction false} KeyOfRecord(rrs: seq<RR>, r: RR)
    requires r in rrs && Grouped(r)
    ensures RRSetKey(r.name, r.rrtype) in KeysOf(rrs)
  {
    assert KeyOf(r) in KeysOf(rrs);
  }

  lemma {:induction false} OrderWith(out: seq<RR>, rrs: seq<RR>, qname: string, z: Signer, k: RRSetKey)
    returns (order: seq<RRSetKey>)
    requires SignedForm(out, rrs, qname, z) && k in KeysOf(rrs)
    ensures k in order && (forall l :: l in order ==> l in KeysOf(rrs)) && out == Blocks(rrs, order, qname, z)
  {
    hide Blocks, KeysOf;
    order :| OrderOf(order, KeysOf(rrs)) && out == Blocks(rrs, order, qname, z);
  }

  /** A set's records and, if it is signed, its signature. */
  ghost predicate BlockOf(block: seq<RR>, g: seq<RR>, k: RRSetKey, qname: string, z: Signer) {
    && |g| <= |block| && block[..|g|] == g
    && if k.qtype == TYPE_DNSKEY then |block| == |g| + 1 && block[|g|] == z.dnsKeySig
       else if k.qtype == TYPE_NS && qname != z.zone then |block| == |g|
       else |block| == |g| + 1 && block[|g|] == z.sign(g, k)
  }

  lemma {:induction false} BlockShape(rrs: seq<RR>, k: RRSetKey, qname: string, z: Signer)
    ensures BlockOf(Block(rrs, k, qname, z), Group(rrs, k), k, qname, z)
  {
    hide Group;
  }

  lemma {:induction false} SliceOfSlice(out: seq<RR>, at: nat, block: seq<RR>, n: nat)
    requires at + |block| <= |out| && out[at..at + |block|] == block && n <= |block|
    ensures out[at..at + n] == block[..n] && (n < |block| ==> out[at + n] == block[n])
  {
    assert out[at..at + n] == out[at..at + |block|][..n];
    assert forall i :: 0 <= i < |block| ==> out[at + i] == block[i];
  }
}
