/** The masks that address filters rewrite in place (internal/types/dns_types.go:9-13). */
module Masks {
  datatype Mask = White | Grey | Black

  /** The indices a mask leaves white, in order. */
  function Whites(mask: seq<Mask>): (w: seq<nat>)
    ensures forall i :: i in w <==> 0 <= i < |mask| && mask[i].White?
    ensures forall i, j :: 0 <= i < j < |w| ==> w[i] < w[j]
  {
    if mask == [] then []
    else
      var n := |mask| - 1;
      var w := Whites(mask[..n]);
      assert forall i :: i in w ==> i < n;
      assert forall i :: 0 <= i < |w| ==> w[i] in w;
      if mask[n].White? then w + [n] else w
  }

  ghost predicate SomeWhite(mask: seq<Mask>) {
    exists i :: 0 <= i < |mask| && mask[i].White?
  }

  lemma {:induction false} WhitesOfPrefix(mask: seq<Mask>, n: nat)
    requires n <= |mask|
    ensures Whites(mask[..n]) <= Whites(mask)
    decreases |mask|
  {
    if n == |mask| {
      assert mask[..n] == mask;
    } else {
      WhitesOfPrefix(mask[..|mask| - 1], n);
      assert mask[..|mask| - 1][..n] == mask[..n];
    }
  }

  /** How many entries before `i` are white. */
  function Rank(mask: seq<Mask>, i: nat): (n: nat)
    requires i <= |mask|
  {
    |Whites(mask[..i])|
  }

  /** Scanning one more entry finds the next white index, or no white index. */
  lemma {:induction false} RankNext(mask: seq<Mask>, i: nat)
    requires i < |mask|
    ensures if mask[i].White? then
              Rank(mask, i) < |Whites(mask)| && Whites(mask)[Rank(mask, i)] == i && Rank(mask, i + 1) == Rank(mask, i) + 1
            else
              Rank(mask, i + 1) == Rank(mask, i)
  {
    assert mask[..i + 1][..i] == mask[..i];
    assert Whites(mask[..i + 1]) == Whites(mask[..i]) + if mask[i].White? then [i] else [];
    WhitesOfPrefix(mask, i + 1);
    var p := Rank(mask, i);
    assert mask[i].White? ==> Whites(mask[..i + 1])[p] == i;
  }

  lemma {:induction false} RankEnds(mask: seq<Mask>)
    ensures Rank(mask, 0) == 0 && Rank(mask, |mask|) == |Whites(mask)|
  {
    assert mask[..|mask|] == mask;
  }

  lemma {:induction false} RankOfWhite(mask: seq<Mask>, p: nat)
    requires p < |Whites(mask)|
    ensures var i := Whites(mask)[p]; i < |mask| && mask[i].White? && Rank(mask, i) == p
  {
    var w := Whites(mask);
    var i := w[p];
    assert i in w;
    RankNext(mask, i);
    var q := Rank(mask, i);
    assert w[q] == w[p];
  }
}
