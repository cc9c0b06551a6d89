/** Picking elements out of a sequence, said by their positions. */
module Selections {
  /** `kept` lists, going up, exactly the positions at which `keep` holds. */
  ghost predicate Selects(kept: seq<nat>, keep: seq<bool>) {
    && (forall i: nat :: i in kept <==> i < |keep| && keep[i])
    && (forall a, b :: 0 <= a < b < |kept| ==> kept[a] < kept[b])
  }

  function Selected(kept: seq<nat>, b: bool, n: nat): (next: seq<nat>) { if b then kept + [n] else kept }

  lemma {:induction false} SelectsNone()
    ensures Selects([], [])
  {
  }

  /** One more position, which is kept or not. */
  lemma {:induction false} SelectsNext(kept: seq<nat>, keep: seq<bool>, b: bool)
    requires Selects(kept, keep)
    ensures Selects(Selected(kept, b, |keep|), keep + [b])
  {
    var next := Selected(kept, b, |keep|);
    forall i: nat ensures i in next <==> i < |keep| + 1 && (keep + [b])[i] {
      assert i in next <==> i in kept || (b && i == |keep|);
    }
    forall c, d | 0 <= c < d < |next| ensures next[c] < next[d] {
      assert next[c] == kept[c] && kept[c] in kept;
    }
  }

  lemma {:induction false} SelectsWithin(kept: seq<nat>, keep: seq<bool>)
    requires Selects(kept, keep)
    ensures forall j :: 0 <= j < |kept| ==> kept[j] < |keep| && keep[kept[j]]
  {
    forall j | 0 <= j < |kept| ensures kept[j] < |keep| && keep[kept[j]] {
      assert kept[j] in kept;
    }
  }
}
