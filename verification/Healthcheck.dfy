/** internal/healthcheck/healthcheck.go: the saturating status counter and the address filter that reads it. */
module Healthcheck {
  import opened Masks

  // ----- The counter -----

  /** The length of the run of `result` that ends the history. */
  function Trailing(history: seq<bool>, result: bool): (n: nat) {
    if history == [] || history[|history| - 1] != result then 0
    else 1 + Trailing(history[..|history| - 1], result)
  }

  /** The status a history of checks leaves behind, said without counting step by step. */
  function StatusAfter(history: seq<bool>, upCount: int, downCount: int): (n: int) {
    var up: int, down: int := Trailing(history, true), Trailing(history, false);
    if up > 0 then (if up < upCount then up else upCount)
    else if -down > downCount then -down else downCount
  }

  /** The part of `HealthCheckItem` a check updates; `history` lists its results so far. */
  class HealthCheckItem {
    const upCount: int
    const downCount: int
    var status: int
    ghost var history: seq<bool>

    /** `Transfer` stores an item with status 0 when the configuration is new (healthcheck.go:366). */
    constructor (upCount: int, downCount: int)
      requires upCount >= 1 && downCount <= -1
      ensures Valid() && history == [] && status == 0
      ensures this.upCount == upCount && this.downCount == downCount
    {
      this.upCount, this.downCount := upCount, downCount;
      status, history := 0, [];
    }

    ghost predicate Valid()
      reads this
    {
      && upCount >= 1 && downCount <= -1
      && status == StatusAfter(history, upCount, downCount)
    }

    /** healthcheck.go:269. */
    method StatusDown()
      requires Valid()
      modifies this
      ensures Valid() && history == old(history) + [false]
    {
      OneTrailing(history);
      if status <= 0 {
        status := status - 1;
        if status < downCount { status := downCount; }
      } else {
        status := -1;
      }
      history := history + [false];
      assert history[..|history| - 1] == old(history);
    }

    /** healthcheck.go:280. */
    method StatusUp()
      requires Valid()
      modifies this
      ensures Valid() && history == old(history) + [true]
    {
      OneTrailing(history);
      if status >= 0 {
        status := status + 1;
        if status > upCount { status := upCount; }
      } else {
        status := 1;
      }
      history := history + [true];
      assert history[..|history| - 1] == old(history);
    }
  }

  lemma {:induction false} TrailingRun(history: seq<bool>, result: bool, k: nat)
    ensures k <= Trailing(history, result) <==>
              k <= |history| && forall i :: |history| - k <= i < |history| ==> history[i] == result
    decreases |history|
  {
    if k > 0 && history != [] {
      var n := |history| - 1;
      TrailingRun(history[..n], result, k - 1);
    }
  }

  lemma {:induction false} OneTrailing(history: seq<bool>)
    ensures Trailing(history, true) == 0 || Trailing(history, false) == 0
    ensures history != [] ==> Trailing(history, true) + Trailing(history, false) > 0
  {
  }

  /**
   What each status says of the history: it is at least `k` exactly when the last `k` checks passed,
   at most `-k` exactly when the last `k` failed, within its bounds, and 0 only at the start. So it
   is UpCount exactly when the last UpCount checks passed.
   */
  lemma {:induction false} StatusMeaning(history: seq<bool>, upCount: int, downCount: int)
    requires upCount >= 1 && downCount <= -1
    ensures var s := StatusAfter(history, upCount, downCount);
            && downCount <= s <= upCount
            && (s == 0 <==> history == [])
            && (forall k :: 1 <= k <= upCount ==>
                  (s >= k <==> LastChecks(history, k, true)))
            && (forall k :: 1 <= k <= -downCount ==>
                  (s <= -k <==> LastChecks(history, k, false)))
            && (s == upCount <==> LastChecks(history, upCount, true))
            && (s == downCount <==> LastChecks(history, -downCount, false))
  {
    OneTrailing(history);
    forall k | 1 <= k <= upCount ensures StatusAfter(history, upCount, downCount) >= k <==> LastChecks(history, k, true) {
      TrailingRun(history, true, k);
    }
    forall k | 1 <= k <= -downCount
      ensures StatusAfter(history, upCount, downCount) <= -k <==> LastChecks(history, k, false)
    {
      TrailingRun(history, false, k);
    }
    hide Trailing;
  }

  /** The history ends in `k` checks with this result. */
  predicate LastChecks(history: seq<bool>, k: int, result: bool) {
    0 <= k <= |history| && forall i :: |history| - k <= i < |history| ==> history[i] == result
  }

  // ----- The filter -----

  function Max(a: int, b: int): (n: int) { if a < b then b else a }

  /** The largest of `floor` and the statuses of the first `n` addresses left white. */
  function Best(mask: seq<Mask>, status: seq<int>, floor: int, n: nat): (b: int)
    requires n <= |mask| == |status|
    ensures b >= floor && forall i :: 0 <= i < n && mask[i].White? ==> status[i] <= b
    ensures b == floor || exists i :: 0 <= i < n && mask[i].White? && status[i] == b
  {
    if n == 0 then floor
    else
      var b := Best(mask, status, floor, n - 1);
      if mask[n - 1].White? then Max(b, status[n - 1]) else b
  }

  /** The status an address must reach to survive. */
  function Threshold(mask: seq<Mask>, status: seq<int>, upCount: int, downCount: int): (n: int)
    requires |mask| == |status|
  {
    var best := Best(mask, status, downCount, |mask|);
    if downCount < best < upCount - 1 then downCount + 1 else best
  }

  /** healthcheck.go:291. `status` is one snapshot of what `GetHealthStatus` returns. */
  method FilterHealthcheck(enable: bool, status: seq<int>, upCount: int, downCount: int, mask: array<Mask>)
    requires |status| == mask.Length
    modifies mask
    ensures !enable ==> mask[..] == old(mask[..])
    ensures enable ==> forall i :: 0 <= i < mask.Length ==>
              mask[i] == if old(mask[i]).White? && status[i] >= Threshold(old(mask[..]), status, upCount, downCount)
                         then White else Black
  {
    if !enable { return; }
    var min := downCount;
    for i := 0 to mask.Length
      invariant min == Best(mask[..], status, downCount, i)
      invariant mask[..] == old(mask[..])
    {
      if mask[i].White? {
        if status[i] > min { min := status[i]; }
      }
    }
    if min < upCount - 1 && min > downCount { min := downCount + 1; }
    for i := 0 to mask.Length
      invariant forall k :: i <= k < mask.Length ==> mask[k] == old(mask[k])
      invariant forall k :: 0 <= k < i ==> mask[k] == if old(mask[k]).White? && status[k] >= min then White else Black
    {
      if mask[i].White? {
        if status[i] < min { mask[i] := Black; }
      } else {
        mask[i] := Black;
      }
    }
  }

  ghost predicate Survives(mask: seq<Mask>, status: seq<int>, upCount: int, downCount: int, i: nat)
    requires |mask| == |status| && i < |mask|
  {
    mask[i].White? && status[i] >= Threshold(mask, status, upCount, downCount)
  }

  /**
   The filter leaves an address exactly when some white address has a status no lower than
   DownCount, which the counter guarantees of every address.
   */
  lemma {:induction false} NeverEmptiesIff(mask: seq<Mask>, status: seq<int>, upCount: int, downCount: int)
    requires |mask| == |status|
    ensures (exists i :: 0 <= i < |mask| && Survives(mask, status, upCount, downCount, i)) <==>
              exists i :: 0 <= i < |mask| && mask[i].White? && status[i] >= downCount
  {
    var best := Best(mask, status, downCount, |mask|);
    if i :| 0 <= i < |mask| && mask[i].White? && status[i] >= downCount {
      var j := if best == downCount then i else
                 var k :| 0 <= k < |mask| && mask[k].White? && status[k] == best; k;
      assert Survives(mask, status, upCount, downCount, j);
    }
  }

  /** A status below DownCount, which no counter holds, removes the only address there is. */
  lemma {:induction false} StatusBelowDownCountEmpties()
    ensures var mask, status := [White], [-2];
            SomeWhite(mask) && !Survives(mask, status, 1, -1, 0)
  {
    var mask, status := [White], [-2];
    assert mask[0].White?;
    assert Best(mask, status, -1, 0) == -1 && Best(mask, status, -1, 1) == -1;
  }

  ghost predicate IsBest(mask: seq<Mask>, status: seq<int>, i: nat)
    requires |mask| == |status| && i < |mask|
  {
    mask[i].White? && forall k :: 0 <= k < |mask| && mask[k].White? ==> status[k] <= status[i]
  }

  /**
   Who survives, when every status is at least DownCount: exactly the best addresses when the best is
   within one check of fully up or none is above fully down, else everything above fully down.
   */
  lemma {:induction false} Survivors(mask: seq<Mask>, status: seq<int>, upCount: int, downCount: int, i: nat)
    requires |mask| == |status| && i < |mask| && mask[i].White?
    requires forall k :: 0 <= k < |mask| && mask[k].White? ==> status[k] >= downCount
    ensures forall b :: 0 <= b < |mask| && IsBest(mask, status, b) ==>
              (Survives(mask, status, upCount, downCount, i) <==>
                if status[b] >= upCount - 1 || status[b] == downCount then IsBest(mask, status, i)
                else status[i] > downCount)
  {
    forall b | 0 <= b < |mask| && IsBest(mask, status, b)
      ensures Best(mask, status, downCount, |mask|) == status[b]
    {
    }
  }

  /** What a counter counts up to and down to. */
  datatype Counts = Counts(up: int, down: int)

  predicate ValidCounts(c: Counts) { c.up >= 1 && c.down <= -1 }

  /** One status for each address, from its own counts and history. */
  function Statuses(counts: seq<Counts>, histories: seq<seq<bool>>): (status: seq<int>)
    requires |counts| == |histories|
    ensures |status| == |counts|
  {
    seq(|counts|, i requires 0 <= i < |counts| => StatusAfter(histories[i], counts[i].up, counts[i].down))
  }

  ghost predicate SomeSurvives(mask: seq<Mask>, status: seq<int>, upCount: int, downCount: int)
    requires |mask| == |status|
  {
    exists i :: 0 <= i < |mask| && Survives(mask, status, upCount, downCount, i)
  }

  /** Whatever the checks have shown, some address survives. */
  ghost predicate NeverEmpties(mask: seq<Mask>, counts: seq<Counts>, upCount: int, downCount: int)
    requires |mask| == |counts|
  {
    forall histories: seq<seq<bool>> | |histories| == |counts| ::
      SomeSurvives(mask, Statuses(counts, histories), upCount, downCount)
  }

  /**
   An item keeps the counts it was made with until `Transfer` replaces it, so they may differ from
   those the filter reads with the set. Counter and filter together: some address survives
   whatever the histories, exactly when a white address counts down no further than the filter's
   own floor.
   */
  lemma {:induction false} CountersNeverEmptyIff(mask: seq<Mask>, counts: seq<Counts>, upCount: int, downCount: int)
    requires |mask| == |counts| && forall i :: 0 <= i < |counts| ==> ValidCounts(counts[i])
    ensures NeverEmpties(mask, counts, upCount, downCount) <==>
              exists i :: 0 <= i < |mask| && mask[i].White? && counts[i].down >= downCount
  {
    if i :| 0 <= i < |mask| && mask[i].White? && counts[i].down >= downCount {
      forall histories: seq<seq<bool>> | |histories| == |counts|
        ensures SomeSurvives(mask, Statuses(counts, histories), upCount, downCount)
      {
        StatusMeaning(histories[i], counts[i].up, counts[i].down);
        assert Statuses(counts, histories)[i] >= downCount;
        NeverEmptiesIff(mask, Statuses(counts, histories), upCount, downCount);
      }
    } else {
      var histories := AllFailed(counts);
      var status := Statuses(counts, histories);
      forall i | 0 <= i < |mask| ensures status[i] == counts[i].down {
        StatusMeaning(histories[i], counts[i].up, counts[i].down);
      }
      NeverEmptiesIff(mask, status, upCount, downCount);
      assert !SomeSurvives(mask, status, upCount, downCount);
    }
  }

  /** Every check failed, often enough to count all the way down. */
  function AllFailed(counts: seq<Counts>): (histories: seq<seq<bool>>)
    requires forall i :: 0 <= i < |counts| ==> ValidCounts(counts[i])
    ensures |histories| == |counts|
  {
    seq(|counts|, i requires 0 <= i < |counts| && ValidCounts(counts[i]) => seq(-counts[i].down, _ => false))
  }

  /** With the counts of the set itself a nonempty white set is never emptied. */
  lemma {:induction false} CountersKeepSomeAddress(mask: seq<Mask>, histories: seq<seq<bool>>, upCount: int, downCount: int)
    requires |mask| == |histories| && SomeWhite(mask) && ValidCounts(Counts(upCount, downCount))
    ensures SomeSurvives(mask, Statuses(seq(|mask|, _ => Counts(upCount, downCount)), histories), upCount, downCount)
  {
    var counts := seq(|mask|, _ => Counts(upCount, downCount));
    var i :| 0 <= i < |mask| && mask[i].White?;
    assert counts[i].down >= downCount;
    CountersNeverEmptyIff(mask, counts, upCount, downCount);
  }
}
