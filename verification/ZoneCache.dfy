/**
 The zone cache under interleaving (internal/storage/data_handler.go:96-104 and 209-242), for
 one zone: redis is written by others while callers check the cache, share one load between
 them, read the locations and then the configuration, and keep or lose the copy they built.
 */
module ZoneCache {
  import opened Wrappers

  /** What redis holds for the zone. */
  datatype Contents = Contents(locations: seq<string>, config: string)

  /** A cached zone. `started` is when the load that built it began; the program does not store it. */
  datatype Copy = Copy(locations: seq<string>, config: string, built: nat, timeout: int, started: nat)

  datatype Load =
    | Started(started: nat)
    | LocationsRead(started: nat, locations: seq<string>)
    | ConfigRead(started: nat, locations: seq<string>, config: string)
    | Failed(started: nat)

  datatype Call =
    | Checked(fallback: Option<Copy>)
    | Waiting(fallback: Option<Copy>)

  datatype Return = Return(result: Option<Copy>, at: nat, hit: bool, failed: bool, fallback: Option<Copy>)

  /**
   `versions` lists everything redis has held, the last being current, and `replaced[v]` is when
   version `v` was overwritten.
   */
  datatype State = State(
    now: nat,
    versions: seq<Contents>,
    replaced: seq<nat>,
    cached: Option<Copy>,
    load: Option<Load>,
    calls: map<nat, Call>,
    delivered: seq<Return>)

  datatype Step =
    | Tick
    | Write(contents: Contents)
    | Forget                    // an eviction, or the deletion a keyspace event causes
    | CallCheck(id: nat)        // GetZone looks in the cache
    | CallJoin(id: nat)         // and joins the load in flight, or starts one
    | ReadLocations(ok: bool)
    | ReadConfig(ok: bool)
    | Finish(kept: bool)        // the load ends; everyone waiting on it returns

  const EMPTY_CONFIG := ""

  function Init(now: nat, contents: Contents): (t: State) {
    State(now, [contents], [], None, None, map[], [])
  }

  predicate Enabled(s: State, step: Step) {
    match step
    case Tick => true
    case Write(_) => true
    case Forget => true
    case CallCheck(id) => id !in s.calls
    case CallJoin(id) => id in s.calls && s.calls[id].Checked?
    case ReadLocations(_) => s.load.Some? && s.load.value.Started?
    case ReadConfig(_) => s.load.Some? && s.load.value.LocationsRead?
    case Finish(_) => s.load.Some? && (s.load.value.ConfigRead? || s.load.value.Failed?)
  }

  function Current(s: State): (r: Contents)
    requires s.versions != []
  {
    s.versions[|s.versions| - 1]
  }

  /** The calls waiting on the load, each once, in the order they come back. */
  ghost predicate WaitingInOrder(s: State, order: seq<nat>) {
    && (forall id :: id in order <==> id in s.calls && s.calls[id].Waiting?)
    && (forall i, j :: 0 <= i < j < |order| ==> order[i] != order[j])
  }

  /** What one of them returns when the load ended with `answer`. */
  function Delivered(s: State, answer: Option<Copy>, id: nat): (r: Return)
    requires id in s.calls
  {
    var fallback := s.calls[id].fallback;
    Return(if answer.Some? then answer else fallback, s.now, false, answer.None?, fallback)
  }

  ghost predicate Next(timeout: nat, s: State, step: Step, t: State)
    requires s.versions != []
  {
    Enabled(s, step) &&
    match step
    case Tick => t == s.(now := s.now + 1)
    case Write(c) => t == s.(versions := s.versions + [c], replaced := s.replaced + [s.now])
    case Forget => t == s.(cached := None)
    case CallCheck(id) =>
      if s.cached.Some? && s.now <= s.cached.value.timeout then
        t == s.(delivered := s.delivered + [Return(s.cached, s.now, true, false, s.cached)])
      else
        t == s.(calls := s.calls[id := Checked(s.cached)])
    case CallJoin(id) =>
      t == s.(calls := s.calls[id := Waiting(s.calls[id].fallback)],
              load := if s.load.Some? then s.load else Some(Started(s.now)))
    case ReadLocations(ok) =>
      var started := s.load.value.started;
      t == s.(load := Some(if ok then LocationsRead(started, Current(s).locations) else Failed(started)))
    case ReadConfig(ok) =>
      var l := s.load.value;
      t == s.(load := Some(ConfigRead(l.started, l.locations, if ok then Current(s).config else EMPTY_CONFIG)))
    case Finish(kept) =>
      var l := s.load.value;
      var answer := if l.Failed? then None
                    else Some(Copy(l.locations, l.config, s.now, s.now + timeout, l.started));
      exists order: seq<nat> :: WaitingInOrder(s, order) &&
        t == s.(cached := if answer.Some? && kept then answer else s.cached,
                load := None,
                calls := map id | id in s.calls && s.calls[id].Checked? :: s.calls[id],
                delivered := s.delivered + seq(|order|, i requires 0 <= i < |order| && order[i] in s.calls =>
                Delivered(s, answer, order[i])))
  }

  // ----- Safety over every run -----

  /** Redis held version `v` at `t` or later. */
  predicate HeldSince(s: State, v: nat, t: nat) {
    v < |s.versions| && |s.replaced| == |s.versions| - 1 && (v < |s.replaced| ==> t <= s.replaced[v])
  }

  ghost predicate LocationsHeldSince(s: State, locations: seq<string>, t: nat) {
    exists v: nat :: HeldSince(s, v, t) && s.versions[v].locations == locations
  }

  ghost predicate ConfigHeldSince(s: State, config: string, t: nat) {
    config == EMPTY_CONFIG || exists v: nat :: HeldSince(s, v, t) && s.versions[v].config == config
  }

  /** Both parts of a copy were in redis at some moment since its load began. */
  ghost predicate Genuine(timeout: nat, s: State, c: Copy) {
    && c.started <= c.built <= s.now && c.timeout == c.built + timeout
    && LocationsHeldSince(s, c.locations, c.started)
    && ConfigHeldSince(s, c.config, c.started)
  }

  ghost predicate GenuineLoad(s: State, l: Load) {
    && l.started <= s.now
    && (l.LocationsRead? || l.ConfigRead? ==> LocationsHeldSince(s, l.locations, l.started))
    && (l.ConfigRead? ==> ConfigHeldSince(s, l.config, l.started))
  }

  ghost predicate GenuineOption(timeout: nat, s: State, c: Option<Copy>) {
    c.Some? ==> Genuine(timeout, s, c.value)
  }

  /** What a caller may rely on. */
  ghost predicate GoodReturn(timeout: nat, s: State, r: Return) {
    && r.at <= s.now
    && GenuineOption(timeout, s, r.result) && GenuineOption(timeout, s, r.fallback)
    && (r.hit ==> r.result.Some? && r.at <= r.result.value.timeout)
    && (r.failed ==> r.result == r.fallback)
    && (!r.failed ==> r.result.Some?)
  }

  ghost predicate Inv(timeout: nat, s: State) {
    && s.versions != [] && |s.replaced| == |s.versions| - 1
    && GenuineOption(timeout, s, s.cached)
    && (s.load.Some? ==> GenuineLoad(s, s.load.value))
    && (forall id :: id in s.calls ==> GenuineOption(timeout, s, s.calls[id].fallback))
    && (forall r :: r in s.delivered ==> GoodReturn(timeout, s, r))
  }

  /** `t` comes after `s`: time and the history of redis only grow, and what is overwritten is so at the current time. */
  predicate Later(s: State, t: State) {
    && s.now <= t.now
    && s.versions <= t.versions && s.replaced <= t.replaced
    && |s.replaced| == |s.versions| - 1 && |t.replaced| == |t.versions| - 1
    && forall v :: |s.replaced| <= v < |t.replaced| ==> s.now <= t.replaced[v]
  }

  lemma {:induction false} HeldLater(s: State, t: State, v: nat, time: nat)
    requires Later(s, t) && HeldSince(s, v, time) && time <= s.now
    ensures HeldSince(t, v, time) && t.versions[v] == s.versions[v]
  {
  }

  lemma {:induction false} GenuineLater(timeout: nat, s: State, t: State, c: Copy)
    requires Later(s, t) && Genuine(timeout, s, c)
    ensures Genuine(timeout, t, c)
  {
    var v: nat :| HeldSince(s, v, c.started) && s.versions[v].locations == c.locations;
    HeldLater(s, t, v, c.started);
    if c.config != EMPTY_CONFIG {
      var w: nat :| HeldSince(s, w, c.started) && s.versions[w].config == c.config;
      HeldLater(s, t, w, c.started);
    }
  }

  lemma {:induction false} GenuineLoadLater(s: State, t: State, l: Load)
    requires Later(s, t) && GenuineLoad(s, l)
    ensures GenuineLoad(t, l)
  {
    if l.LocationsRead? || l.ConfigRead? {
      var v: nat :| HeldSince(s, v, l.started) && s.versions[v].locations == l.locations;
      HeldLater(s, t, v, l.started);
    }
    if l.ConfigRead? && l.config != EMPTY_CONFIG {
      var w: nat :| HeldSince(s, w, l.started) && s.versions[w].config == l.config;
      HeldLater(s, t, w, l.started);
    }
  }

  lemma {:induction false} InvLater(timeout: nat, s: State, t: State)
    requires Inv(timeout, s) && Later(s, t)
    requires t == s.(now := t.now, versions := t.versions, replaced := t.replaced)
    ensures Inv(timeout, t)
  {
    hide Genuine, GenuineLoad;
    forall c: Copy | Genuine(timeout, s, c) ensures Genuine(timeout, t, c) {
      GenuineLater(timeout, s, t, c);
    }
    if s.load.Some? { GenuineLoadLater(s, t, s.load.value); }
  }

  lemma {:induction false} InitInv(timeout: nat, now: nat, contents: Contents)
    ensures Inv(timeout, Init(now, contents))
  {
  }

  lemma {:induction false} NextInv(timeout: nat, s: State, step: Step, t: State)
    requires Inv(timeout, s) && Next(timeout, s, step, t)
    ensures Inv(timeout, t)
  {
    hide Genuine, GenuineLoad, Next;
    match step
    case Tick => TimeOrWriteInv(timeout, s, step, t);
    case Write(c) => TimeOrWriteInv(timeout, s, step, t);
    case ReadLocations(ok) => ReadInv(timeout, s, step, t);
    case ReadConfig(ok) => ReadInv(timeout, s, step, t);
    case Finish(kept) => FinishInv(timeout, s, step, t);
    case _ => CallInv(timeout, s, step, t);
  }

  lemma {:induction false} TimeOrWriteInv(timeout: nat, s: State, step: Step, t: State)
    requires Inv(timeout, s) && Next(timeout, s, step, t) && (step.Tick? || step.Write?)
    ensures Inv(timeout, t)
  {
    hide Genuine, GenuineLoad;
    InvLater(timeout, s, t);
  }

  lemma {:induction false} CallInv(timeout: nat, s: State, step: Step, t: State)
    requires Inv(timeout, s) && Next(timeout, s, step, t) && (step.Forget? || step.CallCheck? || step.CallJoin?)
    ensures Inv(timeout, t)
  {
    SameHistory(timeout, s, t);
    assert GenuineLoad(t, Started(t.now));
    hide Genuine, GenuineLoad;
  }

  lemma {:induction false} ReadInv(timeout: nat, s: State, step: Step, t: State)
    requires Inv(timeout, s) && Next(timeout, s, step, t) && (step.ReadLocations? || step.ReadConfig?)
    ensures Inv(timeout, t)
  {
    SameHistory(timeout, s, t);
    hide Genuine;
    assert HeldSince(t, |t.versions| - 1, s.load.value.started);
  }

  lemma {:induction false} FinishInv(timeout: nat, s: State, step: Step, t: State)
    requires Inv(timeout, s) && Next(timeout, s, step, t) && step.Finish?
    ensures Inv(timeout, t)
  {
    SameHistory(timeout, s, t);
    var l := s.load.value;
    if l.ConfigRead? {
      assert Genuine(timeout, t, Copy(l.locations, l.config, s.now, s.now + timeout, l.started));
    }
    hide Genuine, GenuineLoad;
  }

  lemma {:induction false} SameHistory(timeout: nat, s: State, t: State)
    requires t.now == s.now && t.versions == s.versions && t.replaced == s.replaced
    ensures forall c: Copy :: Genuine(timeout, s, c) ==> Genuine(timeout, t, c)
    ensures forall l: Load :: GenuineLoad(s, l) ==> GenuineLoad(t, l)
  {
    forall v: nat, time: nat ensures HeldSince(s, v, time) == HeldSince(t, v, time) {}
  }

  /** A run: the states it goes through and the steps between them. */
  ghost predicate Run(timeout: nat, states: seq<State>, steps: seq<Step>) {
    && |states| == |steps| + 1
    && (exists now, c :: states[0] == Init(now, c))
    && forall i :: 0 <= i < |steps| ==> states[i].versions != [] && Next(timeout, states[i], steps[i], states[i + 1])
  }

  lemma {:induction false} RunInv(timeout: nat, states: seq<State>, steps: seq<Step>, k: nat)
    requires Run(timeout, states, steps) && k < |states|
    ensures Inv(timeout, states[k])
  {
    if k == 0 {
      var now, c :| states[0] == Init(now, c);
      InitInv(timeout, now, c);
    } else {
      RunInv(timeout, states, steps, k - 1);
      NextInv(timeout, states[k - 1], steps[k - 1], states[k]);
    }
  }

  /**
   Over every interleaving of writes, evictions, event deletions, failures and shared loads:
   a fresh hit shows locations and a configuration redis still held at a moment no further back
   than the cache timeout plus the duration of the load; a failed load gives the copy cached
   when the call looked, so nothing only if there was none; any other load gives a zone.
   */
  lemma {:induction false} ReturnsAreBounded(timeout: nat, states: seq<State>, steps: seq<Step>, k: nat, r: Return)
    requires Run(timeout, states, steps) && k < |states| && r in states[k].delivered
    ensures r.hit ==>
              && r.result.Some?
              && var c := r.result.value;
                 var oldest := c.started;
                 && r.at - oldest <= timeout + (c.built - c.started)
                 && LocationsHeldSince(states[k], c.locations, oldest)
                 && ConfigHeldSince(states[k], c.config, oldest)
    ensures r.failed ==> r.result == r.fallback
    ensures r.result.None? ==> r.failed && r.fallback.None?
  {
    RunInv(timeout, states, steps, k);
    assert GoodReturn(timeout, states[k], r);
  }

  // ----- What the deletion after a write ends -----

  /** `t` comes out of `s` in some number of steps. */
  ghost predicate Reaches(timeout: nat, s: State, t: State) {
    exists states: seq<State>, steps: seq<Step> :: Leads(timeout, s, states, steps) && states[|steps|] == t
  }

  ghost predicate Leads(timeout: nat, s: State, states: seq<State>, steps: seq<Step>) {
    && |states| == |steps| + 1 && states[0] == s
    && forall i :: 0 <= i < |steps| ==> states[i].versions != [] && Next(timeout, states[i], steps[i], states[i + 1])
  }

  lemma {:induction false} ReachesItself(timeout: nat, s: State)
    ensures Reaches(timeout, s, s)
  {
    var states: seq<State>, steps: seq<Step> := [s], [];
    assert Leads(timeout, s, states, steps);
  }

  lemma {:induction false} ReachesNext(timeout: nat, s: State, t: State, step: Step, u: State)
    requires Reaches(timeout, s, t) && t.versions != [] && Next(timeout, t, step, u)
    ensures Reaches(timeout, s, u)
  {
    hide Next;
    var states: seq<State>, steps: seq<Step> :| Leads(timeout, s, states, steps) && states[|steps|] == t;
    assert Leads(timeout, s, states + [u], steps + [step]);
  }

  /** Version `w` of what redis held, or a later one, has these locations. */
  ghost predicate ShownSince(s: State, w: nat, locations: seq<string>) {
    exists v: nat :: w <= v < |s.versions| && s.versions[v].locations == locations
  }

  /** Or this configuration, unless its read failed. */
  ghost predicate ConfigShownSince(s: State, w: nat, config: string) {
    config == EMPTY_CONFIG || exists v: nat :: w <= v < |s.versions| && s.versions[v].config == config
  }

  ghost predicate CopyShownSince(s: State, w: nat, c: Copy) {
    ShownSince(s, w, c.locations) && ConfigShownSince(s, w, c.config)
  }

  /** Past the first `n` returns both parts of every hit are of version `w` or later ones. */
  ghost predicate HitsShow(s: State, w: nat, n: nat) {
    forall i :: n <= i < |s.delivered| && s.delivered[i].hit ==>
      s.delivered[i].result.Some? && CopyShownSince(s, w, s.delivered[i].result.value)
  }

  /** From here on, whatever happens, a hit shows locations and a configuration of what redis holds now or later. */
  ghost predicate StalenessEnds(timeout: nat, s: State)
    requires s.versions != []
  {
    forall t :: Reaches(timeout, s, t) ==> HitsShow(t, |s.versions| - 1, |s.delivered|)
  }

  /** Whatever the load in flight, if there is one, has read so far is what redis holds now. */
  predicate LoadIsCurrent(s: State)
    requires s.versions != []
  {
    && (s.load.Some? && (s.load.value.LocationsRead? || s.load.value.ConfigRead?) ==>
          s.load.value.locations == Current(s).locations)
    && (s.load.Some? && s.load.value.ConfigRead? ==> s.load.value.config in {EMPTY_CONFIG, Current(s).config})
  }

  /** Nothing that could still be served is older than version `w`. */
  ghost predicate NothingOlder(s: State, w: nat, n: nat) {
    && w < |s.versions| && n <= |s.delivered| && HitsShow(s, w, n)
    && (s.cached.Some? ==> CopyShownSince(s, w, s.cached.value))
    && (s.load.Some? && (s.load.value.LocationsRead? || s.load.value.ConfigRead?) ==>
          ShownSince(s, w, s.load.value.locations))
    && (s.load.Some? && s.load.value.ConfigRead? ==> ConfigShownSince(s, w, s.load.value.config))
  }

  lemma {:induction false} ShownLater(s: State, t: State, w: nat)
    requires s.versions <= t.versions
    ensures forall l :: ShownSince(s, w, l) ==> ShownSince(t, w, l)
    ensures forall config :: ConfigShownSince(s, w, config) ==> ConfigShownSince(t, w, config)
  {
    forall l | ShownSince(s, w, l) ensures ShownSince(t, w, l) {
      var v: nat :| w <= v < |s.versions| && s.versions[v].locations == l;
      assert t.versions[v] == s.versions[v];
    }
    forall config | ConfigShownSince(s, w, config) ensures ConfigShownSince(t, w, config) {
      if config != EMPTY_CONFIG {
        var v: nat :| w <= v < |s.versions| && s.versions[v].config == config;
        assert t.versions[v] == s.versions[v];
      }
    }
  }

  lemma {:induction false} NothingOlderNext(timeout: nat, s: State, step: Step, t: State, w: nat, n: nat)
    requires NothingOlder(s, w, n) && Next(timeout, s, step, t)
    ensures NothingOlder(t, w, n)
  {
    hide NothingOlder, Next;
    if step.Finish? || step.CallCheck? { ReturnsNothingOlder(timeout, s, step, t, w, n); }
    else { ReadsNothingOlder(timeout, s, step, t, w, n); }
  }

  lemma {:induction false} ReadsNothingOlder(timeout: nat, s: State, step: Step, t: State, w: nat, n: nat)
    requires NothingOlder(s, w, n) && Next(timeout, s, step, t) && !step.Finish? && !step.CallCheck?
    ensures NothingOlder(t, w, n)
  {
    ShownLater(s, t, w);
    assert ShownSince(t, w, Current(t).locations) && ConfigShownSince(t, w, Current(t).config);
    hide ShownSince, ConfigShownSince;
  }

  lemma {:induction false} ReturnsNothingOlder(timeout: nat, s: State, step: Step, t: State, w: nat, n: nat)
    requires NothingOlder(s, w, n) && Next(timeout, s, step, t) && (step.Finish? || step.CallCheck?)
    ensures NothingOlder(t, w, n)
  {
    ShownLater(s, t, w);
    hide ShownSince, ConfigShownSince;
  }

  lemma {:induction false} NothingOlderAlong(timeout: nat, states: seq<State>, steps: seq<Step>, k: nat, w: nat, n: nat)
    requires k < |states| && Leads(timeout, states[0], states, steps) && NothingOlder(states[0], w, n)
    ensures NothingOlder(states[k], w, n)
  {
    if k > 0 {
      NothingOlderAlong(timeout, states, steps, k - 1, w, n);
      NothingOlderNext(timeout, states[k - 1], steps[k - 1], states[k], w, n);
    }
  }

  lemma {:induction false} CurrentLoadEndsStaleness(timeout: nat, s: State)
    requires s.versions != [] && s.cached.None? && LoadIsCurrent(s)
    ensures StalenessEnds(timeout, s)
  {
    var w := |s.versions| - 1;
    assert ShownSince(s, w, Current(s).locations) && ConfigShownSince(s, w, Current(s).config);
    assert NothingOlder(s, w, |s.delivered|);
    forall t | Reaches(timeout, s, t) ensures HitsShow(t, w, |s.delivered|) {
      var states: seq<State>, steps: seq<Step> :| Leads(timeout, s, states, steps) && states[|steps|] == t;
      NothingOlderAlong(timeout, states, steps, |steps|, w, |s.delivered|);
    }
  }

  lemma {:induction false} Listed(ids: set<nat>) returns (order: seq<nat>)
    ensures forall id :: id in order <==> id in ids
    ensures forall i, j :: 0 <= i < j < |order| ==> order[i] != order[j]
  {
    if ids == {} { return []; }
    var id :| id in ids;
    order := Listed(ids - {id});
    order := order + [id];
  }

  lemma {:induction false} UnusedId(ids: set<nat>) returns (unused: nat)
    ensures forall id :: id in ids ==> id < unused
  {
    if ids == {} { return 0; }
    var id :| id in ids;
    var above := UnusedId(ids - {id});
    unused := if id < above then above else id + 1;
    forall i | i in ids ensures i < unused {
      if i != id { assert i in ids - {id}; }
    }
  }

  /** A load that has read everything ends in a copy the cache keeps. */
  lemma {:induction false} FinishKept(timeout: nat, s: State) returns (t: State)
    requires s.versions != [] && s.load.Some? && s.load.value.ConfigRead?
    ensures Next(timeout, s, Finish(true), t)
    ensures var l := s.load.value; t.cached == Some(Copy(l.locations, l.config, s.now, s.now + timeout, l.started))
    ensures t.now == s.now && t.versions == s.versions && t.replaced == s.replaced && s.delivered <= t.delivered
  {
    var l := s.load.value;
    var answer := Some(Copy(l.locations, l.config, s.now, s.now + timeout, l.started));
    var order := Listed(set id | id in s.calls && s.calls[id].Waiting?);
    assert WaitingInOrder(s, order);
    t := s.(cached := answer, load := None,
            calls := map id | id in s.calls && s.calls[id].Checked? :: s.calls[id],
            delivered := s.delivered + seq(|order|, i requires 0 <= i < |order| && order[i] in s.calls =>
            Delivered(s, answer, order[i])));
  }

  lemma {:induction false} TimePasses(timeout: nat, s: State, t: State, d: nat)
    requires Reaches(timeout, s, t) && t.versions != []
    ensures Reaches(timeout, s, t.(now := t.now + d))
  {
    if d > 0 {
      TimePasses(timeout, s, t, d - 1);
      var u := t.(now := t.now + d - 1);
      ReachesNext(timeout, s, u, Tick, u.(now := u.now + 1));
    } else {
      assert t.(now := t.now + 0) == t;
    }
  }

  lemma {:induction false} ConfigComesIn(timeout: nat, s: State) returns (t: State)
    requires s.versions != [] && s.load.Some? && (s.load.value.LocationsRead? || s.load.value.ConfigRead?)
    ensures Reaches(timeout, s, t) && t.load.Some? && t.load.value.ConfigRead?
    ensures t == s.(load := t.load) && t.load.value.locations == s.load.value.locations
    ensures s.load.value.ConfigRead? ==> t == s
  {
    ReachesItself(timeout, s);
    t := s;
    if s.load.value.LocationsRead? {
      var l := s.load.value;
      t := s.(load := Some(ConfigRead(l.started, l.locations, Current(s).config)));
      ReachesNext(timeout, s, s, ReadConfig(true), t);
    }
  }

  /** What a load has read can be served, without any further write, for as long as a copy counts as fresh. */
  lemma {:induction false} LoadServedLater(timeout: nat, s: State, d: nat) returns (t: State, r: Return)
    requires s.versions != [] && s.load.Some? && (s.load.value.LocationsRead? || s.load.value.ConfigRead?) && d <= timeout
    ensures Reaches(timeout, s, t)
    ensures t.versions == s.versions && t.replaced == s.replaced && t.now == s.now + d
    ensures |t.delivered| > |s.delivered| && t.delivered[|t.delivered| - 1] == r
    ensures r.hit && r.at == s.now + d && r.result.Some? && r.result.value.locations == s.load.value.locations
    ensures s.load.value.ConfigRead? ==> r.result.value.config == s.load.value.config
  {
    hide Reaches;
    var loaded := ConfigComesIn(timeout, s);
    var kept := FinishKept(timeout, loaded);
    ReachesNext(timeout, s, loaded, Finish(true), kept);
    TimePasses(timeout, s, kept, d);
    var late := kept.(now := kept.now + d);
    var id := UnusedId(late.calls.Keys);
    r := Return(late.cached, late.now, true, false, late.cached);
    t := late.(delivered := late.delivered + [r]);
    ReachesNext(timeout, s, late, CallCheck(id), t);
  }

  /**
   Exactly when the deletion that follows a write ends staleness. Let a deletion lead to `s`; what
   redis then holds was written at any time before. In every continuation every hit shows the
   locations and the configuration of that moment or later ones, exactly when whatever a load in
   flight has read by then, its locations and then its configuration, is what redis holds.
   */
  lemma {:induction false} DeletionEndsStalenessIff(timeout: nat, before: State, s: State)
    requires before.versions != [] && Next(timeout, before, Forget, s)
    ensures StalenessEnds(timeout, s) <==> LoadIsCurrent(s)
  {
    if LoadIsCurrent(s) {
      CurrentLoadEndsStaleness(timeout, s);
    } else {
      var t, r := LoadServedLater(timeout, s, 0);
      assert !CopyShownSince(t, |s.versions| - 1, r.result.value);
      assert !HitsShow(t, |s.versions| - 1, |s.delivered|);
    }
  }

  /** One call has started a load, which reads the locations and, if `both`, the configuration. */
  lemma {:induction false} LoadHasRead(timeout: nat, before: Contents, both: bool) returns (s: State)
    ensures Reaches(timeout, Init(0, before), s)
    ensures var l := before.locations;
            s == State(0, [before], [], None, Some(if both then ConfigRead(0, l, before.config) else LocationsRead(0, l)),
                       map[0 := Waiting(None)], [])
  {
    hide Reaches;
    var s0 := Init(0, before);
    var s1 := s0.(calls := map[0 := Checked(None)]);
    var s2 := s1.(calls := map[0 := Waiting(None)], load := Some(Started(0)));
    var s3 := s2.(load := Some(LocationsRead(0, before.locations)));
    ReachesItself(timeout, s0);
    ReachesNext(timeout, s0, s0, CallCheck(0), s1);
    ReachesNext(timeout, s0, s1, CallJoin(0), s2);
    ReachesNext(timeout, s0, s2, ReadLocations(true), s3);
    s := s3;
    if both {
      s := s3.(load := Some(ConfigRead(0, before.locations, before.config)));
      ReachesNext(timeout, s0, s3, ReadConfig(true), s);
    }
  }

  /**
   And it need not: a write and its deletion fall between the reads of a load and its store, and
   the old zone, or only its old configuration, is served as fresh until the whole timeout after
   the write is over.
   */
  lemma {:induction false} DeletionCanBeLost(timeout: nat, before: Contents, after: Contents)
    returns (loading: State, written: State, deleted: State, t: State, r: Return)
    requires before.locations != after.locations || before.config !in {EMPTY_CONFIG, after.config}
    ensures Reaches(timeout, Init(0, before), loading) && loading.versions == [before]
    ensures Next(timeout, loading, Write(after), written) && Next(timeout, written, Forget, deleted)
    ensures written.versions == [before, after] && written.replaced == [0]
    ensures Reaches(timeout, deleted, t) && t.versions == [before, after] && r in t.delivered
    ensures r.hit && r.at == timeout && r.result.Some?
    ensures r.result.value.locations == before.locations && r.result.value.config == before.config
    ensures !CopyShownSince(t, 1, r.result.value)
  {
    hide Reaches;
    loading := LoadHasRead(timeout, before, true);
    written := loading.(versions := [before, after], replaced := [0]);
    deleted := written;
    t, r := LoadServedLater(timeout, deleted, timeout);
  }
}
