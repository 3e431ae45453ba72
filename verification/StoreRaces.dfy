/** The token store under every interleaving. A database change and the reload that follows it are separate
    steps, a reload takes its snapshot and installs it in two, and a lookup that finds an expired entry evicts it
    in a second step, after giving up the read lock. */
module StoreRaces {
  import opened TokenStore

  datatype Phase =
    | Idle
    | Pending                 // about to reload: after a commit, or because the file watcher saw a change
    | Loaded(version: nat)    // holds the projection of a snapshot
    | Evicting(hash: string)  // saw an expired entry

  /** `versions` are all committed databases, the current one last. `base` is the version last installed, and
      `installs` counts installations, so that `(installs, hash)` names an entry of the cache. */
  datatype State = State(versions: seq<Db>, threads: map<nat, Phase>, cache: Cache, now: int,
                         base: nat, installs: nat, events: seq<(nat, string)>)

  datatype Step =
    | Write(thread: nat, op: Op)
    | Watch(thread: nat)
    | Snapshot(thread: nat)
    | Install(thread: nat)
    | Find(thread: nat, hash: string)
    | Evict(thread: nat)
    | Tick(now: int)

  function PhaseOf(s: State, t: nat): Phase {
    if t in s.threads then s.threads[t] else Idle
  }

  function Newest(s: State): Db
    requires s.versions != []
  {
    s.versions[|s.versions| - 1]
  }

  /** `Init` on a database. */
  function Start(c: Codec, db: Db, now: int): State {
    State([db], map[], Projection(c, db), now, 0, 0, [])
  }

  predicate Enabled(c: Codec, s: State, step: Step) {
    match step
    case Write(t, op) =>
      && PhaseOf(s, t) == Idle && s.versions != []
      && (op.Create? || op.Update? || op.Delete?) && Commit(c, Newest(s), op).Ok?
    case Watch(t) => PhaseOf(s, t) == Idle
    case Snapshot(t) => PhaseOf(s, t) == Pending && s.versions != []
    case Install(t) => PhaseOf(s, t).Loaded? && PhaseOf(s, t).version < |s.versions|
    case Find(t, h) => PhaseOf(s, t) == Idle && h in s.cache && Expired(s.cache[h], s.now)
    case Evict(t) => PhaseOf(s, t).Evicting?
    case Tick(now) => now >= s.now
  }

  function Move(s: State, t: nat, p: Phase): State {
    s.(threads := s.threads[t := p])
  }

  function Apply(c: Codec, s: State, step: Step): State
    requires Enabled(c, s, step)
  {
    match step
    case Write(t, op) => Move(s, t, Pending).(versions := s.versions + [Commit(c, Newest(s), op).value])
    case Watch(t) => Move(s, t, Pending)
    case Snapshot(t) => Move(s, t, Loaded(|s.versions| - 1))
    case Install(t) =>
      var v := PhaseOf(s, t).version;
      Move(s, t, Idle).(cache := Projection(c, s.versions[v]), base := v, installs := s.installs + 1)
    case Find(t, h) => Move(s, t, Evicting(h))
    case Evict(t) =>
      // looked up again under the write lock: another entry may be there by now
      var h := PhaseOf(s, t).hash;
      if h in s.cache && Expired(s.cache[h], s.now)
      then Move(s, t, Idle).(cache := s.cache - {h}, events := s.events + [(s.installs, h)])
      else Move(s, t, Idle)
    case Tick(now) => s.(now := now)
  }

  predicate Possible(c: Codec, s: State, steps: seq<Step>)
    decreases |steps|, 0
  {
    steps == [] ||
    var n := |steps| - 1;
    Possible(c, s, steps[..n]) && Enabled(c, Exec(c, s, steps[..n]), steps[n])
  }

  function Exec(c: Codec, s: State, steps: seq<Step>): State
    requires Possible(c, s, steps)
    decreases |steps|, 1
  {
    if steps == [] then s
    else
      var n := |steps| - 1;
      Apply(c, Exec(c, s, steps[..n]), steps[n])
  }

  // ---------- What the cache is ----------

  /** The cache is the projection of the version last installed, less entries that have expired; every snapshot
      was of a committed version; no entry that has been reported is in the cache, and none was reported twice. */
  ghost predicate Inv(c: Codec, s: State) {
    && s.base < |s.versions|
    && (forall t :: t in s.threads && s.threads[t].Loaded? ==> s.threads[t].version < |s.versions|)
    && Agrees(c, Store(s.versions[s.base], s.cache), s.now)
    && (forall k :: 0 <= k < |s.events| ==> Gone(s, s.events[k]))
    && (forall j, k :: 0 <= j < k < |s.events| ==> s.events[j] != s.events[k])
  }

  predicate Gone(s: State, e: (nat, string)) {
    e.0 < s.installs || (e.0 == s.installs && e.1 !in s.cache)
  }

  lemma {:induction false} InvEvict(c: Codec, s: State, t: nat)
    requires Inv(c, s) && Enabled(c, s, Evict(t))
    ensures Inv(c, Apply(c, s, Evict(t)))
  {
    var s' := Apply(c, s, Evict(t));
    var h := PhaseOf(s, t).hash;
    StepAgrees(c, Store(s.versions[s.base], s.cache), Op.Lookup(h, s.now, s.now), s.now, s.now);
    forall k | 0 <= k < |s.events| ensures Gone(s', s.events[k]) && (s.events[k] == (s.installs, h) ==> h !in s.cache) {
      assert Gone(s, s.events[k]);
    }
  }

  lemma {:induction false} InvInstall(c: Codec, s: State, t: nat)
    requires Inv(c, s) && Enabled(c, s, Install(t))
    ensures Inv(c, Apply(c, s, Install(t)))
  {
    var s' := Apply(c, s, Install(t));
    forall k | 0 <= k < |s.events| ensures Gone(s', s.events[k]) {
      assert Gone(s, s.events[k]);
    }
  }

  lemma {:induction false} InvStep(c: Codec, s: State, step: Step)
    requires Inv(c, s) && Enabled(c, s, step)
    ensures Inv(c, Apply(c, s, step))
  {
    match step
    case Evict(t) => InvEvict(c, s, t);
    case Install(t) => InvInstall(c, s, t);
    case _ =>
      var s' := Apply(c, s, step);
      forall k | 0 <= k < |s.events| ensures Gone(s', s.events[k]) {
        assert Gone(s, s.events[k]);
      }
  }

  lemma {:induction false} InvRun(c: Codec, db: Db, now: int, steps: seq<Step>)
    requires Possible(c, Start(c, db, now), steps)
    ensures Inv(c, Exec(c, Start(c, db, now), steps))
  {
    if steps != [] {
      var n := |steps| - 1;
      InvRun(c, db, now, steps[..n]);
      InvStep(c, Exec(c, Start(c, db, now), steps[..n]), steps[n]);
    }
  }

  /** Main result: in every interleaving a lookup answers what some committed version of the database says of the
      token now: the version the cache was last loaded from. */
  lemma {:induction false} LookupsAnswerForAVersion(c: Codec, db: Db, now: int, steps: seq<Step>, h: string)
    requires Possible(c, Start(c, db, now), steps)
    ensures
      var s := Exec(c, Start(c, db, now), steps);
      s.base < |s.versions| && Answer(s.cache, h, s.now) == Current(c, s.versions[s.base], h, s.now)
  {
    InvRun(c, db, now, steps);
  }

  /** Main result: each entry that was ever installed is reported expired at most once, however many lookups
      found it expired at the same time. */
  lemma {:induction false} ReportedOnce(c: Codec, db: Db, now: int, steps: seq<Step>, j: nat, k: nat)
    requires Possible(c, Start(c, db, now), steps)
    ensures
      var events := Exec(c, Start(c, db, now), steps).events;
      j < k < |events| ==> events[j] != events[k]
  {
    InvRun(c, db, now, steps);
  }

  /** What is missing of the version last installed is what has been reported of it. */
  ghost predicate Accounted(c: Codec, s: State)
    requires s.base < |s.versions|
  {
    forall h: string :: h in Projection(c, s.versions[s.base]) && h !in s.cache <==> (s.installs, h) in s.events
  }

  lemma {:induction false} AccountedEvict(c: Codec, s: State, t: nat)
    requires Inv(c, s) && Accounted(c, s) && Enabled(c, s, Evict(t))
    ensures Accounted(c, Apply(c, s, Evict(t)))
  {
    var s' := Apply(c, s, Evict(t));
    var gone := PhaseOf(s, t).hash;
    var full := Projection(c, s.versions[s.base]);
    forall h: string ensures h in full && h !in s'.cache <==> (s'.installs, h) in s'.events {
      assert h in full && h !in s.cache <==> (s.installs, h) in s.events;
    }
  }

  lemma {:induction false} AccountedInstall(c: Codec, s: State, t: nat)
    requires Inv(c, s) && Enabled(c, s, Install(t))
    ensures Accounted(c, Apply(c, s, Install(t)))
  {
    var s' := Apply(c, s, Install(t));
    assert forall k :: 0 <= k < |s.events| ==> Gone(s, s.events[k]) && s.events[k].0 != s'.installs;
  }

  lemma {:induction false} AccountedStep(c: Codec, s: State, step: Step)
    requires Inv(c, s) && Accounted(c, s) && Enabled(c, s, step)
    ensures Inv(c, Apply(c, s, step)) && Accounted(c, Apply(c, s, step))
  {
    InvStep(c, s, step);
    match step
    case Evict(t) => AccountedEvict(c, s, t);
    case Install(t) => AccountedInstall(c, s, t);
    case _ =>
      var s' := Apply(c, s, step);
      assert s'.versions[s'.base] == s.versions[s.base];
      forall h: string
        ensures h in Projection(c, s'.versions[s'.base]) && h !in s'.cache <==> (s'.installs, h) in s'.events
      {
        assert h in Projection(c, s.versions[s.base]) && h !in s.cache <==> (s.installs, h) in s.events;
      }
  }

  lemma {:induction false} AccountedRun(c: Codec, db: Db, now: int, steps: seq<Step>)
    requires Possible(c, Start(c, db, now), steps)
    ensures Inv(c, Exec(c, Start(c, db, now), steps)) && Accounted(c, Exec(c, Start(c, db, now), steps))
  {
    if steps != [] {
      var n := |steps| - 1;
      AccountedRun(c, db, now, steps[..n]);
      AccountedStep(c, Exec(c, Start(c, db, now), steps[..n]), steps[n]);
    }
  }

  /** Main result: in every interleaving exactly those entries of the version last installed are missing from the cache
      that were reported expired since, and they have expired; so an entry that was replaced between the two looks of a
      lookup is not lost. */
  lemma {:induction false} EvictsOnlyExpired(c: Codec, db: Db, now: int, steps: seq<Step>, h: string)
    requires Possible(c, Start(c, db, now), steps)
    ensures
      var s := Exec(c, Start(c, db, now), steps);
      && s.base < |s.versions|
      && var full := Projection(c, s.versions[s.base]);
         && (h in full && h !in s.cache <==> (s.installs, h) in s.events)
         && (h in full && h !in s.cache ==> Expired(full[h], s.now))
         && (h in s.cache ==> h in full && s.cache[h] == full[h])
  {
    AccountedRun(c, db, now, steps);
    var s := Exec(c, Start(c, db, now), steps);
    assert h in Projection(c, s.versions[s.base]) && h !in s.cache <==> (s.installs, h) in s.events;
  }

  // ---------- How new the cache is ----------

  /** No step installs a version older than the one it replaces. */
  predicate Forward(c: Codec, s: State, steps: seq<Step>)
    requires Possible(c, s, steps)
    decreases |steps|
  {
    steps == [] ||
    var n := |steps| - 1;
    var t := Exec(c, s, steps[..n]);
    Forward(c, s, steps[..n]) && (steps[n].Install? ==> PhaseOf(t, steps[n].thread).version >= t.base)
  }

  predicate Quiet(s: State) {
    forall t :: t in s.threads ==> s.threads[t] == Idle || s.threads[t].Evicting?
  }

  /** The newest version is in the cache, or some thread is going to load it, or holds it already. */
  ghost predicate Coming(s: State) {
    || s.base + 1 == |s.versions|
    || exists t :: t in s.threads && Brings(s.threads[t], |s.versions|)
  }

  predicate Brings(p: Phase, versions: nat) {
    p == Pending || (p.Loaded? && p.version + 1 == versions)
  }

  lemma {:induction false} ComingStep(c: Codec, s: State, step: Step)
    requires Inv(c, s) && Coming(s) && Enabled(c, s, step)
    requires step.Install? ==> PhaseOf(s, step.thread).version >= s.base
    ensures Coming(Apply(c, s, step))
  {
    var s' := Apply(c, s, step);
    match step
    case Write(t, _) => assert Brings(s'.threads[t], |s'.versions|);
    case Snapshot(t) => assert Brings(s'.threads[t], |s'.versions|);
    case Tick(_) => assert s'.threads == s.threads && s'.versions == s.versions;
    case _ =>
      if s.base + 1 != |s.versions| {
        var u :| u in s.threads && Brings(s.threads[u], |s.versions|);
        if u != step.thread {
          assert Brings(s'.threads[u], |s'.versions|);
        }
      }
  }

  lemma {:induction false} ComingRun(c: Codec, db: Db, now: int, steps: seq<Step>)
    requires Possible(c, Start(c, db, now), steps) && Forward(c, Start(c, db, now), steps)
    ensures Coming(Exec(c, Start(c, db, now), steps))
  {
    if steps != [] {
      var n := |steps| - 1;
      ComingRun(c, db, now, steps[..n]);
      InvRun(c, db, now, steps[..n]);
      ComingStep(c, Exec(c, Start(c, db, now), steps[..n]), steps[n]);
    }
  }

  lemma {:induction false} QuietIsNewest(s: State)
    requires Coming(s) && Quiet(s)
    ensures s.base + 1 == |s.versions|
  {
  }

  /** Main result: if no reload ever installs an older version over a newer one, then whenever no reload is under
      way the cache is that of the newest version, and every lookup answers for the database as it is. */
  lemma {:induction false} ForwardIsNewest(c: Codec, db: Db, now: int, steps: seq<Step>, h: string)
    requires Possible(c, Start(c, db, now), steps) && Forward(c, Start(c, db, now), steps)
    requires Quiet(Exec(c, Start(c, db, now), steps))
    ensures
      var s := Exec(c, Start(c, db, now), steps);
      s.versions != [] && Answer(s.cache, h, s.now) == Current(c, Newest(s), h, s.now)
  {
    ComingRun(c, db, now, steps);
    QuietIsNewest(Exec(c, Start(c, db, now), steps));
    LookupsAnswerForAVersion(c, db, now, steps, h);
  }

  // ---------- Reloads that overlap ----------

  /** The threads between their snapshot and its installation. */
  function Loaders(s: State): set<nat> {
    set t | t in s.threads && s.threads[t].Loaded?
  }

  /** At no time do more than k reloads overlap. */
  predicate Overlap(c: Codec, s: State, steps: seq<Step>, k: nat)
    requires Possible(c, s, steps)
    decreases |steps|
  {
    && |Loaders(Exec(c, s, steps))| <= k
    && (steps == [] || Overlap(c, s, steps[..|steps| - 1], k))
  }

  /** What was loaded is no older than what is installed. */
  predicate Ahead(s: State) {
    forall t :: t in s.threads && s.threads[t].Loaded? ==> s.threads[t].version >= s.base
  }

  lemma {:induction false} OnlyLoader(s: State, t: nat, u: nat)
    requires |Loaders(s)| <= 1 && t in Loaders(s) && u in Loaders(s)
    ensures t == u
  {
    if t != u {
      assert {t, u} <= Loaders(s);
      SubsetSize({t, u}, Loaders(s));
    }
  }

  lemma {:induction false} SubsetSize(a: set<nat>, b: set<nat>)
    requires a <= b
    ensures |a| <= |b|
  {
    assert b == a + (b - a);
  }

  lemma {:induction false} AheadStep(c: Codec, s: State, step: Step)
    requires Inv(c, s) && Ahead(s) && |Loaders(s)| <= 1 && Enabled(c, s, step)
    ensures Ahead(Apply(c, s, step))
    ensures step.Install? ==> PhaseOf(s, step.thread).version >= s.base
  {
    if step.Install? {
      forall u | u in s.threads && s.threads[u].Loaded? ensures u == step.thread {
        OnlyLoader(s, step.thread, u);
      }
    }
  }

  lemma {:induction false} SerialIsForward(c: Codec, db: Db, now: int, steps: seq<Step>)
    requires Possible(c, Start(c, db, now), steps) && Overlap(c, Start(c, db, now), steps, 1)
    ensures Forward(c, Start(c, db, now), steps) && Ahead(Exec(c, Start(c, db, now), steps))
  {
    if steps != [] {
      var n := |steps| - 1;
      SerialIsForward(c, db, now, steps[..n]);
      InvRun(c, db, now, steps[..n]);
      AheadStep(c, Exec(c, Start(c, db, now), steps[..n]), steps[n]);
    }
  }

  lemma {:induction false} OverlapLess(c: Codec, s: State, steps: seq<Step>, j: nat, k: nat)
    requires Possible(c, s, steps) && Overlap(c, s, steps, j) && j <= k
    ensures Overlap(c, s, steps, k)
    decreases |steps|
  {
    if steps != [] {
      OverlapLess(c, s, steps[..|steps| - 1], j, k);
    }
  }

  /** A lookup answers for the database as it is. */
  predicate UpToDate(c: Codec, s: State, h: string) {
    s.versions != [] && Answer(s.cache, h, s.now) == Current(c, Newest(s), h, s.now)
  }

  /** A run of at most k overlapping reloads that ends with none under way. */
  predicate QuietRun(c: Codec, db: Db, now: int, steps: seq<Step>, k: nat) {
    && Possible(c, Start(c, db, now), steps) && Overlap(c, Start(c, db, now), steps, k)
    && Quiet(Exec(c, Start(c, db, now), steps))
  }

  ghost predicate AlwaysUpToDate(c: Codec, k: nat) {
    forall db: Db, now: int, steps: seq<Step>, h: string ::
      QuietRun(c, db, now, steps, k) ==> UpToDate(c, Exec(c, Start(c, db, now), steps), h)
  }

  lemma {:induction false} SerialUpToDate(c: Codec, db: Db, now: int, steps: seq<Step>, k: nat, h: string)
    requires QuietRun(c, db, now, steps, k) && k <= 1
    ensures UpToDate(c, Exec(c, Start(c, db, now), steps), h)
  {
    OverlapLess(c, Start(c, db, now), steps, k, 1);
    SerialIsForward(c, db, now, steps);
    ForwardIsNewest(c, db, now, steps, h);
  }

  /** Main result: with at most k reloads at a time, every run that ends with none under way leaves a cache of the
      newest database if and only if k is at most one: reloads must exclude each other, and nothing more is needed. */
  lemma {:induction false} ReloadsMustNotOverlap(c: Codec, p: string, k: nat)
    requires ValidPolicy(c, p)
    ensures AlwaysUpToDate(c, k) <==> k <= 1
  {
    if k <= 1 {
      forall db: Db, now: int, steps: seq<Step>, h: string | QuietRun(c, db, now, steps, k)
        ensures UpToDate(c, Exec(c, Start(c, db, now), steps), h)
      {
        SerialUpToDate(c, db, now, steps, k, h);
      }
    } else {
      var db := map["h" := Record(p, "", "", "")];
      var steps := DeletedTokenAccepted(c, p);
      OverlapLess(c, Start(c, db, 1), steps, 2, k);
      assert !UpToDate(c, Exec(c, Start(c, db, 1), steps), "h");
    }
  }

  lemma {:induction false} Extend(c: Codec, s: State, steps: seq<Step>, t: State, step: Step, t': State, k: nat)
    requires Possible(c, s, steps) && Exec(c, s, steps) == t && Enabled(c, t, step) && t' == Apply(c, t, step)
    requires Overlap(c, s, steps, k) && |Loaders(t')| <= k
    ensures Possible(c, s, steps + [step]) && Exec(c, s, steps + [step]) == t' && Overlap(c, s, steps + [step], k)
  {
    assert (steps + [step])[..|steps|] == steps;
  }

  lemma {:induction false} TwoThreads(s: State)
    requires s.threads.Keys <= {1, 2}
    ensures |Loaders(s)| <= 2
  {
    SubsetSize(Loaders(s), {1, 2});
  }

  /** With two reloads at a time it can be stale for good: the file watcher takes a snapshot, a token is deleted and
      the cache reloaded, and then the watcher installs its snapshot. With every thread idle the deleted token is
      accepted. */
  lemma {:induction false} DeletedTokenAccepted(c: Codec, p: string) returns (steps: seq<Step>)
    requires ValidPolicy(c, p)
    ensures
      var db := map["h" := Record(p, "", "", "")];
      && QuietRun(c, db, 1, steps, 2)
      && var s := Exec(c, Start(c, db, 1), steps);
         s.versions != [] && Newest(s) == map[] && Answer(s.cache, "h", s.now) == c.parse(p)
  {
    var db: Db := map["h" := Record(p, "", "", "")];
    var none: Db := map[];
    var gone: Cache := map[];
    var full := map["h" := Entry(c.parse(p).value, ZERO)];
    Projections(c, p, db, none, full, gone);
    var s0 := Start(c, db, 1);
    var s1 := s0.(threads := map[1 := Pending]);
    var s2 := s0.(threads := map[1 := Loaded(0)]);
    var s3 := s2.(threads := map[1 := Loaded(0), 2 := Pending], versions := [db, none]);
    var s4 := s3.(threads := s3.threads[2 := Loaded(1)]);
    var s5 := s4.(threads := s4.threads[2 := Idle], cache := gone, base := 1, installs := 1);
    var s6 := s5.(threads := s5.threads[1 := Idle], cache := full, base := 0, installs := 2);
    steps := FirstSteps(c, db, none, s0, s1, s2, s3);
    steps := LastSteps(c, db, none, full, gone, steps, s0, s3, s4, s5, s6);
  }

  lemma {:induction false} FirstSteps(c: Codec, db: Db, none: Db, s0: State, s1: State, s2: State, s3: State)
    returns (steps: seq<Step>)
    requires s0 == Start(c, db, 1) && s1 == s0.(threads := map[1 := Pending]) && s2 == s0.(threads := map[1 := Loaded(0)])
    requires s3 == s2.(threads := map[1 := Loaded(0), 2 := Pending], versions := [db, none])
    requires s0.threads == map[] && "h" in db && none == db - {"h"}
    ensures Possible(c, s0, steps) && Exec(c, s0, steps) == s3 && Overlap(c, s0, steps, 2)
  {
    TwoThreads(s0);
    TwoThreads(s1);
    TwoThreads(s2);
    TwoThreads(s3);
    steps := [];
    Extend(c, s0, steps, s0, Watch(1), s1, 2);
    steps := steps + [Watch(1)];
    Extend(c, s0, steps, s1, Snapshot(1), s2, 2);
    steps := steps + [Snapshot(1)];
    Delete(c, s2, s3, db, none);
    Extend(c, s0, steps, s2, Write(2, Op.Delete("h")), s3, 2);
    steps := steps + [Write(2, Op.Delete("h"))];
  }

  lemma {:induction false} LastSteps(c: Codec, db: Db, none: Db, full: Cache, gone: Cache, first: seq<Step>,
                                     s0: State, s3: State, s4: State, s5: State, s6: State)
    returns (steps: seq<Step>)
    requires Possible(c, s0, first) && Exec(c, s0, first) == s3 && Overlap(c, s0, first, 2)
    requires s3.threads == map[1 := Loaded(0), 2 := Pending] && s3.versions == [db, none] && s3.installs == 0
    requires Projection(c, db) == full && Projection(c, none) == gone
    requires s4 == s3.(threads := s3.threads[2 := Loaded(1)])
    requires s5 == s4.(threads := s4.threads[2 := Idle], cache := gone, base := 1, installs := 1)
    requires s6 == s5.(threads := s5.threads[1 := Idle], cache := full, base := 0, installs := 2)
    ensures Possible(c, s0, steps) && Exec(c, s0, steps) == s6 && Overlap(c, s0, steps, 2)
  {
    TwoThreads(s4);
    TwoThreads(s5);
    TwoThreads(s6);
    Take(c, s3, s4);
    Put(c, s4, s5, 2, 1, gone);
    Put(c, s5, s6, 1, 0, full);
    steps := first;
    Extend(c, s0, steps, s3, Snapshot(2), s4, 2);
    steps := steps + [Snapshot(2)];
    Extend(c, s0, steps, s4, Install(2), s5, 2);
    steps := steps + [Install(2)];
    Extend(c, s0, steps, s5, Install(1), s6, 2);
    steps := steps + [Install(1)];
  }

  lemma {:induction false} Projections(c: Codec, p: string, db: Db, none: Db, full: Cache, gone: Cache)
    requires ValidPolicy(c, p) && db == map["h" := Record(p, "", "", "")] && none == map[]
    requires full == map["h" := Entry(c.parse(p).value, ZERO)] && gone == map[]
    ensures Projection(c, db) == full && Projection(c, none) == gone && db - {"h"} == none
  {
  }

  lemma {:induction false} Take(c: Codec, s: State, t: State)
    requires s.threads == map[1 := Loaded(0), 2 := Pending] && |s.versions| == 2
    requires t == s.(threads := s.threads[2 := Loaded(1)])
    ensures Enabled(c, s, Snapshot(2)) && Apply(c, s, Snapshot(2)) == t
  {
  }

  lemma {:induction false} Put(c: Codec, s: State, t: State, thread: nat, v: nat, cache: Cache)
    requires PhaseOf(s, thread) == Loaded(v) && v < |s.versions| && cache == Projection(c, s.versions[v])
    requires t == s.(threads := s.threads[thread := Idle], cache := cache, base := v, installs := s.installs + 1)
    ensures Enabled(c, s, Install(thread)) && Apply(c, s, Install(thread)) == t
  {
  }

  lemma {:induction false} Delete(c: Codec, s: State, t: State, db: Db, none: Db)
    requires "h" in db && none == db - {"h"} && s.versions == [db] && PhaseOf(s, 2) == Idle
    requires t == s.(threads := s.threads[2 := Pending], versions := [db, none])
    ensures Enabled(c, s, Write(2, Op.Delete("h"))) && Apply(c, s, Write(2, Op.Delete("h"))) == t
  {
  }
}
