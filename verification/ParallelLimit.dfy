/** The parallel-request counters under every interleaving of requests, clock and collector.

    A request looks its bucket up under the limiter's lock and touches the bucket's counter later,
    outside the lock, through the pointer it got. So buckets are cells with an identity: `buckets` says
    which cell each token has now, and a request may hold a cell that is no longer in the map.
    A token whose max_parallel is 0 never touches a counter and does not take part. */
module ParallelLimit {
  const DAY: int := 86_400_000_000_000

  /** How far a request has come. */
  datatype Phase =
    | Arrived
    | Looking(cell: nat, since: int)   // inside Allow, with the bucket at hand
    | Passed                           // past that check, Acquire not begun
    | Adding(cell: nat, since: int)    // inside Acquire, with the bucket at hand
    | Holding(cell: nat)
    | Releasing(cell: nat)             // inside Release, with the bucket at hand
    | Finished

  datatype Request = Request(hash: string, phase: Phase)

  datatype Cell = Cell(hash: string, parallel: int, lastSeen: int)

  datatype State = State(
    now: int,
    buckets: map<string, nat>,
    cells: seq<Cell>,
    requests: seq<Request>,
    dropping: seq<string>)             // at most one token: the collector has read its counter and holds the lock

  const START: State := State(DAY, map[], [], [], [])

  datatype Step =
    | Tick(ns: nat)
    | Arrive(hash: string)
    | AllowLookup(i: nat)
    | AllowCheck(i: nat)               // parallel.Load and the comparison
    | Reject(i: nat)                   // a window says no
    | AcquireLookup(i: nat)
    | Add(i: nat)
    | ReleaseLookup(i: nat)
    | Sub(i: nat)
    | CollectRead(hash: string)
    | CollectDrop

  predicate At(s: State, i: nat) {
    i < |s.requests|
  }

  function PhaseOf(s: State, i: nat): Phase
    requires At(s, i)
  {
    s.requests[i].phase
  }

  /** Which steps can happen. `lag` bounds how long a request may sit on a bucket it looked up before it
      reads or raises the counter. */
  predicate Enabled(s: State, limit: map<string, int>, lag: nat, step: Step) {
    match step
    case Tick(ns) => true
    case Arrive(h) => h in limit && limit[h] != 0
    case AllowLookup(i) => At(s, i) && PhaseOf(s, i).Arrived? && s.dropping == []
    case AllowCheck(i) =>
      && At(s, i) && PhaseOf(s, i).Looking? && PhaseOf(s, i).cell < |s.cells| && s.requests[i].hash in limit
      && s.now - PhaseOf(s, i).since <= lag
    case Reject(i) => At(s, i) && PhaseOf(s, i).Passed?
    case AcquireLookup(i) => At(s, i) && PhaseOf(s, i).Passed? && s.dropping == []
    case Add(i) =>
      && At(s, i) && PhaseOf(s, i).Adding? && PhaseOf(s, i).cell < |s.cells|
      && s.now - PhaseOf(s, i).since <= lag
    case ReleaseLookup(i) => At(s, i) && PhaseOf(s, i).Holding? && s.dropping == []
    case Sub(i) => At(s, i) && PhaseOf(s, i).Releasing? && PhaseOf(s, i).cell < |s.cells|
    case CollectRead(h) =>
      && s.dropping == [] && h in s.buckets && s.buckets[h] < |s.cells|
      && s.cells[s.buckets[h]].parallel <= 0
      && s.now - s.cells[s.buckets[h]].lastSeen > DAY
    case CollectDrop => s.dropping != []
  }

  function Move(s: State, i: nat, phase: Phase): State
    requires At(s, i)
  {
    s.(requests := s.requests[i := s.requests[i].(phase := phase)])
  }

  /** `getBucket` without its collector, which has steps of its own. */
  function Lookup(s: State, h: string): (r: State)
    ensures h in r.buckets
  {
    if h in s.buckets && s.buckets[h] < |s.cells| then
      s.(cells := s.cells[s.buckets[h] := s.cells[s.buckets[h]].(lastSeen := s.now)])
    else
      s.(buckets := s.buckets[h := |s.cells|], cells := s.cells + [Cell(h, 0, s.now)])
  }

  function AddTo(s: State, cell: nat, n: int): State
    requires cell < |s.cells|
  {
    s.(cells := s.cells[cell := s.cells[cell].(parallel := s.cells[cell].parallel + n)])
  }

  function Apply(s: State, limit: map<string, int>, lag: nat, step: Step): State
    requires Enabled(s, limit, lag, step)
  {
    match step
    case Tick(ns) => s.(now := s.now + ns)
    case Arrive(h) => s.(requests := s.requests + [Request(h, Arrived)])
    case AllowLookup(i) =>
      var r := Lookup(s, s.requests[i].hash);
      Move(r, i, Looking(r.buckets[s.requests[i].hash], s.now))
    case AllowCheck(i) =>
      var max := limit[s.requests[i].hash];
      Move(s, i, if max > 0 && s.cells[PhaseOf(s, i).cell].parallel >= max then Finished else Passed)
    case Reject(i) => Move(s, i, Finished)
    case AcquireLookup(i) =>
      var r := Lookup(s, s.requests[i].hash);
      Move(r, i, Adding(r.buckets[s.requests[i].hash], s.now))
    case Add(i) => Move(AddTo(s, PhaseOf(s, i).cell, 1), i, Holding(PhaseOf(s, i).cell))
    case ReleaseLookup(i) =>
      if s.requests[i].hash in s.buckets then Move(s, i, Releasing(s.buckets[s.requests[i].hash]))
      else Move(s, i, Finished)
    case Sub(i) => Move(AddTo(s, PhaseOf(s, i).cell, -1), i, Finished)
    case CollectRead(h) => s.(dropping := [h])
    case CollectDrop => s.(buckets := s.buckets - {s.dropping[0]}, dropping := [])
  }

  /** Does every step of the run find itself enabled? */
  predicate Possible(limit: map<string, int>, lag: nat, steps: seq<Step>)
    decreases |steps|, 0
  {
    steps == []
    || (Possible(limit, lag, steps[..|steps| - 1])
        && Enabled(Exec(limit, lag, steps[..|steps| - 1]), limit, lag, steps[|steps| - 1]))
  }

  function Exec(limit: map<string, int>, lag: nat, steps: seq<Step>): State
    requires Possible(limit, lag, steps)
    decreases |steps|, 1
  {
    if steps == [] then START
    else Apply(Exec(limit, lag, steps[..|steps| - 1]), limit, lag, steps[|steps| - 1])
  }

  // ---------- Counting requests ----------

  predicate Holds(r: Request, h: string) {
    r.hash == h && (r.phase.Holding? || r.phase.Releasing?)
  }

  /** Past the check in Allow, counter not raised yet. */
  predicate Between(r: Request, h: string) {
    r.hash == h && (r.phase.Passed? || r.phase.Adding?)
  }

  function Holders(rs: seq<Request>, h: string): nat {
    if rs == [] then 0 else Holders(rs[..|rs| - 1], h) + (if Holds(rs[|rs| - 1], h) then 1 else 0)
  }

  function Betweens(rs: seq<Request>, h: string): nat {
    if rs == [] then 0 else Betweens(rs[..|rs| - 1], h) + (if Between(rs[|rs| - 1], h) then 1 else 0)
  }

  lemma {:induction false} CountsUpdate(rs: seq<Request>, i: nat, r: Request, h: string)
    requires i < |rs|
    ensures Holders(rs[i := r], h)
         == Holders(rs, h) - (if Holds(rs[i], h) then 1 else 0) + (if Holds(r, h) then 1 else 0)
    ensures Betweens(rs[i := r], h)
         == Betweens(rs, h) - (if Between(rs[i], h) then 1 else 0) + (if Between(r, h) then 1 else 0)
  {
    var n := |rs| - 1;
    if i == n {
      assert rs[i := r][..n] == rs[..n];
    } else {
      assert rs[i := r][..n] == rs[..n][i := r];
      CountsUpdate(rs[..n], i, r, h);
    }
  }

  lemma {:induction false} CountsAppend(rs: seq<Request>, r: Request, h: string)
    ensures Holders(rs + [r], h) == Holders(rs, h) + (if Holds(r, h) then 1 else 0)
    ensures Betweens(rs + [r], h) == Betweens(rs, h) + (if Between(r, h) then 1 else 0)
  {
    assert (rs + [r])[..|rs + [r]| - 1] == rs;
  }

  lemma {:induction false} HoldersZero(rs: seq<Request>, h: string, i: nat)
    requires Holders(rs, h) == 0 && i < |rs|
    ensures !Holds(rs[i], h)
  {
    if i < |rs| - 1 {
      HoldersZero(rs[..|rs| - 1], h, i);
    }
  }

  // ---------- The invariant ----------

  /** A token's counter is the number of its requests that have acquired and not released; a token
      without a bucket has none. */
  ghost predicate Exact(s: State) {
    forall h: string ::
      if h in s.buckets then s.buckets[h] < |s.cells| && s.cells[s.buckets[h]].parallel == Holders(s.requests, h)
      else Holders(s.requests, h) == 0
  }

  predicate Mapped(s: State) {
    && (forall h :: h in s.buckets ==> s.buckets[h] < |s.cells| && s.cells[s.buckets[h]].hash == h)
    && (forall c :: 0 <= c < |s.cells| ==> s.cells[c].lastSeen <= s.now)
  }

  /** Requests that hold have the bucket their token has now; so do requests that looked it up not
      longer than a day ago. */
  predicate Anchored(s: State, r: Request) {
    match r.phase
    case Looking(c, since) => Fresh(s, r.hash, c, since)
    case Adding(c, since) => Fresh(s, r.hash, c, since)
    case Holding(c) => r.hash in s.buckets && s.buckets[r.hash] == c
    case Releasing(c) => r.hash in s.buckets && s.buckets[r.hash] == c
    case _ => true
  }

  predicate Fresh(s: State, h: string, c: nat, since: int) {
    s.now - since <= DAY ==>
      h in s.buckets && s.buckets[h] == c && c < |s.cells| && since <= s.cells[c].lastSeen
  }

  predicate Doomed(s: State) {
    |s.dropping| <= 1
    && forall h :: h in s.dropping ==>
         h in s.buckets && s.buckets[h] < |s.cells|
         && s.cells[s.buckets[h]].parallel == 0 && s.now - s.cells[s.buckets[h]].lastSeen > DAY
  }

  ghost predicate Inv(s: State) {
    && Mapped(s) && Exact(s) && Doomed(s)
    && forall i :: 0 <= i < |s.requests| ==> Anchored(s, s.requests[i])
  }

  lemma {:induction false} InvLookup(s: State, i: nat, adding: bool)
    requires Inv(s) && At(s, i) && s.dropping == []
    requires if adding then PhaseOf(s, i).Passed? else PhaseOf(s, i).Arrived?
    ensures
      var h := s.requests[i].hash;
      var r := Lookup(s, h);
      Inv(Move(r, i, if adding then Adding(r.buckets[h], s.now) else Looking(r.buckets[h], s.now)))
  {
    var h := s.requests[i].hash;
    var r := Lookup(s, h);
    var s' := Move(r, i, if adding then Adding(r.buckets[h], s.now) else Looking(r.buckets[h], s.now));
    forall k: string ensures Holders(s'.requests, k) == Holders(s.requests, k) {
      CountsUpdate(s.requests, i, s'.requests[i], k);
    }
  }

  /** A request that moves on without touching any counter or bucket. */
  lemma {:induction false} InvMove(s: State, i: nat, phase: Phase)
    requires Inv(s) && At(s, i)
    requires !phase.Looking? && !phase.Adding?
    requires Holds(s.requests[i], s.requests[i].hash) <==> phase.Holding? || phase.Releasing?
    requires phase.Holding? || phase.Releasing? ==> s.requests[i].hash in s.buckets && s.buckets[s.requests[i].hash] == phase.cell
    ensures Inv(Move(s, i, phase))
  {
    var s' := Move(s, i, phase);
    forall k: string ensures Holders(s'.requests, k) == Holders(s.requests, k) {
      CountsUpdate(s.requests, i, s'.requests[i], k);
    }
  }

  lemma {:induction false} InvCount(s: State, i: nat, n: int, phase: Phase)
    requires Inv(s) && At(s, i)
    requires var h := s.requests[i].hash;
      && h in s.buckets
      && ((n == 1 && PhaseOf(s, i).Adding? && phase == Holding(s.buckets[h]) && h !in s.dropping)
          || (n == -1 && PhaseOf(s, i).Releasing? && phase == Finished))
    ensures Inv(Move(AddTo(s, s.buckets[s.requests[i].hash], n), i, phase))
  {
    var h := s.requests[i].hash;
    var s' := Move(AddTo(s, s.buckets[h], n), i, phase);
    forall k: string ensures Holders(s'.requests, k) == Holders(s.requests, k) + (if k == h then n else 0) {
      CountsUpdate(s.requests, i, s'.requests[i], k);
    }
    assert n == -1 ==> h !in s.dropping by {
      if h in s.dropping {
        HoldersZero(s.requests, h, i);
      }
    }
  }

  lemma {:induction false} InvDrop(s: State)
    requires Inv(s) && s.dropping != []
    ensures Inv(s.(buckets := s.buckets - {s.dropping[0]}, dropping := []))
  {
    var h := s.dropping[0];
    var s' := s.(buckets := s.buckets - {h}, dropping := []);
    assert h in s.dropping && Holders(s.requests, h) == 0;
    forall i | 0 <= i < |s.requests| ensures Anchored(s', s.requests[i]) {
      HoldersZero(s.requests, h, i);
      assert Anchored(s, s.requests[i]);
    }
  }

  lemma {:induction false} InvTick(s: State, ns: nat)
    requires Inv(s)
    ensures Inv(s.(now := s.now + ns))
  {
    var s' := s.(now := s.now + ns);
    forall i | 0 <= i < |s'.requests| ensures Anchored(s', s'.requests[i]) {
      assert Anchored(s, s.requests[i]);
    }
  }

  lemma {:induction false} InvArrive(s: State, h: string)
    requires Inv(s)
    ensures Inv(s.(requests := s.requests + [Request(h, Arrived)]))
  {
    var s' := s.(requests := s.requests + [Request(h, Arrived)]);
    forall k: string ensures Holders(s'.requests, k) == Holders(s.requests, k) {
      CountsAppend(s.requests, Request(h, Arrived), k);
    }
    forall i | 0 <= i < |s'.requests| ensures Anchored(s', s'.requests[i]) {
      assert i < |s.requests| ==> Anchored(s, s.requests[i]);
    }
  }

  lemma {:induction false} InvRead(s: State, h: string)
    requires Inv(s) && h in s.buckets && s.cells[s.buckets[h]].parallel <= 0
    requires s.now - s.cells[s.buckets[h]].lastSeen > DAY
    ensures Inv(s.(dropping := [h]))
  {
    var s' := s.(dropping := [h]);
    forall i | 0 <= i < |s'.requests| ensures Anchored(s', s'.requests[i]) {
      assert Anchored(s, s.requests[i]);
    }
  }

  /** The steps of one request after it has looked a bucket up. */
  lemma {:induction false} InvOwnStep(s: State, limit: map<string, int>, lag: nat, step: Step)
    requires Inv(s) && lag <= DAY && Enabled(s, limit, lag, step)
    requires step.AllowCheck? || step.Reject? || step.Add? || step.ReleaseLookup? || step.Sub?
    ensures Inv(Apply(s, limit, lag, step))
  {
    assert Anchored(s, s.requests[step.i]);
    match step
    case AllowCheck(i) => InvMove(s, i, PhaseOf(Apply(s, limit, lag, step), i));
    case Reject(i) => InvMove(s, i, Finished);
    case Add(i) => InvCount(s, i, 1, Holding(PhaseOf(s, i).cell));
    case ReleaseLookup(i) => InvMove(s, i, PhaseOf(Apply(s, limit, lag, step), i));
    case Sub(i) => InvCount(s, i, -1, Finished);
  }

  lemma {:induction false} InvStep(s: State, limit: map<string, int>, lag: nat, step: Step)
    requires Inv(s) && lag <= DAY && Enabled(s, limit, lag, step)
    ensures Inv(Apply(s, limit, lag, step))
  {
    match step
    case Tick(ns) => InvTick(s, ns);
    case Arrive(h) => InvArrive(s, h);
    case AllowLookup(i) => InvLookup(s, i, false);
    case AcquireLookup(i) => InvLookup(s, i, true);
    case CollectRead(h) => InvRead(s, h);
    case CollectDrop => InvDrop(s);
    case _ => InvOwnStep(s, limit, lag, step);
  }

  lemma {:induction false} InvRun(limit: map<string, int>, lag: nat, steps: seq<Step>)
    requires Possible(limit, lag, steps) && lag <= DAY
    ensures Inv(Exec(limit, lag, steps))
  {
    if steps != [] {
      InvRun(limit, lag, steps[..|steps| - 1]);
      InvStep(Exec(limit, lag, steps[..|steps| - 1]), limit, lag, steps[|steps| - 1]);
    }
  }

  /** Main result: whatever the interleaving, a token's counter is the number of its requests that have
      acquired and not released, and no bucket with such a request is ever dropped. */
  lemma {:induction false} CounterIsHolders(limit: map<string, int>, lag: nat, steps: seq<Step>, h: string)
    requires Possible(limit, lag, steps) && lag <= DAY
    ensures
      var s := Exec(limit, lag, steps);
      && (h in s.buckets ==> s.buckets[h] < |s.cells| && s.cells[s.buckets[h]].parallel == Holders(s.requests, h))
      && (Holders(s.requests, h) > 0 ==> h in s.buckets && h !in s.dropping)
      && forall i :: 0 <= i < |s.requests| && Holds(s.requests[i], h) ==>
           h in s.buckets && s.requests[i].phase.cell == s.buckets[h]
  {
    InvRun(limit, lag, steps);
    var s := Exec(limit, lag, steps);
    forall i | 0 <= i < |s.requests| && Holds(s.requests[i], h)
      ensures h in s.buckets && s.requests[i].phase.cell == s.buckets[h]
    {
      assert Anchored(s, s.requests[i]);
    }
  }

  // ---------- How far the limit can be overrun ----------

  /** At no time do more than k requests of `h` sit between the check in Allow and the counter. */
  predicate AtMostBetween(limit: map<string, int>, lag: nat, steps: seq<Step>, h: string, k: nat)
    requires Possible(limit, lag, steps)
  {
    && Betweens(Exec(limit, lag, steps).requests, h) <= k
    && (steps != [] ==> AtMostBetween(limit, lag, steps[..|steps| - 1], h, k))
  }

  /** Every step but a passed check leaves the sum of both groups as it was, or lower. */
  lemma {:induction false} SumStep(s: State, limit: map<string, int>, lag: nat, step: Step, h: string)
    requires Enabled(s, limit, lag, step)
    ensures
      var s' := Apply(s, limit, lag, step);
      var passed := step.AllowCheck? && s.requests[step.i].hash == h && PhaseOf(s', step.i).Passed?;
      && Holders(s'.requests, h) + Betweens(s'.requests, h)
           <= Holders(s.requests, h) + Betweens(s.requests, h) + (if passed then 1 else 0)
      && (passed ==> Holders(s'.requests, h) == Holders(s.requests, h))
  {
    var s' := Apply(s, limit, lag, step);
    if step.Arrive? {
      CountsAppend(s.requests, Request(step.hash, Arrived), h);
    } else if !step.Tick? && !step.CollectRead? && !step.CollectDrop? {
      var i := step.i;
      assert s'.requests == s.requests[i := s'.requests[i]];
      CountsUpdate(s.requests, i, s'.requests[i], h);
    }
  }

  lemma {:induction false} SumRun(limit: map<string, int>, lag: nat, steps: seq<Step>, h: string, k: nat)
    requires Possible(limit, lag, steps) && lag <= DAY && AtMostBetween(limit, lag, steps, h, k)
    requires h in limit && limit[h] > 0 && k > 0
    ensures var s := Exec(limit, lag, steps); Holders(s.requests, h) + Betweens(s.requests, h) <= limit[h] + k - 1
  {
    if steps != [] {
      var front, step := steps[..|steps| - 1], steps[|steps| - 1];
      SumRun(limit, lag, front, h, k);
      var s := Exec(limit, lag, front);
      SumStep(s, limit, lag, step, h);
      if step.AllowCheck? && s.requests[step.i].hash == h {
        InvRun(limit, lag, front);
        assert Anchored(s, s.requests[step.i]);
      }
    }
  }

  /** Main result: if at most k requests of a token sit between the check in Allow and the counter at any
      time, its counter never exceeds max_parallel + k - 1. */
  lemma {:induction false} CrowdBound(limit: map<string, int>, lag: nat, steps: seq<Step>, h: string, k: nat)
    requires Possible(limit, lag, steps) && lag <= DAY && AtMostBetween(limit, lag, steps, h, k)
    requires h in limit && limit[h] > 0 && k > 0
    ensures var s := Exec(limit, lag, steps);
      h in s.buckets ==> s.buckets[h] < |s.cells| && s.cells[s.buckets[h]].parallel <= limit[h] + k - 1
  {
    SumRun(limit, lag, steps, h, k);
    CounterIsHolders(limit, lag, steps, h);
  }

  // ---------- The bounds are exact ----------

  lemma {:induction false} Extend(limit: map<string, int>, lag: nat, steps: seq<Step>, step: Step, s: State)
    requires Possible(limit, lag, steps) && Exec(limit, lag, steps) == s && Enabled(s, limit, lag, step)
    ensures Possible(limit, lag, steps + [step])
    ensures Exec(limit, lag, steps + [step]) == Apply(s, limit, lag, step)
  {
    assert (steps + [step])[..|steps + [step]| - 1] == steps;
  }

  const ONE: map<string, int> := map["t" := 1]

  /** A request gets through Allow and has its bucket at hand in Acquire. */
  lemma {:induction false} ReachAdding(lag: nat) returns (steps: seq<Step>)
    ensures Possible(ONE, lag, steps)
    ensures Exec(ONE, lag, steps) == State(DAY, map["t" := 0], [Cell("t", 0, DAY)], [Request("t", Adding(0, DAY))], [])
  {
    var s0 := START;
    Extend(ONE, lag, [], Arrive("t"), s0);
    var s1 := Apply(s0, ONE, lag, Arrive("t"));
    Extend(ONE, lag, [] + [Arrive("t")], AllowLookup(0), s1);
    var s2 := Apply(s1, ONE, lag, AllowLookup(0));
    Extend(ONE, lag, [] + [Arrive("t")] + [AllowLookup(0)], AllowCheck(0), s2);
    var s3 := Apply(s2, ONE, lag, AllowCheck(0));
    steps := [] + [Arrive("t")] + [AllowLookup(0)] + [AllowCheck(0)];
    Extend(ONE, lag, steps, AcquireLookup(0), s3);
    steps := steps + [AcquireLookup(0)];
  }

  /** The request then sits on its bucket for just longer than a day, and the collector drops the bucket. */
  lemma {:induction false} ReachDropped(lag: nat) returns (steps: seq<Step>)
    ensures Possible(ONE, lag, steps)
    ensures Exec(ONE, lag, steps) == State(DAY + DAY + 1, map[], [Cell("t", 0, DAY)], [Request("t", Adding(0, DAY))], [])
  {
    var start := ReachAdding(lag);
    var s0 := State(DAY, map["t" := 0], [Cell("t", 0, DAY)], [Request("t", Adding(0, DAY))], []);
    Extend(ONE, lag, start, Tick(DAY + 1), s0);
    var s1 := s0.(now := DAY + DAY + 1);
    var run1 := start + [Tick(DAY + 1)];
    Extend(ONE, lag, run1, CollectRead("t"), s1);
    var s2 := s1.(dropping := ["t"]);
    var run2 := run1 + [CollectRead("t")];
    Extend(ONE, lag, run2, CollectDrop, s2);
    steps := run2 + [CollectDrop];
  }

  /** The counter that then goes up belongs to nobody. */
  lemma {:induction false} CounterLost(lag: nat) returns (steps: seq<Step>)
    requires lag > DAY
    ensures Possible(ONE, lag, steps) && !Exact(Exec(ONE, lag, steps))
  {
    steps := ReachDropped(lag);
    var s := State(DAY + DAY + 1, map[], [Cell("t", 0, DAY)], [Request("t", Adding(0, DAY))], []);
    Extend(ONE, lag, steps, Add(0), s);
    steps := steps + [Add(0)];
    var s' := Apply(s, ONE, lag, Add(0));
    assert s'.requests == [Request("t", Holding(0))] && "t" !in s'.buckets;
    assert [Request("t", Holding(0))][..0] == [];
    assert Holders(s'.requests, "t") == 1;
  }

  ghost predicate AlwaysExact(lag: nat) {
    forall limit: map<string, int>, steps: seq<Step> :: Possible(limit, lag, steps) ==> Exact(Exec(limit, lag, steps))
  }

  /** The counters are right in every interleaving exactly when no request sits for longer than a day on a
      bucket it looked up. */
  lemma {:induction false} ExactWithinADay(lag: nat)
    ensures AlwaysExact(lag) <==> lag <= DAY
  {
    if lag <= DAY {
      forall limit: map<string, int>, steps: seq<Step> | Possible(limit, lag, steps)
        ensures Exact(Exec(limit, lag, steps))
      {
        InvRun(limit, lag, steps);
      }
    } else {
      var steps := CounterLost(lag);
    }
  }

  /** One token with limit `max`; `a` requests hold and `b` more are about to raise its counter. */
  function Only(max: int): map<string, int> {
    map["t" := max]
  }

  function Queue(a: nat, b: nat): (rs: seq<Request>)
    ensures |rs| == a + b
  {
    seq(a + b, i => Request("t", if i < a then Holding(0) else Adding(0, DAY)))
  }

  function Crowd(a: nat, b: nat): State {
    if a + b == 0 then START
    else State(DAY, map["t" := 0], [Cell("t", a, DAY)], Queue(a, b), [])
  }

  lemma {:induction false} QueueCounts(a: nat, b: nat)
    ensures Betweens(Queue(a, b), "t") == b
  {
    if a + b > 0 {
      var front := Queue(a, b)[..a + b - 1];
      if b > 0 {
        assert front == Queue(a, b - 1);
        QueueCounts(a, b - 1);
      } else {
        assert front == Queue(a - 1, 0);
        QueueCounts(a - 1, 0);
      }
    }
  }

  predicate Reaches(max: int, k: nat, steps: seq<Step>, s: State) {
    && Possible(Only(max), 0, steps)
    && Exec(Only(max), 0, steps) == s
    && AtMostBetween(Only(max), 0, steps, "t", k)
  }

  lemma {:induction false} ExtendReaches(max: int, k: nat, steps: seq<Step>, s: State, step: Step, s': State)
    requires Reaches(max, k, steps, s) && Enabled(s, Only(max), 0, step) && s' == Apply(s, Only(max), 0, step)
    requires Betweens(s'.requests, "t") <= k
    ensures Reaches(max, k, steps + [step], s')
  {
    Extend(Only(max), 0, steps, step, s);
    assert (steps + [step])[..|steps + [step]| - 1] == steps;
  }

  /** The crowd and one newcomer. */
  function With(a: nat, b: nat, phase: Phase): State {
    Crowd(a, b).(requests := Queue(a, b) + [Request("t", phase)])
  }

  /** ... once it has looked the bucket up, and so made sure there is one. */
  function WithIn(a: nat, b: nat, phase: Phase): State {
    State(DAY, map["t" := 0], [Cell("t", a, DAY)], Queue(a, b) + [Request("t", phase)], [])
  }

  lemma {:induction false} NewcomerCounts(a: nat, b: nat, phase: Phase)
    ensures Betweens(Queue(a, b) + [Request("t", phase)], "t") == b + (if phase.Passed? || phase.Adding? then 1 else 0)
  {
    QueueCounts(a, b);
    CountsAppend(Queue(a, b), Request("t", phase), "t");
  }

  lemma {:induction false} NewcomerArrives(max: int, k: nat, steps: seq<Step>, a: nat, b: nat)
    requires Reaches(max, k, steps, Crowd(a, b)) && max > 0 && b <= k
    ensures Reaches(max, k, steps + [Arrive("t")], With(a, b, Arrived))
  {
    NewcomerCounts(a, b, Arrived);
    ExtendReaches(max, k, steps, Crowd(a, b), Arrive("t"), With(a, b, Arrived));
  }

  lemma {:induction false} LookingStep(max: int, a: nat, b: nat)
    ensures Enabled(With(a, b, Arrived), Only(max), 0, AllowLookup(a + b))
    ensures Apply(With(a, b, Arrived), Only(max), 0, AllowLookup(a + b)) == WithIn(a, b, Looking(0, DAY))
  {
    var s, rs := With(a, b, Arrived), Queue(a, b);
    assert s.requests[a + b] == Request("t", Arrived);
    assert s.requests[a + b := Request("t", Looking(0, DAY))] == rs + [Request("t", Looking(0, DAY))];
    assert Lookup(s, "t") == WithIn(a, b, Arrived) by {
      if a + b > 0 {
        assert [Cell("t", a, DAY)][0 := Cell("t", a, DAY)] == [Cell("t", a, DAY)];
      }
    }
  }

  lemma {:induction false} NewcomerLooks(max: int, k: nat, steps: seq<Step>, a: nat, b: nat)
    requires Reaches(max, k, steps, With(a, b, Arrived)) && b <= k
    ensures Reaches(max, k, steps + [AllowLookup(a + b)], WithIn(a, b, Looking(0, DAY)))
  {
    NewcomerCounts(a, b, Looking(0, DAY));
    LookingStep(max, a, b);
    ExtendReaches(max, k, steps, With(a, b, Arrived), AllowLookup(a + b), WithIn(a, b, Looking(0, DAY)));
  }

  lemma {:induction false} NewcomerPasses(max: int, k: nat, steps: seq<Step>, a: nat, b: nat)
    requires Reaches(max, k, steps, WithIn(a, b, Looking(0, DAY))) && a < max && b < k
    ensures Reaches(max, k, steps + [AllowCheck(a + b)], WithIn(a, b, Passed))
  {
    NewcomerCounts(a, b, Passed);
    var s := WithIn(a, b, Looking(0, DAY));
    assert s.requests[a + b := Request("t", Passed)] == Queue(a, b) + [Request("t", Passed)];
    ExtendReaches(max, k, steps, s, AllowCheck(a + b), WithIn(a, b, Passed));
  }

  lemma {:induction false} NewcomerWaits(max: int, k: nat, steps: seq<Step>, a: nat, b: nat)
    requires Reaches(max, k, steps, WithIn(a, b, Passed)) && b < k
    ensures Reaches(max, k, steps + [AcquireLookup(a + b)], Crowd(a, b + 1))
  {
    QueueCounts(a, b + 1);
    var s := WithIn(a, b, Passed);
    assert s.requests[a + b := Request("t", Adding(0, DAY))] == Queue(a, b + 1);
    assert Lookup(s, "t") == s;
    ExtendReaches(max, k, steps, s, AcquireLookup(a + b), Crowd(a, b + 1));
  }

  /** One more request arrives, finds the counter below the limit, and is about to raise it. */
  lemma {:induction false} OneMoreWaits(max: int, k: nat, steps: seq<Step>, a: nat, b: nat) returns (steps': seq<Step>)
    requires Reaches(max, k, steps, Crowd(a, b)) && a < max && b < k
    ensures Reaches(max, k, steps', Crowd(a, b + 1))
  {
    NewcomerArrives(max, k, steps, a, b);
    var steps1 := steps + [Arrive("t")];
    NewcomerLooks(max, k, steps1, a, b);
    var steps2 := steps1 + [AllowLookup(a + b)];
    NewcomerPasses(max, k, steps2, a, b);
    var steps3 := steps2 + [AllowCheck(a + b)];
    NewcomerWaits(max, k, steps3, a, b);
    steps' := steps3 + [AcquireLookup(a + b)];
  }

  lemma {:induction false} HoldingStep(max: int, a: nat, b: nat)
    ensures Enabled(Crowd(a, b + 1), Only(max), 0, Add(a))
    ensures Apply(Crowd(a, b + 1), Only(max), 0, Add(a)) == Crowd(a + 1, b)
  {
    var s := Crowd(a, b + 1);
    assert s.requests[a] == Request("t", Adding(0, DAY));
    assert Queue(a, b + 1)[a := Request("t", Holding(0))] == Queue(a + 1, b);
    assert [Cell("t", a, DAY)][0 := Cell("t", a + 1, DAY)] == [Cell("t", a + 1, DAY)];
  }

  lemma {:induction false} OneMoreHolds(max: int, k: nat, steps: seq<Step>, a: nat, b: nat) returns (steps': seq<Step>)
    requires Reaches(max, k, steps, Crowd(a, b + 1)) && b <= k
    ensures Reaches(max, k, steps', Crowd(a + 1, b))
  {
    QueueCounts(a + 1, b);
    HoldingStep(max, a, b);
    ExtendReaches(max, k, steps, Crowd(a, b + 1), Add(a), Crowd(a + 1, b));
    steps' := steps + [Add(a)];
  }

  /** The bound max_parallel + k - 1 is reached: fill up to one below the limit, let k requests pass the
      check, then let all of them raise the counter. */
  lemma {:induction false} CrowdBoundReached(max: int, k: nat) returns (steps: seq<Step>)
    requires max > 0 && k > 0
    ensures Possible(Only(max), 0, steps) && AtMostBetween(Only(max), 0, steps, "t", k)
    ensures var s := Exec(Only(max), 0, steps);
      "t" in s.buckets && s.buckets["t"] < |s.cells| && s.cells[s.buckets["t"]].parallel == max + k - 1
  {
    steps := [];
    var a, b := 0, 0;
    while a < max - 1
      invariant a <= max - 1 && Reaches(max, k, steps, Crowd(a, 0))
    {
      steps := OneMoreWaits(max, k, steps, a, 0);
      steps := OneMoreHolds(max, k, steps, a, 0);
      a := a + 1;
    }
    while b < k
      invariant b <= k && Reaches(max, k, steps, Crowd(a, b))
    {
      steps := OneMoreWaits(max, k, steps, a, b);
      b := b + 1;
    }
    while b > 0
      invariant 0 <= b && a + b == max + k - 1 && b <= k && Reaches(max, k, steps, Crowd(a, b))
    {
      steps := OneMoreHolds(max, k, steps, a, b - 1);
      a, b := a + 1, b - 1;
    }
  }
}
