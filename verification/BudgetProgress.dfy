/** That the budget steps come to an end, and refuse nobody who fits. */
module BudgetProgress {
  import opened Budget

  // ---------- A reservation that fits is granted ----------

  /** What a request has read is no more than what is counted now: only outputs came since. */
  predicate ReadBelow(s: State) {
    forall i :: 0 <= i < |s.requests| && s.requests[i].phase.Read? ==>
      s.requests[i].phase.usage <= UsageOf(s, s.requests[i].hash)
  }

  lemma {:induction false} ReadBelowStep(s: State, limits: map<string, int>, step: Step)
    requires Enabled(s, limits, step) && MutexHeld(s) && ReadBelow(s)
    ensures ReadBelow(Apply(s, limits, step))
  {
    var s' := Apply(s, limits, step);
    forall i | 0 <= i < |s'.requests| && s'.requests[i].phase.Read?
      ensures s'.requests[i].phase.usage <= UsageOf(s', s'.requests[i].hash)
    {
      if !(step.ReadUsage? && step.i == i) {
        StillReading(s, limits, step, i);
        if step.TakeOut? {
          OneHolder(s, i, step.i);
        }
      }
    }
  }

  lemma {:induction false} ReadBelowRun(limits: map<string, int>, steps: seq<Step>)
    requires Possible(limits, steps)
    ensures ReadBelow(Exec(limits, steps))
  {
    if steps != [] {
      var n := |steps| - 1;
      ReadBelowRun(limits, steps[..n]);
      InvRun(limits, steps[..n]);
      ReadBelowStep(Exec(limits, steps[..n]), limits, steps[n]);
    }
  }

  /** Main result: in every interleaving, the comparison grants a reservation exactly if what was read leaves room for
      it; and it never refuses one that fits into the limit at that moment, though the reading may be old. */
  lemma {:induction false} FittingIsGranted(limits: map<string, int>, steps: seq<Step>, i: nat)
    requires Possible(limits, steps + [Compare(i)])
    ensures Possible(limits, steps) && i < |Exec(limits, steps).requests|
    ensures
      var s, t := Exec(limits, steps), Exec(limits, steps + [Compare(i)]);
      var r := s.requests[i];
      && r.phase.Read? && r.hash in limits && limits[r.hash] > 0
      && (t.requests[i].phase == Reserved <==> r.phase.usage + r.input <= limits[r.hash])
      && (t.requests[i].phase == Reserved || t.requests[i].phase == Refused)
      && (UsageOf(s, r.hash) + r.input <= limits[r.hash] ==> t.requests[i].phase == Reserved)
  {
    assert (steps + [Compare(i)])[..|steps|] == steps;
    ReadBelowRun(limits, steps);
    InvRun(limits, steps);
    assert Tidy(Exec(limits, steps).requests[i], limits);
  }

  // ---------- Every request finishes ----------

  /** The most steps a request can still take. */
  function Ahead(p: Phase): nat {
    match p
    case Done => 0
    case Settled => 1
    case Returned => 2
    case Returning => 3
    case Leaving => 4
    case Responding => 5
    case Refused => 5
    case Calling => 6
    case Reserved => 7
    case Read(_) => 8
    case Locked => 9
    case Admitted => 10
    case Arrived => 11
  }

  function AllAhead(rs: seq<Request>): nat {
    if rs == [] then 0 else AllAhead(rs[..|rs| - 1]) + Ahead(rs[|rs| - 1].phase)
  }

  lemma {:induction false} AheadUpdate(rs: seq<Request>, i: nat, r: Request)
    requires i < |rs|
    ensures AllAhead(rs[i := r]) == AllAhead(rs) - Ahead(rs[i].phase) + Ahead(r.phase)
  {
    var n := |rs| - 1;
    if i == n {
      assert rs[i := r][..n] == rs[..n];
    } else {
      assert rs[i := r][..n] == rs[..n][i := r];
      AheadUpdate(rs[..n], i, r);
    }
  }

  lemma {:induction false} MovesOn(s: State, limits: map<string, int>, step: Step)
    requires Enabled(s, limits, step) && !step.Arrive?
    ensures Ahead(Moved(s, limits, step, s.requests[step.i]).phase) < Ahead(s.requests[step.i].phase)
    ensures Apply(s, limits, step).requests == s.requests[step.i := Moved(s, limits, step, s.requests[step.i])]
  {
  }

  lemma {:induction false} AheadStep(s: State, limits: map<string, int>, step: Step)
    requires Enabled(s, limits, step)
    ensures
      var s' := Apply(s, limits, step);
      if step.Arrive? then AllAhead(s'.requests) == AllAhead(s.requests) + 11 && |s'.requests| == |s.requests| + 1
      else AllAhead(s'.requests) < AllAhead(s.requests) && |s'.requests| == |s.requests|
  {
    if step.Arrive? {
      assert Apply(s, limits, step).requests[..|s.requests|] == s.requests;
    } else {
      MovesOn(s, limits, step);
      AheadUpdate(s.requests, step.i, Moved(s, limits, step, s.requests[step.i]));
    }
  }

  /** Main result: a run takes at most twelve steps for each request that arrives in it. */
  lemma {:induction false} RunsEnd(limits: map<string, int>, steps: seq<Step>)
    requires Possible(limits, steps)
    ensures |steps| + AllAhead(Exec(limits, steps).requests) <= 12 * |Exec(limits, steps).requests|
  {
    if steps != [] {
      var n := |steps| - 1;
      RunsEnd(limits, steps[..n]);
      AheadStep(Exec(limits, steps[..n]), limits, steps[n]);
    }
  }

  /** The step of the request that has the mutex. */
  function HolderStep(r: Request, i: nat): Step
    requires HasMutex(r)
  {
    match r.phase
    case Locked => ReadUsage(i)
    case Read(_) => Compare(i)
    case Returning => TakeOut(i)
    case Returned => UnlockReturn(i)
    case _ => Unlock(i)
  }

  lemma {:induction false} HolderMoves(s: State, limits: map<string, int>)
    requires MutexHeld(s) && s.mutex != []
    ensures
      var i := s.mutex[0];
      i < |s.requests| && HasMutex(s.requests[i]) && Enabled(s, limits, HolderStep(s.requests[i], i))
  {
    assert s.mutex[0] in s.mutex;
  }

  /** A step of the request itself, if it does not have to wait for the mutex. */
  function OwnStep(s: State, limits: map<string, int>, i: nat): Step
    requires i < |s.requests|
  {
    var r := s.requests[i];
    match r.phase
    case Arrived => Acquire(i)
    case Admitted => if Limit(limits, r.hash) > 0 then Lock(i) else SkipBudget(i)
    case Calling => EndLoops(i, Budget.Retry.Aborted)
    case Responding => CountOutput(i, 0)
    case Leaving => if MustReturn(r) then LockReturn(i) else SkipReturn(i)
    case _ => Release(i)
  }

  lemma {:induction false} OwnMoves(s: State, limits: map<string, int>, i: nat)
    requires i < |s.requests| && s.requests[i].phase != Done && !HasMutex(s.requests[i]) && s.mutex == []
    ensures
      var step := OwnStep(s, limits, i);
      !step.Arrive? && !step.Refuse? && Enabled(s, limits, step)
  {
  }

  /** Main result: in every interleaving, while a request is not done some request can take a step, without any being
      refused or new ones arriving; so every request finishes. */
  lemma {:induction false} NeverStuck(limits: map<string, int>, steps: seq<Step>, i: nat)
    requires Possible(limits, steps)
    requires i < |Exec(limits, steps).requests| && Exec(limits, steps).requests[i].phase != Done
    ensures exists step: Step :: !step.Arrive? && !step.Refuse? && Enabled(Exec(limits, steps), limits, step)
  {
    InvRun(limits, steps);
    var s := Exec(limits, steps);
    if s.mutex != [] {
      HolderMoves(s, limits);
    } else {
      OwnMoves(s, limits, i);
    }
  }
}
