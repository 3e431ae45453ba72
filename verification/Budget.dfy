/** The life of chat requests under every interleaving: admission, the reservation of input tokens under
    `budgetMu`, upstream calls, output tokens added outside `budgetMu`, and the deferred clean-up.

    Each field a request carries is a local variable of `handleChatCompletions` (`reservedInput`,
    `committedInput`) or a count of what it did (`acquired`, `released`, `given`, `returned`, `output`);
    `held` is how much of the usage counter is this request's input at the moment, and `ending` how the retry and
    fallback loops ended, if they did. */
module Budget {
  import opened Basics
  import Retry

  datatype Phase =
    | Arrived                    // Allow said yes
    | Admitted                   // the parallel counter is raised and its release deferred
    | Locked                     // reserveInputBudget has the mutex
    | Read(usage: int)           // ... and has read the counter
    | Reserved                   // ... and has added the input
    | Refused                    // ... or found it does not fit
    | Calling                    // in the retry and fallback loops
    | Responding                 // an upstream response was accepted
    | Leaving                    // returning: the deferred functions run, last deferred first
    | Returning                  // releaseReservedInputBudget has the mutex
    | Returned                   // ... and has taken the input out
    | Settled                    // the release of the reservation is done with
    | Done

  datatype Request = Request(
    hash: string, input: nat, phase: Phase,
    reservedInput: int, committedInput: bool,
    held: int, output: int, ending: Option<Retry.Ending>,
    acquired: nat, released: nat, given: nat, returned: nat)

  datatype State = State(usage: map<string, int>, mutex: seq<nat>, requests: seq<Request>)

  const START: State := State(map[], [], [])

  datatype Step =
    | Arrive(hash: string, input: nat)
    | Acquire(i: nat)
    | Refuse(i: nat)             // the model or a content rule forbids the request
    | SkipBudget(i: nat)         // the token has no limit
    | Lock(i: nat)
    | ReadUsage(i: nat)
    | Compare(i: nat)            // add, or refuse
    | Unlock(i: nat)
    | EndLoops(i: nat, ending: Retry.Ending)   // a response accepted, an early return, or every attempt used up
    | CountOutput(i: nat, n: nat)
    | Leave(i: nat)              // the response could not be read
    | SkipReturn(i: nat)         // nothing reserved, or committed
    | LockReturn(i: nat)
    | TakeOut(i: nat)
    | UnlockReturn(i: nat)
    | Release(i: nat)

  function UsageOf(s: State, h: string): int {
    if h in s.usage then s.usage[h] else 0
  }

  predicate In(s: State, i: nat, phase: Phase) {
    i < |s.requests| && s.requests[i].phase == phase
  }

  function Limit(limits: map<string, int>, h: string): int {
    if h in limits then limits[h] else 0
  }

  predicate MustReturn(r: Request) {
    r.reservedInput > 0 && !r.committedInput
  }

  predicate Enabled(s: State, limits: map<string, int>, step: Step) {
    match step
    case Arrive(h, input) => true
    case Acquire(i) => In(s, i, Arrived)
    case Refuse(i) => In(s, i, Admitted)
    case SkipBudget(i) => In(s, i, Admitted) && Limit(limits, s.requests[i].hash) <= 0
    case Lock(i) => In(s, i, Admitted) && Limit(limits, s.requests[i].hash) > 0 && s.mutex == []
    case ReadUsage(i) => In(s, i, Locked)
    case Compare(i) => i < |s.requests| && s.requests[i].phase.Read?
    case Unlock(i) => In(s, i, Reserved) || In(s, i, Refused)
    case EndLoops(i, _) => In(s, i, Calling)
    case CountOutput(i, n) => In(s, i, Responding)
    case Leave(i) => In(s, i, Responding)
    case SkipReturn(i) => In(s, i, Leaving) && !MustReturn(s.requests[i])
    case LockReturn(i) => In(s, i, Leaving) && MustReturn(s.requests[i]) && s.mutex == []
    case TakeOut(i) => In(s, i, Returning)
    case UnlockReturn(i) => In(s, i, Returned)
    case Release(i) => In(s, i, Settled)
  }

  function With(s: State, i: nat, r: Request): State
    requires i < |s.requests|
  {
    s.(requests := s.requests[i := r])
  }

  /** `AddUsage`. */
  function Added(s: State, h: string, n: int): State {
    s.(usage := s.usage[h := UsageOf(s, h) + n])
  }

  /** What a request becomes by its own step; the rest of the state follows in Apply. */
  function Moved(s: State, limits: map<string, int>, step: Step, r: Request): Request {
    match step
    case Arrive(_, _) => r
    case Acquire(_) => r.(phase := Admitted, acquired := r.acquired + 1)
    case Refuse(_) => r.(phase := Leaving)
    case SkipBudget(_) => r.(phase := Calling)
    case Lock(_) => r.(phase := Locked)
    case ReadUsage(_) => r.(phase := Read(UsageOf(s, r.hash)))
    case Compare(_) =>
      if !r.phase.Read? then r
      else if r.phase.usage + r.input > Limit(limits, r.hash) then r.(phase := Refused)
      else if r.input > 0 then r.(phase := Reserved, held := r.held + r.input, given := r.given + 1)
      else r.(phase := Reserved)
    case Unlock(_) =>
      if r.phase == Reserved then r.(phase := Calling, reservedInput := r.input) else r.(phase := Leaving)
    case EndLoops(_, ending) =>
      if ending.Accepted? then r.(phase := Responding, committedInput := true, ending := Some(ending))
      else r.(phase := Leaving, ending := Some(ending))
    case CountOutput(_, n) => r.(phase := Leaving, output := r.output + n)
    case Leave(_) => r.(phase := Leaving)
    case SkipReturn(_) => r.(phase := Settled)
    case LockReturn(_) => r.(phase := Returning)
    case TakeOut(_) => r.(phase := Returned, held := r.held - r.reservedInput, returned := r.returned + 1)
    case UnlockReturn(_) => r.(phase := Settled)
    case Release(_) => r.(phase := Done, released := r.released + 1)
  }

  function Apply(s: State, limits: map<string, int>, step: Step): State
    requires Enabled(s, limits, step)
  {
    match step
    case Arrive(h, input) =>
      s.(requests := s.requests + [Request(h, input, Arrived, 0, false, 0, 0, None, 0, 0, 0, 0)])
    case _ =>
      var r := s.requests[step.i];
      var r' := Moved(s, limits, step, r);
      var t := With(s, step.i, r');
      match step
      case Lock(i) => t.(mutex := [i])
      case LockReturn(i) => t.(mutex := [i])
      case Unlock(i) => t.(mutex := [])
      case UnlockReturn(i) => t.(mutex := [])
      case Compare(i) => if r'.phase == Reserved && r.input > 0 then Added(t, r.hash, r.input) else t
      case CountOutput(i, n) => if n > 0 then Added(t, r.hash, n) else t
      case TakeOut(i) => Added(t, r.hash, -r.reservedInput)
      case _ => t
  }

  predicate Possible(limits: map<string, int>, steps: seq<Step>)
    decreases |steps|, 0
  {
    steps == []
    || (Possible(limits, steps[..|steps| - 1])
        && Enabled(Exec(limits, steps[..|steps| - 1]), limits, steps[|steps| - 1]))
  }

  function Exec(limits: map<string, int>, steps: seq<Step>): State
    requires Possible(limits, steps)
    decreases |steps|, 1
  {
    if steps == [] then START
    else Apply(Exec(limits, steps[..|steps| - 1]), limits, steps[|steps| - 1])
  }

  // ---------- Sums over the requests of a token ----------

  /** Input tokens of `h` reserved or committed. */
  function Held(rs: seq<Request>, h: string): int {
    if rs == [] then 0
    else Held(rs[..|rs| - 1], h) + (if rs[|rs| - 1].hash == h then rs[|rs| - 1].held else 0)
  }

  function Output(rs: seq<Request>, h: string): int {
    if rs == [] then 0
    else Output(rs[..|rs| - 1], h) + (if rs[|rs| - 1].hash == h then rs[|rs| - 1].output else 0)
  }

  lemma {:induction false} SumsUpdate(rs: seq<Request>, i: nat, r: Request, h: string)
    requires i < |rs| && r.hash == rs[i].hash
    ensures Held(rs[i := r], h) == Held(rs, h) + (if r.hash == h then r.held - rs[i].held else 0)
    ensures Output(rs[i := r], h) == Output(rs, h) + (if r.hash == h then r.output - rs[i].output else 0)
  {
    var n := |rs| - 1;
    if i == n {
      assert rs[i := r][..n] == rs[..n];
    } else {
      assert rs[i := r][..n] == rs[..n][i := r];
      SumsUpdate(rs[..n], i, r, h);
    }
  }

  lemma {:induction false} SumsAppend(rs: seq<Request>, r: Request, h: string)
    ensures Held(rs + [r], h) == Held(rs, h) + (if r.hash == h then r.held else 0)
    ensures Output(rs + [r], h) == Output(rs, h) + (if r.hash == h then r.output else 0)
  {
    assert (rs + [r])[..|rs + [r]| - 1] == rs;
  }

  lemma {:induction false} OutputNonNegative(rs: seq<Request>, h: string)
    requires forall i :: 0 <= i < |rs| ==> rs[i].output >= 0
    ensures Output(rs, h) >= 0
  {
    if rs != [] {
      OutputNonNegative(rs[..|rs| - 1], h);
    }
  }

  // ---------- The invariant ----------

  /** The loops accepted an upstream response. */
  predicate Accepted(r: Request) {
    r.ending.Some? && r.ending.value.Accepted?
  }

  /** What a request has done by the time it is in its phase. */
  predicate Tidy(r: Request, limits: map<string, int>) {
    var counted := if r.input > 0 then 1 else 0;
    && r.output >= 0
    && (match r.phase
        case Arrived => r.acquired == 0
        case _ => r.acquired == 1)
    && r.released == (if r.phase == Done then 1 else 0)
    && (r.phase in {Arrived, Admitted, Locked, Refused} || r.phase.Read? ==>
          r.held == 0 && r.reservedInput == 0 && !r.committedInput && r.given == 0 && r.returned == 0 && r.output == 0)
    && (r.phase in {Locked, Reserved, Refused} || r.phase.Read? ==> Limit(limits, r.hash) > 0)
    && (r.phase == Reserved ==>
          r.held == r.input && r.reservedInput == 0 && !r.committedInput && r.given == counted && r.returned == 0 && r.output == 0)
    && (r.phase in {Calling, Responding, Leaving} ==>
          r.held == r.reservedInput && r.reservedInput in {0, r.input as int}
          && r.given == (if r.reservedInput > 0 then 1 else 0) && r.returned == 0)
    && (r.phase == Calling ==> !r.committedInput && (Limit(limits, r.hash) > 0 ==> r.reservedInput == r.input))
    && (r.phase == Responding ==> r.committedInput)
    && (r.committedInput <==> Accepted(r))
    && (r.phase == Returning ==>
          !r.committedInput && r.held == r.reservedInput > 0 && r.given == 1 && r.returned == 0)
    && (r.phase == Returned ==>
          !r.committedInput && r.held == 0 && r.reservedInput > 0 && r.given == 1 && r.returned == 1)
    && (r.phase in {Settled, Done} ==> Kept(r))
    && (r.committedInput && Limit(limits, r.hash) > 0 ==> r.held == r.input)
    && (Limit(limits, r.hash) <= 0 ==> r.held == 0 && r.reservedInput == 0)
    && (!r.committedInput ==> r.output == 0)
  }

  /** Settled: a reservation was kept if a response was accepted and given back once if not. */
  predicate Kept(r: Request) {
    && r.given == (if r.reservedInput > 0 then 1 else 0)
    && r.returned == (if r.reservedInput > 0 && !r.committedInput then 1 else 0)
    && r.held == (if r.committedInput then r.reservedInput else 0)
  }

  predicate HasMutex(r: Request) {
    r.phase in {Locked, Reserved, Refused, Returning, Returned} || r.phase.Read?
  }

  predicate MutexHeld(s: State) {
    && |s.mutex| <= 1
    && (forall i :: i in s.mutex ==> i < |s.requests|)
    && forall i :: 0 <= i < |s.requests| ==> (HasMutex(s.requests[i]) <==> i in s.mutex)
  }

  ghost predicate Balanced(s: State) {
    forall h: string :: UsageOf(s, h) == Held(s.requests, h) + Output(s.requests, h)
  }

  ghost predicate WithinLimit(s: State, limits: map<string, int>) {
    forall h: string :: Limit(limits, h) > 0 ==> Held(s.requests, h) <= Limit(limits, h)
  }

  /** A reading of the counter taken under the mutex still covers all input held: only outputs came since. */
  predicate ReadCovers(s: State) {
    forall i :: 0 <= i < |s.requests| && s.requests[i].phase.Read? ==>
      Held(s.requests, s.requests[i].hash) <= s.requests[i].phase.usage
  }

  ghost predicate Inv(s: State, limits: map<string, int>) {
    && (forall i :: 0 <= i < |s.requests| ==> Tidy(s.requests[i], limits))
    && MutexHeld(s) && Balanced(s) && WithinLimit(s, limits) && ReadCovers(s)
  }

  /** A request's own record stays tidy. */
  lemma {:induction false} TidyStep(s: State, limits: map<string, int>, step: Step)
    requires Enabled(s, limits, step) && !step.Arrive? && Tidy(s.requests[step.i], limits)
    ensures Tidy(Moved(s, limits, step, s.requests[step.i]), limits)
  {
  }

  /** A step that leaves the mutex alone, and whether its request has it. */
  lemma {:induction false} MutexKept(s: State, i: nat, r: Request, t: State)
    requires MutexHeld(s) && i < |s.requests| && HasMutex(r) == HasMutex(s.requests[i])
    requires t.mutex == s.mutex && t.requests == s.requests[i := r]
    ensures MutexHeld(t)
  {
  }

  lemma {:induction false} MutexTaken(s: State, i: nat, r: Request, t: State)
    requires MutexHeld(s) && i < |s.requests| && s.mutex == [] && HasMutex(r)
    requires t.mutex == [i] && t.requests == s.requests[i := r]
    ensures MutexHeld(t)
  {
  }

  lemma {:induction false} MutexGiven(s: State, i: nat, r: Request, t: State)
    requires MutexHeld(s) && i < |s.requests| && HasMutex(s.requests[i]) && !HasMutex(r)
    requires t.mutex == [] && t.requests == s.requests[i := r]
    ensures MutexHeld(t)
  {
    assert i in s.mutex;
    assert s.mutex == [i];
  }

  lemma {:induction false} MutexStep(s: State, limits: map<string, int>, step: Step)
    requires Enabled(s, limits, step) && MutexHeld(s)
    ensures MutexHeld(Apply(s, limits, step))
  {
    if !step.Arrive? {
      var i, t := step.i, Apply(s, limits, step);
      var r := Moved(s, limits, step, s.requests[i]);
      if step.Lock? || step.LockReturn? {
        MutexTaken(s, i, r, t);
      } else if step.Unlock? || step.UnlockReturn? {
        MutexGiven(s, i, r, t);
      } else {
        MutexKept(s, i, r, t);
      }
    }
  }

  /** How a step changes what is held and what the counters say: by the same amount. */
  lemma {:induction false} BalanceStep(s: State, limits: map<string, int>, step: Step, h: string)
    requires Enabled(s, limits, step)
    requires UsageOf(s, h) == Held(s.requests, h) + Output(s.requests, h)
    ensures var s' := Apply(s, limits, step); UsageOf(s', h) == Held(s'.requests, h) + Output(s'.requests, h)
  {
    var s' := Apply(s, limits, step);
    if step.Arrive? {
      SumsAppend(s.requests, s'.requests[|s.requests|], h);
    } else {
      SumsUpdate(s.requests, step.i, Moved(s, limits, step, s.requests[step.i]), h);
    }
  }

  /** Only granting a reservation raises what is held, and it needs the mutex. */
  lemma {:induction false} HeldStep(s: State, limits: map<string, int>, step: Step, h: string)
    requires Enabled(s, limits, step) && Inv(s, limits)
    ensures
      var s' := Apply(s, limits, step);
      if step.Compare? && s.requests[step.i].hash == h && s'.requests[step.i].phase == Reserved
      then Held(s'.requests, h) == Held(s.requests, h) + s.requests[step.i].input
      else Held(s'.requests, h) <= Held(s.requests, h)
  {
    var s' := Apply(s, limits, step);
    if step.Arrive? {
      SumsAppend(s.requests, s'.requests[|s.requests|], h);
    } else {
      SumsUpdate(s.requests, step.i, Moved(s, limits, step, s.requests[step.i]), h);
    }
  }

  lemma {:induction false} OneHolder(s: State, i: nat, j: nat)
    requires MutexHeld(s)
    ensures i < |s.requests| && j < |s.requests| && HasMutex(s.requests[i]) && HasMutex(s.requests[j]) ==> i == j
  {
    assert i in s.mutex && j in s.mutex ==> i == j;
  }

  /** Who has read the counter after a step either just did, or had before and nobody else could reserve. */
  lemma {:induction false} StillReading(s: State, limits: map<string, int>, step: Step, i: nat)
    requires Enabled(s, limits, step) && MutexHeld(s)
    requires i < |Apply(s, limits, step).requests| && Apply(s, limits, step).requests[i].phase.Read?
    requires !(step.ReadUsage? && step.i == i)
    ensures i < |s.requests| && Apply(s, limits, step).requests[i] == s.requests[i] && !step.Compare?
  {
    if !step.Arrive? {
      OneHolder(s, i, step.i);
    }
  }

  lemma {:induction false} ReadStep(s: State, limits: map<string, int>, step: Step, i: nat)
    requires Enabled(s, limits, step) && Inv(s, limits)
    requires i < |Apply(s, limits, step).requests| && Apply(s, limits, step).requests[i].phase.Read?
    ensures
      var s' := Apply(s, limits, step);
      Held(s'.requests, s'.requests[i].hash) <= s'.requests[i].phase.usage
  {
    var h := Apply(s, limits, step).requests[i].hash;
    HeldStep(s, limits, step, h);
    if step.ReadUsage? && step.i == i {
      OutputNonNegative(s.requests, h);
    } else {
      StillReading(s, limits, step, i);
    }
  }

  lemma {:induction false} LimitStep(s: State, limits: map<string, int>, step: Step, h: string)
    requires Enabled(s, limits, step) && Inv(s, limits) && Limit(limits, h) > 0
    ensures Held(Apply(s, limits, step).requests, h) <= Limit(limits, h)
  {
    HeldStep(s, limits, step, h);
  }

  lemma {:induction false} TidyAll(s: State, limits: map<string, int>, step: Step)
    requires Enabled(s, limits, step) && forall i :: 0 <= i < |s.requests| ==> Tidy(s.requests[i], limits)
    ensures var s' := Apply(s, limits, step); forall i :: 0 <= i < |s'.requests| ==> Tidy(s'.requests[i], limits)
  {
    if !step.Arrive? {
      TidyStep(s, limits, step);
      assert Apply(s, limits, step).requests == s.requests[step.i := Moved(s, limits, step, s.requests[step.i])];
    }
  }

  lemma {:induction false} InvStep(s: State, limits: map<string, int>, step: Step)
    requires Enabled(s, limits, step) && Inv(s, limits)
    ensures Inv(Apply(s, limits, step), limits)
  {
    var s' := Apply(s, limits, step);
    MutexStep(s, limits, step);
    TidyAll(s, limits, step);
    forall h: string ensures UsageOf(s', h) == Held(s'.requests, h) + Output(s'.requests, h) {
      BalanceStep(s, limits, step, h);
    }
    forall h: string | Limit(limits, h) > 0 ensures Held(s'.requests, h) <= Limit(limits, h) {
      LimitStep(s, limits, step, h);
    }
    forall i | 0 <= i < |s'.requests| && s'.requests[i].phase.Read?
      ensures Held(s'.requests, s'.requests[i].hash) <= s'.requests[i].phase.usage
    {
      ReadStep(s, limits, step, i);
    }
  }

  lemma {:induction false} InvRun(limits: map<string, int>, steps: seq<Step>)
    requires Possible(limits, steps)
    ensures Inv(Exec(limits, steps), limits)
  {
    if steps != [] {
      InvRun(limits, steps[..|steps| - 1]);
      InvStep(Exec(limits, steps[..|steps| - 1]), limits, steps[|steps| - 1]);
    }
  }

  // ---------- What every run keeps ----------

  /** The usage counter is what is held plus the outputs counted, and what is held is within the limit. */
  predicate Safe(s: State, limits: map<string, int>, h: string) {
    && UsageOf(s, h) == Held(s.requests, h) + Output(s.requests, h)
    && (Limit(limits, h) > 0 ==> Held(s.requests, h) <= Limit(limits, h))
  }

  /** Main result: in every interleaving, input tokens reserved or committed never exceed the token's limit,
      though outputs are added between the reading and the adding without the mutex; and the usage counter is
      always what is held plus the outputs counted. */
  lemma {:induction false} BudgetSafety(limits: map<string, int>, steps: seq<Step>, h: string)
    requires Possible(limits, steps)
    ensures Safe(Exec(limits, steps), limits, h)
  {
    InvRun(limits, steps);
  }

  /** Main result: on every path, a finished request has raised and lowered the parallel counter once each;
      it took its reservation at most once, and gave it back exactly once unless its loops ended with an accepted
      response, in which case it kept all of it. */
  lemma {:induction false} Settlement(limits: map<string, int>, steps: seq<Step>, i: nat)
    requires Possible(limits, steps)
    requires i < |Exec(limits, steps).requests| && Exec(limits, steps).requests[i].phase == Done
    ensures
      var r := Exec(limits, steps).requests[i];
      && r.acquired == r.released == 1
      && r.given - r.returned == (if Accepted(r) && r.reservedInput > 0 then 1 else 0)
      && r.given <= 1
      && (Accepted(r) && Limit(limits, r.hash) > 0 ==> r.held == r.input)
      && (!Accepted(r) || Limit(limits, r.hash) <= 0 ==> r.held == 0)
      && (!Accepted(r) ==> r.output == 0)
  {
    InvRun(limits, steps);
    assert Tidy(Exec(limits, steps).requests[i], limits);
  }

  /** What a finished request leaves in its token's counter. */
  function Owed(r: Request, limits: map<string, int>): int {
    (if Accepted(r) && Limit(limits, r.hash) > 0 then r.input else 0) + r.output
  }

  function TotalOwed(rs: seq<Request>, limits: map<string, int>, h: string): int {
    if rs == [] then 0
    else TotalOwed(rs[..|rs| - 1], limits, h) + (if rs[|rs| - 1].hash == h then Owed(rs[|rs| - 1], limits) else 0)
  }

  lemma {:induction false} OwedIsHeld(rs: seq<Request>, limits: map<string, int>, h: string)
    requires forall i :: 0 <= i < |rs| ==> Tidy(rs[i], limits) && rs[i].phase == Done
    ensures TotalOwed(rs, limits, h) == Held(rs, h) + Output(rs, h)
  {
    if rs != [] {
      OwedIsHeld(rs[..|rs| - 1], limits, h);
      assert Tidy(rs[|rs| - 1], limits);
    }
  }

  /** Main result: when no request is in flight, usage is the inputs of the accepted budgeted requests plus
      the outputs counted. */
  lemma {:induction false} QuiescentUsage(limits: map<string, int>, steps: seq<Step>, h: string)
    requires Possible(limits, steps)
    requires forall i :: 0 <= i < |Exec(limits, steps).requests| ==> Exec(limits, steps).requests[i].phase == Done
    ensures UsageOf(Exec(limits, steps), h) == TotalOwed(Exec(limits, steps).requests, limits, h)
  {
    InvRun(limits, steps);
    OwedIsHeld(Exec(limits, steps).requests, limits, h);
  }
}
