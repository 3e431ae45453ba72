/** The webhook emitter: a bounded queue, a worker that delivers from it, and a Close that waits for the worker to
    drain it, under every interleaving with concurrent Emits. */
module Webhook {
  datatype Event = Event(id: string, eventType: string)

  const CAPACITY := 256

  // ---------- The filter ----------

  predicate MatchesPattern(pattern: string, eventType: string) {
    pattern == eventType || (pattern != "" && pattern[|pattern| - 1] == '*' && pattern[..|pattern| - 1] <= eventType)
  }

  predicate Matches(patterns: seq<string>, eventType: string) {
    patterns == [] || exists i :: 0 <= i < |patterns| && MatchesPattern(patterns[i], eventType)
  }

  /** The type fits a pattern if it is the pattern, or if the pattern ends in a star and the type starts with what
      stands before it. */
  ghost predicate Fits(pattern: string, eventType: string) {
    pattern == eventType
    || exists prefix: string, rest: string :: pattern == prefix + "*" && eventType == prefix + rest
  }

  lemma {:induction false} FitsExactly(pattern: string, eventType: string)
    ensures MatchesPattern(pattern, eventType) <==> Fits(pattern, eventType)
  {
    if MatchesPattern(pattern, eventType) && pattern != eventType {
      var n := |pattern| - 1;
      assert pattern == pattern[..n] + "*" && eventType == pattern[..n] + eventType[n..];
    }
    forall prefix: string, rest: string | pattern == prefix + "*" && eventType == prefix + rest
      ensures MatchesPattern(pattern, eventType)
    {
      assert pattern[..|pattern| - 1] == prefix;
    }
  }

  /** Main result: an event passes the filter exactly if there is none, or one of its patterns fits. */
  lemma {:induction false} PassesExactly(patterns: seq<string>, eventType: string)
    ensures Matches(patterns, eventType) <==> patterns == [] || exists p :: p in patterns && Fits(p, eventType)
  {
    forall i | 0 <= i < |patterns| ensures MatchesPattern(patterns[i], eventType) <==> Fits(patterns[i], eventType) {
      FitsExactly(patterns[i], eventType);
    }
  }

  method HasPrefix(s: string, prefix: string) returns (found: bool)
    ensures found <==> prefix <= s
  {
    if |prefix| > |s| {
      return false;
    }
    for i := 0 to |prefix|
      invariant prefix[..i] == s[..i]
    {
      if s[i] != prefix[i] {
        return false;
      }
    }
    return true;
  }

  class WebhookEmitter {
    const patterns: seq<string>
    var queue: seq<Event>

    constructor (patterns: seq<string>)
      ensures this.patterns == patterns && queue == []
    {
      this.patterns := patterns;
      queue := [];
    }

    method MatchesFilter(eventType: string) returns (matched: bool)
      ensures matched <==> Matches(patterns, eventType)
      ensures matched <==> patterns == [] || exists p :: p in patterns && Fits(p, eventType)
    {
      PassesExactly(patterns, eventType);
      if |patterns| == 0 {
        return true;
      }
      for i := 0 to |patterns|
        invariant forall k :: 0 <= k < i ==> !MatchesPattern(patterns[k], eventType)
      {
        var pattern := patterns[i];
        if pattern == eventType {
          assert MatchesPattern(patterns[i], eventType);
          return true;
        }
        if |pattern| > 0 && pattern[|pattern| - 1] == '*' {
          var found := HasPrefix(eventType, pattern[..|pattern| - 1]);
          if found {
            assert MatchesPattern(patterns[i], eventType);
            return true;
          }
        }
      }
      return false;
    }

    /** Never blocks: an event that matches is queued, or dropped if the queue is full. */
    method Emit(event: Event)
      modifies this`queue
      ensures queue == if Matches(patterns, event.eventType) && |old(queue)| < 256
                       then old(queue) + [event] else old(queue)
    {
      var matched := MatchesFilter(event.eventType);
      if !matched {
        return;
      }
      if |queue| < CAPACITY {
        queue := queue + [event];
      }
    }
  }

  // ---------- One delivery ----------

  datatype Outcome = NoResponse | Status(code: int)

  predicate Accepted(o: Outcome) {
    o.Status? && 200 <= o.code < 300
  }

  /** Success, or an error of the client other than "too many requests". */
  predicate Final(o: Outcome) {
    Accepted(o) || (o.Status? && 400 <= o.code < 500 && o.code != 429)
  }

  /** That is, any status of the two hundreds, or of the four hundreds but 429. */
  predicate Settles(o: Outcome) {
    o.Status? && (o.code / 100 == 2 || (o.code / 100 == 4 && o.code % 100 != 29))
  }

  /** Up to three attempts, two and four seconds apart; none to a URL no request can be made for. */
  method Deliver(badUrl: bool, upstream: nat -> Outcome) returns (attempts: nat, slept: nat)
    ensures badUrl ==> attempts == 0
    ensures !badUrl ==> 1 <= attempts <= 3
    ensures forall k :: 0 <= k < attempts - 1 ==> !Final(upstream(k)) && !Settles(upstream(k))
    ensures !badUrl && attempts < 3 ==> Final(upstream(attempts - 1)) && Settles(upstream(attempts - 1))
    ensures slept == match attempts case 0 => 0 case 1 => 0 case 2 => 2 case _ => 6
  {
    attempts, slept := 0, 0;
    while attempts < 3
      invariant attempts <= 3
      invariant badUrl ==> attempts == 0
      invariant forall k :: 0 <= k < attempts ==> !Final(upstream(k)) && !Settles(upstream(k))
      invariant slept == match attempts case 0 => 0 case 1 => 0 case 2 => 2 case _ => 6
    {
      if attempts > 0 {
        slept := slept + if attempts == 1 then 2 else 4;
      }
      if badUrl {
        return;
      }
      var response := upstream(attempts);
      attempts := attempts + 1;
      if response.NoResponse? {
        continue;
      }
      if 200 <= response.code < 300 {
        return;
      }
      if 400 <= response.code < 500 && response.code != 429 {
        return;
      }
    }
  }

  // ---------- The machine ----------

  /** `Exited(n)`: n events had been accepted when the worker found the queue empty and returned. */
  datatype Worker = Waiting | Delivering(event: Event, draining: bool) | Draining | Exited(accepted: nat)

  /** `Closing(n)`: n events had been accepted when Close was called. */
  datatype Closer = Open | Closing(accepted: nat) | Closed(accepted: nat)

  /** `accepted`, `dropped` and `handed` record what was put in the queue, what was not, and what `deliver` was
      called with. */
  datatype State = State(queue: seq<Event>, worker: Worker, closer: Closer,
                         offered: seq<Event>, accepted: seq<Event>, dropped: seq<Event>, handed: seq<Event>)

  const START := State([], Waiting, Open, [], [], [], [])

  datatype Step =
    | Emit(event: Event)
    | Take            // the worker's select receives an event
    | SeeDone         // ... or sees that Close was called; either, if both are possible
    | Finish          // deliver returns
    | TakeRest        // draining
    | Exit            // the queue is empty
    | CallClose
    | ReturnClose

  predicate Enabled(s: State, step: Step) {
    match step
    case Emit(_) => true
    case Take => s.worker == Waiting && s.queue != []
    case SeeDone => s.worker == Waiting && s.closer != Open
    case Finish => s.worker.Delivering?
    case TakeRest => s.worker == Draining && s.queue != []
    case Exit => s.worker == Draining && s.queue == []
    case CallClose => s.closer == Open
    case ReturnClose => s.closer.Closing? && s.worker.Exited?
  }

  function Taken(s: State, draining: bool): State
    requires s.queue != []
  {
    s.(queue := s.queue[1..], worker := Delivering(s.queue[0], draining), handed := s.handed + [s.queue[0]])
  }

  function Apply(patterns: seq<string>, s: State, step: Step): State
    requires Enabled(s, step)
  {
    match step
    case Emit(e) =>
      if !Matches(patterns, e.eventType) then s
      else if |s.queue| < CAPACITY
      then s.(queue := s.queue + [e], offered := s.offered + [e], accepted := s.accepted + [e])
      else s.(offered := s.offered + [e], dropped := s.dropped + [e])
    case Take => Taken(s, false)
    case SeeDone => s.(worker := Draining)
    case Finish => s.(worker := if s.worker.draining then Draining else Waiting)
    case TakeRest => Taken(s, true)
    case Exit => s.(worker := Exited(|s.accepted|))
    case CallClose => s.(closer := Closing(|s.accepted|))
    case ReturnClose => s.(closer := Closed(s.closer.accepted))
  }

  predicate Possible(patterns: seq<string>, s: State, steps: seq<Step>)
    decreases |steps|, 0
  {
    steps == [] ||
    var n := |steps| - 1;
    Possible(patterns, s, steps[..n]) && Enabled(Exec(patterns, s, steps[..n]), steps[n])
  }

  function Exec(patterns: seq<string>, s: State, steps: seq<Step>): State
    requires Possible(patterns, s, steps)
    decreases |steps|, 1
  {
    if steps == [] then s
    else
      var n := |steps| - 1;
      Apply(patterns, Exec(patterns, s, steps[..n]), steps[n])
  }

  predicate Inv(s: State) {
    && |s.queue| <= CAPACITY
    && s.handed + s.queue == s.accepted
    && multiset(s.offered) == multiset(s.accepted) + multiset(s.dropped)
    && (s.worker.Delivering? ==> s.handed != [] && s.handed[|s.handed| - 1] == s.worker.event)
    && (s.worker == Draining || s.worker.Exited? || (s.worker.Delivering? && s.worker.draining) ==> s.closer != Open)
    && (s.closer != Open ==> s.closer.accepted <= |s.accepted|)
    && (s.worker.Exited? ==> s.closer.accepted <= s.worker.accepted == |s.handed|)
    && (s.closer.Closed? ==> s.worker.Exited?)
  }

  lemma {:induction false} EmitKeeps(patterns: seq<string>, s: State, e: Event)
    requires Inv(s)
    ensures Inv(Apply(patterns, s, Emit(e)))
  {
    var s' := Apply(patterns, s, Emit(e));
    if s'.accepted != s.accepted {
      assert s.handed + (s.queue + [e]) == (s.handed + s.queue) + [e];
    }
  }

  lemma {:induction false} TakenKeeps(s: State)
    requires Inv(s) && s.queue != []
    ensures (s.handed + [s.queue[0]]) + s.queue[1..] == s.accepted
  {
    assert s.queue == [s.queue[0]] + s.queue[1..];
  }

  lemma {:induction false} InvStep(patterns: seq<string>, s: State, step: Step)
    requires Inv(s) && Enabled(s, step)
    ensures Inv(Apply(patterns, s, step))
  {
    match step
    case Emit(e) => EmitKeeps(patterns, s, e);
    case Take => TakenKeeps(s);
    case TakeRest => TakenKeeps(s);
    case _ =>
  }

  /** Main result: in every interleaving the events handed to `deliver`, in order, followed by the queue are exactly
      the accepted events in order; the queue holds at most 256; and every matching event was accepted or dropped. */
  lemma {:induction false} QueueInOrder(patterns: seq<string>, steps: seq<Step>)
    requires Possible(patterns, START, steps)
    ensures
      var s := Exec(patterns, START, steps);
      && Inv(s)
      && s.handed + s.queue == s.accepted && |s.queue| <= 256
      && multiset(s.offered) == multiset(s.accepted) + multiset(s.dropped)
  {
    if steps != [] {
      QueueInOrder(patterns, steps[..|steps| - 1]);
      InvStep(patterns, Exec(patterns, START, steps[..|steps| - 1]), steps[|steps| - 1]);
    }
  }

  /** A matching event comes in while 256 wait. */
  predicate Refused(patterns: seq<string>, s: State, step: Step) {
    step.Emit? && Matches(patterns, step.event.eventType) && |s.queue| >= 256
  }

  predicate NeverRefused(patterns: seq<string>, s: State, steps: seq<Step>)
    requires Possible(patterns, s, steps)
    decreases |steps|
  {
    steps == [] ||
    var n := |steps| - 1;
    NeverRefused(patterns, s, steps[..n]) && !Refused(patterns, Exec(patterns, s, steps[..n]), steps[n])
  }

  lemma {:induction false} DroppedStep(patterns: seq<string>, s: State, step: Step)
    requires Inv(s) && Enabled(s, step)
    ensures
      var s' := Apply(patterns, s, step);
      && (s'.dropped == [] <==> s.dropped == [] && !Refused(patterns, s, step))
      && |s.accepted| <= |s'.accepted|
      && (Refused(patterns, s, step) ==> |s.accepted| >= CAPACITY)
  {
  }

  lemma {:induction false} DroppedRun(patterns: seq<string>, steps: seq<Step>)
    requires Possible(patterns, START, steps)
    ensures
      var s := Exec(patterns, START, steps);
      && Inv(s)
      && (s.dropped == [] <==> NeverRefused(patterns, START, steps))
      && (s.dropped != [] ==> |s.accepted| >= CAPACITY)
  {
    QueueInOrder(patterns, steps);
    if steps != [] {
      var n := |steps| - 1;
      DroppedRun(patterns, steps[..n]);
      DroppedStep(patterns, Exec(patterns, START, steps[..n]), steps[n]);
    }
  }

  /** Main result: in every interleaving something was dropped exactly if a matching event came in while 256 waited;
      so at most 256 matching events lose none, whatever the worker does. */
  lemma {:induction false} DroppedWhenFull(patterns: seq<string>, steps: seq<Step>)
    requires Possible(patterns, START, steps)
    ensures
      var s := Exec(patterns, START, steps);
      && (s.dropped == [] <==> NeverRefused(patterns, START, steps))
      && (|s.offered| <= 256 ==> s.dropped == [])
  {
    DroppedRun(patterns, steps);
    var s := Exec(patterns, START, steps);
    assert |multiset(s.offered)| == |multiset(s.accepted)| + |multiset(s.dropped)|;
  }

  /** Main result: when Close has returned, every event accepted before it was called has been handed to `deliver`
      exactly once, in order, and no delivery is under way. */
  lemma {:induction false} CloseDelivers(patterns: seq<string>, steps: seq<Step>)
    requires Possible(patterns, START, steps)
    ensures
      var s := Exec(patterns, START, steps);
      s.closer.Closed? ==>
        && s.worker.Exited?
        && s.closer.accepted <= |s.handed| <= |s.accepted|
        && s.handed[..s.closer.accepted] == s.accepted[..s.closer.accepted]
  {
    QueueInOrder(patterns, steps);
  }

  /** Main result: once the worker has exited, the accepted events that were delivered are exactly those accepted
      before it last looked; an event accepted later stays in the queue for good. */
  lemma {:induction false} DeliveredExactly(patterns: seq<string>, steps: seq<Step>)
    requires Possible(patterns, START, steps)
    ensures
      var s := Exec(patterns, START, steps);
      s.worker.Exited? ==>
        && s.worker.accepted <= |s.accepted|
        && s.handed == s.accepted[..s.worker.accepted] && s.queue == s.accepted[s.worker.accepted..]
  {
    QueueInOrder(patterns, steps);
  }

  lemma {:induction false} ExitedStays(patterns: seq<string>, s: State, step: Step)
    requires s.worker.Exited? && Enabled(s, step)
    ensures Apply(patterns, s, step).worker == s.worker && Apply(patterns, s, step).handed == s.handed
  {
  }

  /** Main result: whatever happens after the worker has exited, nothing more is delivered. */
  lemma {:induction false} NothingAfterExit(patterns: seq<string>, s: State, steps: seq<Step>)
    requires s.worker.Exited? && Possible(patterns, s, steps)
    ensures Exec(patterns, s, steps).worker == s.worker && Exec(patterns, s, steps).handed == s.handed
  {
    if steps != [] {
      var n := |steps| - 1;
      NothingAfterExit(patterns, s, steps[..n]);
      ExitedStays(patterns, Exec(patterns, s, steps[..n]), steps[n]);
    }
  }

  // ---------- Close returns ----------

  /** What is left for the worker and Close to do. */
  function Left(s: State): nat {
    2 * |s.queue|
      + (match s.worker
         case Waiting => 2
         case Delivering(_, draining) => if draining then 2 else 3
         case Draining => 1
         case Exited(_) => 0)
      + (match s.closer case Open => 2 case Closing(_) => 1 case Closed(_) => 0)
  }

  lemma {:induction false} LeavesLess(patterns: seq<string>, s: State, step: Step)
    requires Enabled(s, step) && !step.Emit?
    ensures Left(Apply(patterns, s, step)) < Left(s)
  {
  }

  lemma {:induction false} RunLeavesLess(patterns: seq<string>, s: State, steps: seq<Step>)
    requires Possible(patterns, s, steps) && forall step :: step in steps ==> !step.Emit?
    ensures |steps| + Left(Exec(patterns, s, steps)) <= Left(s)
  {
    if steps != [] {
      var n := |steps| - 1;
      assert forall step :: step in steps[..n] ==> step in steps;
      RunLeavesLess(patterns, s, steps[..n]);
      assert steps[n] in steps;
      LeavesLess(patterns, Exec(patterns, s, steps[..n]), steps[n]);
    }
  }

  /** Main result: once Emits stop coming in, everything ends: a run has at most as many steps as there was left to
      do; and from the call of Close until it returns some step is possible, so Close returns. */
  lemma {:induction false} CloseReturns(patterns: seq<string>, s: State, steps: seq<Step>)
    requires Possible(patterns, s, steps) && forall step :: step in steps ==> !step.Emit?
    ensures
      var t := Exec(patterns, s, steps);
      && |steps| + Left(t) <= Left(s)
      && (t.closer.Closing? ==> exists step: Step :: !step.Emit? && Enabled(t, step))
  {
    RunLeavesLess(patterns, s, steps);
    var t := Exec(patterns, s, steps);
    match t.worker
    case Waiting => assert t.closer.Closing? ==> Enabled(t, SeeDone);
    case Delivering(_, _) => assert Enabled(t, Finish);
    case Draining => assert Enabled(t, TakeRest) || Enabled(t, Exit);
    case Exited(_) => assert t.closer.Closing? ==> Enabled(t, ReturnClose);
  }

  lemma {:induction false} Extend(patterns: seq<string>, steps: seq<Step>, t: State, step: Step, t': State)
    requires Possible(patterns, START, steps) && Exec(patterns, START, steps) == t
    requires Enabled(t, step) && t' == Apply(patterns, t, step)
    ensures Possible(patterns, START, steps + [step]) && Exec(patterns, START, steps + [step]) == t'
  {
    assert (steps + [step])[..|steps|] == steps;
  }

  /** An Emit that runs after Close was called may be accepted and never delivered. */
  lemma {:induction false} AcceptedNeverDelivered(e: Event) returns (steps: seq<Step>)
    ensures Possible([], START, steps)
    ensures var s := Exec([], START, steps); s.closer.Closed? && s.accepted == [e] && s.handed == [] && s.queue == [e]
  {
    var s1 := START.(closer := Closing(0));
    var s2 := s1.(worker := Draining);
    var s3 := s2.(worker := Exited(0));
    var s4 := s3.(queue := [e], offered := [e], accepted := [e]);
    var s5 := s4.(closer := Closed(0));
    steps := [];
    Extend([], steps, START, CallClose, s1);
    steps := steps + [CallClose];
    Extend([], steps, s1, SeeDone, s2);
    steps := steps + [SeeDone];
    Extend([], steps, s2, Exit, s3);
    steps := steps + [Exit];
    Extend([], steps, s3, Emit(e), s4);
    steps := steps + [Emit(e)];
    Extend([], steps, s4, ReturnClose, s5);
    steps := steps + [ReturnClose];
  }
}
