/** The in-memory usage counters and the two budget operations of the chat handler, one at a time.
    Budget.dfy takes the same operations apart into the steps that can interleave. */
module SessionUsage {
  import opened Basics
  import Retry

  class MemoryStore {
    var usage: map<string, int>

    /** A token never counted has usage 0. */
    function Of(h: string): int
      reads this
    {
      if h in usage then usage[h] else 0
    }

    constructor ()
      ensures forall h :: Of(h) == 0
    {
      usage := map[];
    }

    method GetUsage(h: string) returns (n: int)
      ensures n == Of(h)
    {
      n := if h in usage then usage[h] else 0;
    }

    method AddUsage(h: string, count: int) returns (n: int)
      modifies this
      ensures n == Of(h) == old(Of(h)) + count
      ensures forall k :: k != h ==> Of(k) == old(Of(k))
    {
      usage := usage[h := (if h in usage then usage[h] else 0) + count];
      n := usage[h];
    }

    method Reset(h: string)
      modifies this
      ensures Of(h) == 0 && forall k :: k != h ==> Of(k) == old(Of(k))
    {
      usage := usage - {h};
    }
  }

  /** Grants the reservation exactly when it still fits, and then counts it; a refusal counts nothing. */
  method ReserveInputBudget(sessions: MemoryStore, h: string, input: nat, max: int) returns (current: int, ok: bool)
    modifies sessions
    ensures current == old(sessions.Of(h))
    ensures ok <==> current + input <= max
    ensures forall k :: sessions.Of(k) == old(sessions.Of(k)) + (if ok && k == h then input else 0)
  {
    current := sessions.GetUsage(h);
    if current + input > max {
      return current, false;
    }
    if input > 0 {
      var n := sessions.AddUsage(h, input);
    }
    ok := true;
  }

  method ReleaseReservedInputBudget(sessions: MemoryStore, h: string, reserved: int)
    modifies sessions
    ensures forall k :: sessions.Of(k) == old(sessions.Of(k)) - (if reserved > 0 && k == h then reserved else 0)
  {
    if reserved <= 0 {
      return;
    }
    var n := sessions.AddUsage(h, -reserved);
  }

  /** Giving back what was granted leaves every counter as it was before. */
  method ReserveThenRelease(sessions: MemoryStore, h: string, input: nat, max: int)
    modifies sessions
    ensures forall k :: sessions.Of(k) == old(sessions.Of(k))
  {
    var current, ok := ReserveInputBudget(sessions, h, input, max);
    if ok {
      ReleaseReservedInputBudget(sessions, h, input);
    }
  }

  /** The handler's way through reservation, loops and commitment for one request: with a limit, what stays in the
      counter is the input if and only if the loops ended with an accepted response. `ending` is None if the
      reservation was refused. */
  method HandleChat(sessions: MemoryStore, h: string, input: nat, maxTokens: int, model: string,
                    cfg: Option<Retry.Config>, trial: Retry.Trials)
    returns (ending: Option<Retry.Ending>, calls: seq<(nat, nat)>, retryCount: nat)
    modifies sessions
    ensures ending.None? <==> maxTokens > 0 && old(sessions.Of(h)) + input > maxTokens
    ensures ending.Some? ==> Retry.Outcome(model, cfg, trial, calls, retryCount, ending.value)
    ensures ending.Some? ==>
              Retry.Stops(cfg, Retry.Models(model, cfg), Retry.MaxAttempts(cfg), trial, calls, retryCount, ending.value)
    ensures forall k :: sessions.Of(k) == old(sessions.Of(k))
              + (if k == h && maxTokens > 0 && ending.Some? && ending.value.Accepted? then input else 0)
  {
    var reservedInput, committedInput := 0, false;
    calls, retryCount := [], 0;
    if maxTokens > 0 {
      var current, ok := ReserveInputBudget(sessions, h, input, maxTokens);
      if !ok {
        return None, calls, retryCount;
      }
      reservedInput := input;
    }
    var sent, end;
    calls, sent, retryCount, end := Retry.TryModels(model, cfg, trial);
    if end.Accepted? {
      committedInput := true;
    }
    // deferred
    if reservedInput > 0 && !committedInput {
      ReleaseReservedInputBudget(sessions, h, reservedInput);
    }
    ending := Some(end);
  }
}
