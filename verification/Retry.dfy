/** The retry and fallback loop of a chat request: which upstream calls are made, in which order, and
    which answer reaches the client. What happens at each (model, attempt) pair is an arbitrary function,
    so every environment is covered. */
module Retry {
  import opened Basics

  datatype Config = Config(maxRetries: int, fallbacks: seq<string>, retryOn: seq<int>)

  /** What one turn of the inner loop meets: trouble before the call (no key, bad URL, no request), a call
      that fails, or an answer. */
  datatype Trial = Unprepared | Failed | Answered(status: int)

  type Trials = (nat, nat) -> Trial

  datatype Ending =
    | Aborted                                        // a 500 before the call, no more calls
    | Accepted(model: nat, attempt: nat, status: int)
    | Exhausted(lastStatus: Option<int>)

  const DEFAULT_RETRY_ON: seq<int> := [429, 500, 502, 503]

  predicate ShouldRetry(cfg: Option<Config>, status: int) {
    cfg.Some? && cfg.value.maxRetries != 0
    && status in (if cfg.value.retryOn == [] then DEFAULT_RETRY_ON else cfg.value.retryOn)
  }

  function Models(model: string, cfg: Option<Config>): (ms: seq<string>)
    ensures |ms| == 1 + (if cfg.Some? then |cfg.value.fallbacks| else 0)
    ensures ms[0] == model
  {
    [model] + (if cfg.Some? then cfg.value.fallbacks else [])
  }

  function MaxAttempts(cfg: Option<Config>): (n: nat)
    ensures n >= 1
  {
    if cfg.Some? && cfg.value.maxRetries > 0 then 1 + cfg.value.maxRetries else 1
  }

  /** Is there something left to try after this pair? The last model is recognised by its name. */
  predicate MoreToTry(ms: seq<string>, n: nat, m: nat, a: nat)
    requires m < |ms|
  {
    a < n - 1 || ms[m] != ms[|ms| - 1]
  }

  /** Does the loop go on after this pair? */
  predicate PassedOver(cfg: Option<Config>, ms: seq<string>, n: nat, trial: Trials, m: nat, a: nat)
    requires m < |ms|
  {
    match trial(m, a)
    case Unprepared => false
    case Failed => true
    case Answered(status) => ShouldRetry(cfg, status) && MoreToTry(ms, n, m, a)
  }

  /** The i-th pair in the order the loops visit them. */
  function Pair(i: nat, n: nat): (p: (nat, nat))
    requires n > 0
    ensures p.1 < n
  {
    if i == 0 then (0, 0)
    else
      var (m, a) := Pair(i - 1, n);
      if a + 1 < n then (m, a + 1) else (m + 1, 0)
  }

  /** Its place in lexicographic order. */
  lemma {:induction false} PairIndex(i: nat, n: nat)
    requires n > 0
    ensures Pair(i, n).0 * n + Pair(i, n).1 == i
  {
    if i > 0 {
      PairIndex(i - 1, n);
      var (m, a) := Pair(i - 1, n);
      assert (m + 1) * n == m * n + n;
    }
  }

  lemma {:induction false} MulMonotone(x: int, y: int, n: nat)
    ensures x <= y ==> x * n <= y * n
    ensures x < y ==> x * n + n <= y * n
    decreases y - x
  {
    if x < y {
      MulMonotone(x, y - 1, n);
      assert y * n == (y - 1) * n + n;
    }
  }

  /** Two pairs compare as their indices do. */
  lemma {:induction false} PairOrder(i: nat, j: nat, n: nat)
    requires n > 0 && i < j
    ensures Pair(i, n).0 < Pair(j, n).0 || (Pair(i, n).0 == Pair(j, n).0 && Pair(i, n).1 < Pair(j, n).1)
  {
    PairIndex(i, n);
    PairIndex(j, n);
    MulMonotone(Pair(j, n).0, Pair(i, n).0, n);
  }

  /** The pair (m, a) is the one with index m * n + a. */
  lemma {:induction false} PairAt(m: nat, a: nat, i: nat, n: nat)
    requires a < n && i == m * n + a
    ensures Pair(i, n) == (m, a)
  {
    PairIndex(i, n);
    var (x, y) := Pair(i, n);
    MulMonotone(x, m, n);
    MulMonotone(m, x, n);
  }

  /** The last answer that was passed over among the first k pairs. */
  function LastAnswer(trial: Trials, n: nat, k: nat): Option<int>
    requires n > 0
  {
    if k == 0 then None
    else
      var (m, a) := Pair(k - 1, n);
      match trial(m, a)
      case Answered(status) => Some(status)
      case _ => LastAnswer(trial, n, k - 1)
  }

  /** Calls in order, after each of which the loop goes on. */
  ghost predicate GoneOn(cfg: Option<Config>, ms: seq<string>, n: nat, trial: Trials, calls: seq<(nat, nat)>)
    requires n > 0
  {
    forall i :: 0 <= i < |calls| ==>
      calls[i] == Pair(i, n) && calls[i].0 < |ms| && PassedOver(cfg, ms, n, trial, calls[i].0, calls[i].1)
  }

  /** Where and how the loops stop. */
  ghost predicate Stops(cfg: Option<Config>, ms: seq<string>, n: nat, trial: Trials, calls: seq<(nat, nat)>, retries: nat, ending: Ending)
    requires n > 0
  {
    match ending
    case Aborted =>
      && GoneOn(cfg, ms, n, trial, calls) && retries == |calls| < |ms| * n
      && trial(Pair(|calls|, n).0, Pair(|calls|, n).1) == Unprepared
    case Accepted(m, a, status) =>
      && calls != [] && GoneOn(cfg, ms, n, trial, calls[..|calls| - 1]) && retries == |calls| - 1 < |ms| * n
      && m < |ms| && calls[|calls| - 1] == (m, a) == Pair(|calls| - 1, n)
      && trial(m, a) == Answered(status) && !PassedOver(cfg, ms, n, trial, m, a)
    case Exhausted(last) =>
      && GoneOn(cfg, ms, n, trial, calls) && retries == |calls| == |ms| * n
      && last == LastAnswer(trial, n, |calls|)
  }

  /** A pair of an existing model lies within the schedule. */
  lemma {:induction false} PairWithin(i: nat, count: nat, n: nat)
    requires n > 0 && Pair(i, n).0 < count
    ensures i < count * n
  {
    PairIndex(i, n);
    MulMonotone(Pair(i, n).0, count, n);
  }

  /** The loop goes on after one more pair. */
  lemma {:induction false} OneMore(cfg: Option<Config>, ms: seq<string>, n: nat, trial: Trials, calls: seq<(nat, nat)>, m: nat, a: nat)
    requires n > 0 && GoneOn(cfg, ms, n, trial, calls) && Pair(|calls|, n) == (m, a) && m < |ms|
    requires PassedOver(cfg, ms, n, trial, m, a)
    ensures GoneOn(cfg, ms, n, trial, calls + [(m, a)])
    ensures Pair(|calls| + 1, n) == if a + 1 < n then (m, a + 1) else (m + 1, 0)
    ensures LastAnswer(trial, n, |calls| + 1) == if trial(m, a).Answered? then Some(trial(m, a).status) else LastAnswer(trial, n, |calls|)
  {
  }

  /** The two nested loops; `sent` is the model named in each call. */
  method TryAll(cfg: Option<Config>, ms: seq<string>, n: nat, trial: Trials)
    returns (calls: seq<(nat, nat)>, sent: seq<string>, retryCount: nat, ending: Ending)
    requires n > 0
    ensures Stops(cfg, ms, n, trial, calls, retryCount, ending)
    ensures Names(ms, calls, sent)
  {
    calls, sent, retryCount := [], [], 0;
    var last: Option<int> := None;
    for m := 0 to |ms|
      invariant retryCount == |calls| && Pair(|calls|, n) == (m, 0)
      invariant GoneOn(cfg, ms, n, trial, calls) && Names(ms, calls, sent)
      invariant last == LastAnswer(trial, n, |calls|)
    {
      for attempt := 0 to n
        invariant retryCount == |calls| && Pair(|calls|, n) == if attempt < n then (m, attempt) else (m + 1, 0)
        invariant GoneOn(cfg, ms, n, trial, calls) && Names(ms, calls, sent)
        invariant last == LastAnswer(trial, n, |calls|)
      {
        PairWithin(|calls|, |ms|, n);
        var t := trial(m, attempt);
        if t.Unprepared? {
          ending := Aborted;
          return;
        }
        ghost var before := calls;
        calls, sent := calls + [(m, attempt)], sent + [ms[m]];
        assert calls[..|calls| - 1] == before;
        if t.Failed? {
          OneMore(cfg, ms, n, trial, before, m, attempt);
          retryCount := retryCount + 1;
          continue;
        }
        if ShouldRetry(cfg, t.status) && (attempt < n - 1 || ms[m] != ms[|ms| - 1]) {
          OneMore(cfg, ms, n, trial, before, m, attempt);
          last := Some(t.status);
          retryCount := retryCount + 1;
          continue;
        }
        ending := Accepted(m, attempt, t.status);
        return;
      }
    }
    PairIndex(|calls|, n);
    ending := Exhausted(last);
  }

  predicate Names(ms: seq<string>, calls: seq<(nat, nat)>, sent: seq<string>) {
    |sent| == |calls| && forall i :: 0 <= i < |calls| ==> calls[i].0 < |ms| && sent[i] == ms[calls[i].0]
  }

  // ---------- The outcome, from the configuration alone ----------

  /** Worth another try: retries are configured, and the status is on the list, which is 429, 500, 502 and 503 if none
      is given. */
  predicate Retryable(cfg: Option<Config>, status: int) {
    && cfg.Some? && cfg.value.maxRetries != 0
    && (status in cfg.value.retryOn || (cfg.value.retryOn == [] && status in {429, 500, 502, 503}))
  }

  lemma {:induction false} RetryableExactly(cfg: Option<Config>, status: int)
    ensures ShouldRetry(cfg, status) <==> Retryable(cfg, status)
  {
  }

  /** How often each model is tried again. */
  function Retries(cfg: Option<Config>): nat {
    match cfg
    case None => 0
    case Some(c) => if c.maxRetries < 0 then 0 else c.maxRetries
  }

  function Spares(cfg: Option<Config>): seq<string> {
    match cfg
    case None => []
    case Some(c) => c.fallbacks
  }

  /** All calls there can be: each model once, and again as often as configured. */
  function Most(cfg: Option<Config>): nat {
    (1 + |Spares(cfg)|) * (1 + Retries(cfg))
  }

  /** The model and the attempt of call i. */
  function Slot(cfg: Option<Config>, i: nat): (nat, nat) {
    (i / (1 + Retries(cfg)), i % (1 + Retries(cfg)))
  }

  /** The model at place m of the primary followed by the fallbacks. */
  function ModelAt(model: string, cfg: Option<Config>, m: nat): string
    requires m <= |Spares(cfg)|
  {
    if m == 0 then model else Spares(cfg)[m - 1]
  }

  /** After call i the loops go on: it failed, or it was answered with a status worth another try while it was not the
      last attempt of a model with the last one's name. */
  predicate TriedAgain(model: string, cfg: Option<Config>, trial: Trials, i: nat)
    requires Slot(cfg, i).0 <= |Spares(cfg)|
  {
    var (m, a) := Slot(cfg, i);
    match trial(m, a)
    case Unprepared => false
    case Failed => true
    case Answered(status) =>
      Retryable(cfg, status) && (a != Retries(cfg) || ModelAt(model, cfg, m) != ModelAt(model, cfg, |Spares(cfg)|))
  }

  /** The last status answered by the first k calls. */
  ghost predicate LastStatus(cfg: Option<Config>, trial: Trials, k: nat, last: Option<int>) {
    match last
    case None => forall i: nat :: i < k ==> !trial(Slot(cfg, i).0, Slot(cfg, i).1).Answered?
    case Some(status) =>
      exists i: nat :: i < k && trial(Slot(cfg, i).0, Slot(cfg, i).1) == Answered(status)
               && forall j: nat :: i < j < k ==> !trial(Slot(cfg, j).0, Slot(cfg, j).1).Answered?
  }

  /** Call i is the i-th slot, and goes to the model at its place. */
  predicate InOrder(model: string, cfg: Option<Config>, calls: seq<(nat, nat)>, sent: seq<string>) {
    && |calls| == |sent| <= Most(cfg)
    && forall i :: 0 <= i < |calls| ==>
         calls[i] == Slot(cfg, i) && calls[i].0 <= |Spares(cfg)| && sent[i] == ModelAt(model, cfg, calls[i].0)
  }

  /** Exactly which calls are made, and how the loops end. */
  ghost predicate Outcome(model: string, cfg: Option<Config>, trial: Trials, calls: seq<(nat, nat)>, retries: nat,
                          ending: Ending)
  {
    && (forall i: nat :: i < retries ==> Slot(cfg, i).0 <= |Spares(cfg)| && TriedAgain(model, cfg, trial, i))
    && match ending
       case Aborted =>
         && |calls| == retries < Most(cfg)
         && trial(Slot(cfg, retries).0, Slot(cfg, retries).1) == Unprepared
       case Accepted(m, a, status) =>
         && |calls| == retries + 1 <= Most(cfg)
         && Slot(cfg, retries) == (m, a) && m <= |Spares(cfg)|
         && trial(m, a) == Answered(status) && !TriedAgain(model, cfg, trial, retries)
       case Exhausted(last) => |calls| == retries == Most(cfg) && LastStatus(cfg, trial, retries, last)
  }

  lemma {:induction false} PairIsSlot(cfg: Option<Config>, i: nat)
    ensures Pair(i, MaxAttempts(cfg)) == Slot(cfg, i)
  {
    var n := MaxAttempts(cfg);
    PairAt(i / n, i % n, i, n);
  }

  lemma {:induction false} LastAnswerIs(cfg: Option<Config>, trial: Trials, k: nat)
    ensures LastStatus(cfg, trial, k, LastAnswer(trial, MaxAttempts(cfg), k))
  {
    if k > 0 {
      PairIsSlot(cfg, k - 1);
      LastAnswerIs(cfg, trial, k - 1);
    }
  }

  lemma {:induction false} PassedIsTriedAgain(model: string, cfg: Option<Config>, trial: Trials, i: nat)
    requires Slot(cfg, i).0 <= |Spares(cfg)|
    ensures PassedOver(cfg, Models(model, cfg), MaxAttempts(cfg), trial, Slot(cfg, i).0, Slot(cfg, i).1)
       <==> TriedAgain(model, cfg, trial, i)
  {
  }

  lemma {:induction false} ModelsAre(model: string, cfg: Option<Config>)
    ensures |Models(model, cfg)| == 1 + |Spares(cfg)|
    ensures forall m: nat :: m <= |Spares(cfg)| ==> Models(model, cfg)[m] == ModelAt(model, cfg, m)
  {
  }

  lemma {:induction false} GoneOnInOrder(model: string, cfg: Option<Config>, trial: Trials, calls: seq<(nat, nat)>)
    requires GoneOn(cfg, Models(model, cfg), MaxAttempts(cfg), trial, calls)
    ensures forall i: nat :: i < |calls| ==>
      calls[i] == Slot(cfg, i) && Slot(cfg, i).0 <= |Spares(cfg)| && TriedAgain(model, cfg, trial, i)
  {
    forall i: nat | i < |calls|
      ensures calls[i] == Slot(cfg, i) && Slot(cfg, i).0 <= |Spares(cfg)| && TriedAgain(model, cfg, trial, i)
    {
      PairIsSlot(cfg, i);
      PassedIsTriedAgain(model, cfg, trial, i);
    }
  }

  /** Where the loops stop is what the configuration says. */
  lemma {:induction false} StopsAreOutcomes(model: string, cfg: Option<Config>, trial: Trials, calls: seq<(nat, nat)>,
                                            retries: nat, ending: Ending)
    requires Stops(cfg, Models(model, cfg), MaxAttempts(cfg), trial, calls, retries, ending)
    ensures Outcome(model, cfg, trial, calls, retries, ending)
  {
    PairIsSlot(cfg, retries);
    match ending
    case Aborted => GoneOnInOrder(model, cfg, trial, calls);
    case Accepted(m, a, status) =>
      GoneOnInOrder(model, cfg, trial, calls[..|calls| - 1]);
      PassedIsTriedAgain(model, cfg, trial, retries);
    case Exhausted(last) =>
      GoneOnInOrder(model, cfg, trial, calls);
      LastAnswerIs(cfg, trial, retries);
  }

  lemma {:induction false} NamesInOrder(model: string, cfg: Option<Config>, trial: Trials, calls: seq<(nat, nat)>,
                                        sent: seq<string>, retries: nat, ending: Ending)
    requires Stops(cfg, Models(model, cfg), MaxAttempts(cfg), trial, calls, retries, ending)
    requires Names(Models(model, cfg), calls, sent)
    ensures InOrder(model, cfg, calls, sent)
  {
    ModelsAre(model, cfg);
    CallsAreLexicographic(cfg, Models(model, cfg), MaxAttempts(cfg), trial, calls, retries, ending);
    forall i | 0 <= i < |calls|
      ensures calls[i] == Slot(cfg, i) && calls[i].0 <= |Spares(cfg)| && sent[i] == ModelAt(model, cfg, calls[i].0)
    {
      CallAt(cfg, Models(model, cfg), MaxAttempts(cfg), trial, calls, retries, ending, i);
      PairIsSlot(cfg, i);
    }
  }

  /** The model list and the number of attempts, then the loops. */
  method TryModels(model: string, cfg: Option<Config>, trial: Trials)
    returns (calls: seq<(nat, nat)>, sent: seq<string>, retryCount: nat, ending: Ending)
    ensures Stops(cfg, Models(model, cfg), MaxAttempts(cfg), trial, calls, retryCount, ending)
    ensures InOrder(model, cfg, calls, sent) && Outcome(model, cfg, trial, calls, retryCount, ending)
    ensures (forall m: nat, a: nat :: trial(m, a) == Failed) ==> |calls| == Most(cfg) && ending == Exhausted(None)
  {
    var ms := [model];
    if cfg.Some? && |cfg.value.fallbacks| > 0 {
      ms := ms + cfg.value.fallbacks;
    }
    assert ms == Models(model, cfg);
    var n := 1;
    if cfg.Some? && cfg.value.maxRetries > 0 {
      n := 1 + cfg.value.maxRetries;
    }
    calls, sent, retryCount, ending := TryAll(cfg, ms, n, trial);
    StopsAreOutcomes(model, cfg, trial, calls, retryCount, ending);
    NamesInOrder(model, cfg, trial, calls, sent, retryCount, ending);
  }

  // ---------- What follows from where the loops stop ----------

  /** The call of index i. */
  lemma {:induction false} CallAt(cfg: Option<Config>, ms: seq<string>, n: nat, trial: Trials, calls: seq<(nat, nat)>,
                                  retries: nat, ending: Ending, i: nat)
    requires n > 0 && Stops(cfg, ms, n, trial, calls, retries, ending) && i < |calls|
    ensures calls[i] == Pair(i, n) && calls[i].0 < |ms|
  {
    var front := calls[..|calls| - 1];
    assert ending.Accepted? && i < |front| ==> front[i] == calls[i];
  }

  /** The schedule: each call is to the pair of its own index, so the calls are the first pairs of the
      lexicographic order over (model, attempt), at most (1 + fallbacks) * maxAttempts of them. */
  lemma {:induction false} CallsAreLexicographic(cfg: Option<Config>, ms: seq<string>, n: nat, trial: Trials,
                                                 calls: seq<(nat, nat)>, retries: nat, ending: Ending)
    requires n > 0 && Stops(cfg, ms, n, trial, calls, retries, ending)
    ensures |calls| <= |ms| * n
    ensures forall i :: 0 <= i < |calls| ==>
              calls[i].0 * n + calls[i].1 == i && calls[i].0 < |ms| && calls[i].1 < n
    ensures forall i, j :: 0 <= i < j < |calls| ==>
              calls[i].0 < calls[j].0 || (calls[i].0 == calls[j].0 && calls[i].1 < calls[j].1)
  {
    forall i | 0 <= i < |calls| ensures calls[i] == Pair(i, n) && calls[i].0 < |ms| && Pair(i, n).0 * n + Pair(i, n).1 == i {
      CallAt(cfg, ms, n, trial, calls, retries, ending, i);
      PairIndex(i, n);
    }
    forall i, j | 0 <= i < j < |calls|
      ensures calls[i].0 < calls[j].0 || (calls[i].0 == calls[j].0 && calls[i].1 < calls[j].1)
    {
      PairOrder(i, j, n);
    }
  }

  /** Retries are the calls but for the one that was accepted; and the loops run out of pairs only when the
      very last call failed outright, because an answer to it would have been accepted. */
  lemma {:induction false} RetryCount(cfg: Option<Config>, ms: seq<string>, n: nat, trial: Trials, calls: seq<(nat, nat)>, retries: nat, ending: Ending)
    requires n > 0 && ms != [] && Stops(cfg, ms, n, trial, calls, retries, ending)
    ensures ending.Accepted? ==> retries == |calls| - 1
    ensures ending.Exhausted? ==> retries == |calls| == |ms| * n && trial(|ms| - 1, n - 1) == Failed
  {
    if ending.Exhausted? {
      var last := |ms| * n - 1;
      assert (|ms| - 1) * n + (n - 1) == last;
      PairAt(|ms| - 1, n - 1, last, n);
      assert PassedOver(cfg, ms, n, trial, calls[last].0, calls[last].1);
    }
  }

  /** Does the last model's name occur only once? */
  predicate LastNameUnique(ms: seq<string>) {
    forall i :: 0 <= i < |ms| - 1 ==> ms[i] != ms[|ms| - 1]
  }

  /** A retryable answer reaches the client only after every pair was tried. */
  ghost predicate PatientWith(cfg: Option<Config>, ms: seq<string>, n: nat)
    requires n > 0
  {
    forall trial: Trials, calls: seq<(nat, nat)>, retries: nat, ending: Ending ::
      Stops(cfg, ms, n, trial, calls, retries, ending) && ending.Accepted? && ShouldRetry(cfg, ending.status)
      ==> |calls| == |ms| * n
  }

  lemma {:induction false} RetryableLast(cfg: Option<Config>, ms: seq<string>, n: nat, trial: Trials, calls: seq<(nat, nat)>, retries: nat, ending: Ending)
    requires n > 0 && ms != [] && Stops(cfg, ms, n, trial, calls, retries, ending)
    requires LastNameUnique(ms) && ending.Accepted? && ShouldRetry(cfg, ending.status)
    ensures |calls| == |ms| * n
  {
    var i := |calls| - 1;
    var (m, a) := calls[i];
    assert m == |ms| - 1 && a == n - 1;
    PairIndex(i, n);
    assert (|ms| - 1) * n + n == |ms| * n;
  }

  /** An earlier model of the same name, answering every attempt with a retryable status. */
  function Stubborn(status: int): Trials {
    (m: nat, a: nat) => Answered(status)
  }

  function FirstPairs(k: nat, n: nat): (calls: seq<(nat, nat)>)
    requires n > 0
    ensures |calls| == k && forall i :: 0 <= i < k ==> calls[i] == Pair(i, n)
  {
    seq(k, i requires 0 <= i => Pair(i, n))
  }

  lemma {:induction false} EarlyDelivery(cfg: Option<Config>, ms: seq<string>, n: nat, d: nat, status: int)
    requires n > 0 && d < |ms| - 1 && ms[d] == ms[|ms| - 1] && ShouldRetry(cfg, status)
    requires forall i :: 0 <= i < d ==> ms[i] != ms[|ms| - 1]
    ensures
      var k := d * n + n;
      Stops(cfg, ms, n, Stubborn(status), FirstPairs(k, n), k - 1, Accepted(d, n - 1, status)) && k < |ms| * n
  {
    var k := d * n + n;
    PairAt(d, n - 1, k - 1, n);
    EarlyCalls(cfg, ms, n, d, k, status);
    assert (d + 2) * n == k + n;
    MulMonotone(d + 2, |ms|, n);
  }

  lemma {:induction false} EarlyCalls(cfg: Option<Config>, ms: seq<string>, n: nat, d: nat, k: nat, status: int)
    requires n > 0 && k > 0 && d < |ms| - 1 && Pair(k - 1, n) == (d, n - 1) && ShouldRetry(cfg, status)
    requires forall i :: 0 <= i < d ==> ms[i] != ms[|ms| - 1]
    ensures GoneOn(cfg, ms, n, Stubborn(status), FirstPairs(k, n)[..k - 1])
  {
    var calls := FirstPairs(k, n)[..k - 1];
    forall i | 0 <= i < k - 1
      ensures calls[i].0 < |ms| && PassedOver(cfg, ms, n, Stubborn(status), calls[i].0, calls[i].1)
    {
      PairOrder(i, k - 1, n);
    }
  }

  /** The first model that bears the last one's name. */
  lemma {:induction false} FirstOfName(ms: seq<string>) returns (d: nat)
    requires !LastNameUnique(ms)
    ensures d < |ms| - 1 && ms[d] == ms[|ms| - 1] && forall i :: 0 <= i < d ==> ms[i] != ms[|ms| - 1]
  {
    d := 0;
    while ms[d] != ms[|ms| - 1]
      invariant d <= |ms| - 1 && forall i :: 0 <= i < d ==> ms[i] != ms[|ms| - 1]
      decreases |ms| - d
    {
      d := d + 1;
    }
  }

  /** Main result: a retryable status is passed on only when nothing is left to try, in every environment,
      exactly when no earlier model shares the last one's name. */
  lemma {:induction false} RetryableDeliveredLast(cfg: Option<Config>, ms: seq<string>, n: nat, status: int)
    requires n > 0 && ms != [] && ShouldRetry(cfg, status)
    ensures PatientWith(cfg, ms, n) <==> LastNameUnique(ms)
  {
    if LastNameUnique(ms) {
      forall trial: Trials, calls: seq<(nat, nat)>, retries: nat, ending: Ending
        | Stops(cfg, ms, n, trial, calls, retries, ending) && ending.Accepted? && ShouldRetry(cfg, ending.status)
        ensures |calls| == |ms| * n
      {
        RetryableLast(cfg, ms, n, trial, calls, retries, ending);
      }
    } else {
      var d := FirstOfName(ms);
      EarlyDelivery(cfg, ms, n, d, status);
    }
  }
}
