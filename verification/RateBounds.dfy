/** How many requests any stretch of time can hold: N for a sliding rule, 2N for a fixed one, over every run,
    whatever the other rules of the token and the rules of other tokens are. */
module RateBounds {
  import opened RateWindow
  import opened RateHistory

  /** How many entries lie in (lo, hi]. */
  function Between(log: seq<int>, lo: int, hi: int): nat {
    if log == [] then 0
    else Between(log[..|log| - 1], lo, hi) + (if lo < log[|log| - 1] <= hi then 1 else 0)
  }

  lemma {:induction false} BetweenAppend(log: seq<int>, t: int, lo: int, hi: int)
    ensures Between(log + [t], lo, hi) == Between(log, lo, hi) + (if lo < t <= hi then 1 else 0)
  {
    assert (log + [t])[..|log + [t]| - 1] == log;
  }

  lemma {:induction false} BetweenRecent(log: seq<int>, lo: int, hi: int, cutoff: int)
    requires cutoff <= lo
    ensures Between(log, lo, hi) <= |Recent(log, cutoff)|
  {
    if log != [] {
      BetweenRecent(log[..|log| - 1], lo, hi, cutoff);
    }
  }

  lemma {:induction false} RecentConcat(a: seq<int>, b: seq<int>, cutoff: int)
    ensures Recent(a + b, cutoff) == Recent(a, cutoff) + Recent(b, cutoff)
  {
    if b == [] {
      assert a + b == a;
    } else {
      var front, t := b[..|b| - 1], b[|b| - 1];
      RecentConcat(a, front, cutoff);
      assert a + b == (a + front) + [t];
      RecentAppend(a + front, t, cutoff);
    }
  }

  /** How many entries lie in (lo, lo + d]. With whole nanoseconds this is also [lo + 1, lo + 1 + d). */
  function Span(log: seq<int>, lo: int, d: int): nat {
    Between(log, lo, lo + d)
  }

  /** No stretch of length d holds more than n entries. */
  ghost predicate AtMost(log: seq<int>, d: int, n: int) {
    forall lo: int :: Span(log, lo, d) <= n
  }

  predicate NotAfter(adm: seq<int>, now: int) {
    forall i :: 0 <= i < |adm| ==> adm[i] <= now
  }

  /** A log kept within n per stretch of length d stays so when an entry is added that found fewer
      than n recent ones. */
  lemma {:induction false} SlidingAppend(log: seq<int>, now: int, d: int, n: int)
    requires |Recent(log, now - d)| < n && AtMost(log, d, n)
    requires NotAfter(log, now)
    ensures AtMost(log + [now], d, n)
  {
    forall lo: int ensures Span(log + [now], lo, d) <= n {
      BetweenAppend(log, now, lo, lo + d);
      assert Span(log, lo, d) <= n;
      if lo < now <= lo + d {
        BetweenRecent(log, lo, lo + d, now - d);
      }
    }
  }

  lemma {:induction false} RecentFewer(log: seq<int>, c1: int, c2: int)
    requires c1 <= c2
    ensures |Recent(log, c2)| <= |Recent(log, c1)|
  {
    RecentTwice(log, c1, c2);
    RecentLength(Recent(log, c1), c2);
  }

  /** With no entry after cutoff + 1, the recent ones are those of one instant. */
  lemma {:induction false} RecentInstant(log: seq<int>, cutoff: int)
    requires NotAfter(log, cutoff + 1)
    ensures |Recent(log, cutoff)| == Span(log, cutoff, 1)
  {
    if log != [] {
      RecentInstant(log[..|log| - 1], cutoff);
    }
  }

  // ---------- One call, seen by one rule of one token ----------

  /** The window the limiter has for a rule, or acts as if it had. */
  function WindowOf(l: Limiter, cfg: Configs, h: string, i: nat): Window
    requires Shaped(l, cfg) && h in cfg && i < |cfg[h].rules|
  {
    if h in l.buckets then l.buckets[h].windows[i] else FRESH
  }

  /** The call looks a bucket up, and so has the collector look at all of them. */
  predicate LooksUp(cfg: Configs, call: Call) {
    match call
    case Allow(h, _, _, _) => !Unlimited(cfg, h)
    case Acquire(h, _, _) => h in cfg && cfg[h].maxParallel != 0
    case RecordTokens(_, _, _) => false
  }

  /** The call has the bucket of `h` collected. */
  predicate Drops(l: Limiter, cfg: Configs, call: Call, h: string) {
    LooksUp(cfg, call) && h in l.buckets && h !in Collect(l, call.now, call.busy).buckets
  }

  predicate AdmittedTo(l: Limiter, cfg: Configs, call: Call, h: string)
    requires Shaped(l, cfg)
  {
    call.hash == h && Step(l, cfg, call).admitted
  }

  /** What counting tokens leaves of the part that counts requests. */
  predicate TokensOnly(w: Window, w': Window, rule: Rule, now: int) {
    if rule.Fixed() then
      w'.fixedStart == Roll(w, rule, now).fixedStart && w'.fixedRequests == Roll(w, rule, now).fixedRequests
    else w'.requests == w.requests
  }

  /** What a call at `now` can make of the window of a rule. */
  predicate Change(w: Window, w': Window, rule: Rule, now: int, admitted: bool) {
    if admitted then
      HasRoom(w, rule, now) && w' == Recorded(Checked(w, rule, now), rule, now)
    else
      || w' == w
      || w' == Checked(w, rule, now)
      || TokensOnly(w, w', rule, now)
  }

  /** The window after the collector, before anything else. */
  function Swept(l: Limiter, cfg: Configs, call: Call, h: string, i: nat): Window
    requires Shaped(l, cfg) && h in cfg && i < |cfg[h].rules|
  {
    if Drops(l, cfg, call, h) then FRESH else WindowOf(l, cfg, h, i)
  }

  lemma {:induction false} OwnCall(l: Limiter, cfg: Configs, call: Call, i: nat)
    requires Shaped(l, cfg) && call.hash in cfg && i < |cfg[call.hash].rules|
    ensures
      var l' := Step(l, cfg, call).after;
      && Change(Swept(l, cfg, call, call.hash, i), WindowOf(l', cfg, call.hash, i), cfg[call.hash].rules[i], call.now,
                AdmittedTo(l, cfg, call, call.hash))
      && (LooksUp(cfg, call) ==> call.hash in l'.buckets && l'.buckets[call.hash].lastSeen == call.now)
      && (!LooksUp(cfg, call) ==> call.hash in l'.buckets ==>
            call.hash in l.buckets && l'.buckets[call.hash].lastSeen == l.buckets[call.hash].lastSeen)
  {
    var h := call.hash;
    if call.RecordTokens? && h in l.buckets && cfg[h].rules[i].tokens > 0 && call.count != 0 {
      assert WindowOf(Step(l, cfg, call).after, cfg, h, i)
          == AddTokens(l.buckets[h].windows[i], cfg[h].rules[i], call.now, call.count);
    }
  }

  lemma {:induction false} OtherCall(l: Limiter, cfg: Configs, call: Call, h: string, i: nat)
    requires Shaped(l, cfg) && h in cfg && i < |cfg[h].rules| && call.hash != h
    ensures
      var l' := Step(l, cfg, call).after;
      && WindowOf(l', cfg, h, i) == Swept(l, cfg, call, h, i)
      && (h in l'.buckets ==> h in l.buckets && l'.buckets[h].lastSeen == l.buckets[h].lastSeen)
  {
  }

  /** A call may have the bucket collected, if it was idle for over a day; then it changes the window in one of a
      few ways; and a request is let through only in a bucket that was just seen. */
  lemma {:induction false} LimiterStep(l: Limiter, cfg: Configs, call: Call, h: string, i: nat)
    requires Shaped(l, cfg) && h in cfg && i < |cfg[h].rules|
    ensures
      var l' := Step(l, cfg, call).after;
      && Change(Swept(l, cfg, call, h, i), WindowOf(l', cfg, h, i), cfg[h].rules[i], call.now, AdmittedTo(l, cfg, call, h))
      && (Drops(l, cfg, call, h) ==> Stale(l.buckets[h].lastSeen, call.now))
      && (h in l'.buckets ==>
            || l'.buckets[h].lastSeen == call.now
            || (h in l.buckets && l'.buckets[h].lastSeen == l.buckets[h].lastSeen && !AdmittedTo(l, cfg, call, h)))
  {
    if call.hash == h {
      OwnCall(l, cfg, call, i);
    } else {
      OtherCall(l, cfg, call, h, i);
    }
  }

  /** Nothing was let through after the bucket was last seen. */
  predicate SeenLast(l: Limiter, adm: seq<int>, h: string) {
    h in l.buckets ==> l.buckets[h].lastSeen > DAY && NotAfter(adm, l.buckets[h].lastSeen)
  }

  function AfterCall(adm: seq<int>, l: Limiter, cfg: Configs, call: Call, h: string): seq<int>
    requires Shaped(l, cfg)
  {
    if AdmittedTo(l, cfg, call, h) then adm + [call.now] else adm
  }

  lemma {:induction false} SeenLastStep(l: Limiter, cfg: Configs, call: Call, adm: seq<int>, h: string, i: nat)
    requires Shaped(l, cfg) && h in cfg && i < |cfg[h].rules| && call.now > DAY
    requires SeenLast(l, adm, h) && NotAfter(adm, call.now)
    ensures SeenLast(Step(l, cfg, call).after, AfterCall(adm, l, cfg, call, h), h)
    ensures NotAfter(AfterCall(adm, l, cfg, call, h), call.now)
  {
    LimiterStep(l, cfg, call, h, i);
  }

  // ---------- Sliding windows ----------

  /** The log still has every admission that counts. */
  ghost predicate SlidingLog(adm: seq<int>, log: seq<int>, d: int, n: int, now: int) {
    && Recent(log, now - d) == Recent(adm, now - d)
    && AtMost(adm, d, n)
    && NotAfter(adm, now)
  }

  ghost predicate SlidingState(adm: seq<int>, w: Window, rule: Rule, now: int) {
    SlidingLog(adm, w.requests, rule.duration, rule.requests, now)
  }

  lemma {:induction false} SlidingLater(adm: seq<int>, w: Window, rule: Rule, t: int, now: int)
    requires SlidingState(adm, w, rule, t) && t <= now
    ensures SlidingState(adm, w, rule, now)
  {
    RecentTwice(w.requests, t - rule.duration, now - rule.duration);
    RecentTwice(adm, t - rule.duration, now - rule.duration);
  }

  lemma {:induction false} SlidingDropped(adm: seq<int>, w: Window, rule: Rule, seen: int, now: int)
    requires SlidingState(adm, w, rule, now) && NotAfter(adm, seen) && Stale(seen, now) && rule.duration <= DAY + 1
    ensures SlidingState(adm, FRESH, rule, now)
  {
    RecentOld(adm, now - rule.duration);
    RecentOld(FRESH.requests, now - rule.duration);
  }

  /** A sliding log gains one entry with each admission, which found room, and nothing else. */
  lemma {:induction false} LogChange(w: Window, w': Window, rule: Rule, now: int, admitted: bool)
    requires Change(w, w', rule, now, admitted) && !rule.Fixed() && rule.requests > 0
    ensures
      var c := now - rule.duration;
      if admitted then |Recent(w.requests, c)| < rule.requests && w'.requests == Recent(w.requests + [now], c)
      else w'.requests == w.requests
  {
  }

  lemma {:induction false} SlidingAdmit(adm: seq<int>, log: seq<int>, log': seq<int>, now: int, d: int, n: int)
    requires SlidingLog(adm, log, d, n, now) && |Recent(log, now - d)| < n
    requires log' == Recent(log + [now], now - d)
    ensures SlidingLog(adm + [now], log', d, n, now)
  {
    PrunedAppend(log, adm, now, now - d);
    SlidingAppend(adm, now, d, n);
  }

  lemma {:induction false} SlidingChange(adm: seq<int>, w: Window, w': Window, rule: Rule, now: int, admitted: bool,
                                         adm': seq<int>, log': seq<int>)
    requires Change(w, w', rule, now, admitted) && !rule.Fixed() && rule.requests > 0 && SlidingState(adm, w, rule, now)
    requires adm' == (if admitted then adm + [now] else adm) && log' == w'.requests
    ensures SlidingLog(adm', log', rule.duration, rule.requests, now)
  {
    LogChange(w, w', rule, now, admitted);
    if admitted {
      SlidingAdmit(adm, w.requests, log', now, rule.duration, rule.requests);
    }
  }

  lemma {:induction false} SlidingStep(l: Limiter, cfg: Configs, call: Call, adm: seq<int>, h: string, i: nat, t: int)
    requires Shaped(l, cfg) && h in cfg && i < |cfg[h].rules| && t <= call.now && SeenLast(l, adm, h)
    requires var r := cfg[h].rules[i]; !r.Fixed() && r.requests > 0 && r.duration <= DAY + 1
    requires SlidingState(adm, WindowOf(l, cfg, h, i), cfg[h].rules[i], t)
    ensures SlidingState(AfterCall(adm, l, cfg, call, h), WindowOf(Step(l, cfg, call).after, cfg, h, i),
                         cfg[h].rules[i], call.now)
  {
    var rule, w, w' := cfg[h].rules[i], WindowOf(l, cfg, h, i), WindowOf(Step(l, cfg, call).after, cfg, h, i);
    LimiterStep(l, cfg, call, h, i);
    SlidingLater(adm, w, rule, t, call.now);
    if Drops(l, cfg, call, h) {
      SlidingDropped(adm, w, rule, l.buckets[h].lastSeen, call.now);
    }
    SlidingChange(adm, Swept(l, cfg, call, h, i), w', rule, call.now, AdmittedTo(l, cfg, call, h),
                  AfterCall(adm, l, cfg, call, h), w'.requests);
  }

  function LastTime(calls: seq<Call>): int {
    if calls == [] then DAY + 1 else calls[|calls| - 1].now
  }

  lemma {:induction false} SlidingRun(cfg: Configs, calls: seq<Call>, h: string, i: nat)
    requires Clocked(calls) && h in cfg && i < |cfg[h].rules|
    requires var r := cfg[h].rules[i]; !r.Fixed() && r.requests > 0 && r.duration <= DAY + 1
    ensures SeenLast(Run(cfg, calls), Admissions(cfg, calls, h), h)
    ensures SlidingState(Admissions(cfg, calls, h), WindowOf(Run(cfg, calls), cfg, h, i), cfg[h].rules[i], LastTime(calls))
  {
    if calls != [] {
      var front, last := calls[..|calls| - 1], calls[|calls| - 1];
      ClockedPrefix(calls);
      SlidingRun(cfg, front, h, i);
      SlidingStep(Run(cfg, front), cfg, last, Admissions(cfg, front, h), h, i, LastTime(front));
      SeenLastStep(Run(cfg, front), cfg, last, Admissions(cfg, front, h), h, i);
    }
  }

  /** Main result: under a sliding rule of N requests per d, no stretch (t, t + d] of any run holds more than N
      admissions. Nothing is asked of the other rules of the token or of other tokens. */
  lemma {:induction false} SlidingWindowBound(cfg: Configs, calls: seq<Call>, h: string, i: nat)
    requires Clocked(calls) && h in cfg && i < |cfg[h].rules|
    requires var r := cfg[h].rules[i]; !r.Fixed() && r.requests > 0 && r.duration <= DAY + 1
    ensures AtMost(Admissions(cfg, calls, h), cfg[h].rules[i].duration, cfg[h].rules[i].requests)
  {
    SlidingRun(cfg, calls, h, i);
  }

  // ---------- Fixed windows ----------

  /** The admissions of the window are the last ones, as many as it counts; the others came before it started. */
  predicate Split(adm: seq<int>, w: Window, d: int) {
    && 0 <= w.fixedRequests <= |adm|
    && (forall i :: 0 <= i < |adm| - w.fixedRequests ==> adm[i] < w.fixedStart)
    && (forall i :: |adm| - w.fixedRequests <= i < |adm| ==> w.fixedStart <= adm[i] < w.fixedStart + d)
  }

  /** A window that is not over counts its admissions; one that is over will start again, after all of them. */
  predicate Counting(adm: seq<int>, w: Window, rule: Rule, now: int) {
    && 0 <= w.fixedRequests <= rule.requests
    && w.fixedStart <= now && NotAfter(adm, now)
    && (if Over(w, rule, now) then NotAfter(adm, now - 1) else Split(adm, w, rule.duration))
  }

  predicate FixedRule(rule: Rule) {
    rule.Fixed() && rule.requests > 0 && rule.duration > 0 && rule.Valid()
  }

  lemma {:induction false} CountingLater(adm: seq<int>, w: Window, rule: Rule, t: int, now: int)
    requires FixedRule(rule) && Counting(adm, w, rule, t) && t <= now
    ensures Counting(adm, w, rule, now)
  {
  }

  /** A fixed window starts over or not, and an admission then counts one more, within the limit. */
  lemma {:induction false} FixedChange(w: Window, w': Window, rule: Rule, now: int, admitted: bool)
    requires Change(w, w', rule, now, admitted) && FixedRule(rule)
    ensures var r := Roll(w, rule, now);
      if admitted then
        w'.fixedStart == r.fixedStart && w'.fixedRequests == r.fixedRequests + 1 && r.fixedRequests < rule.requests
      else
        || (w'.fixedStart == w.fixedStart && w'.fixedRequests == w.fixedRequests)
        || (w'.fixedStart == r.fixedStart && w'.fixedRequests == r.fixedRequests)
  {
  }

  lemma {:induction false} CountingRoll(adm: seq<int>, w: Window, rule: Rule, now: int)
    requires FixedRule(rule) && Counting(adm, w, rule, now)
    ensures Counting(adm, Roll(w, rule, now), rule, now) && !Over(Roll(w, rule, now), rule, now)
  {
  }

  lemma {:induction false} CountingChange(adm: seq<int>, w: Window, w': Window, rule: Rule, now: int, admitted: bool)
    requires Change(w, w', rule, now, admitted) && FixedRule(rule) && Counting(adm, w, rule, now)
    ensures Counting(if admitted then adm + [now] else adm, w', rule, now)
  {
    FixedChange(w, w', rule, now, admitted);
    CountingRoll(adm, w, rule, now);
  }

  /** The admissions before the window, or all of them if it will start again. */
  function Earlier(adm: seq<int>, w: Window, rule: Rule, now: int): seq<int>
    requires Counting(adm, w, rule, now)
  {
    if Over(w, rule, now) then adm else adm[..|adm| - w.fixedRequests]
  }

  /** When the window starts, or will at the earliest. */
  function Begins(w: Window, rule: Rule, now: int): int {
    if Over(w, rule, now) then now else w.fixedStart
  }

  /** At most n admissions lie less than d before the window starts, and at most n at any instant. */
  ghost predicate FixedState(adm: seq<int>, w: Window, rule: Rule, now: int) {
    && Counting(adm, w, rule, now)
    && AtMost(adm, 1, rule.requests) && AtMost(adm, rule.duration, 2 * rule.requests)
    && |Recent(Earlier(adm, w, rule, now), Begins(w, rule, now) - rule.duration)| <= rule.requests
  }

  lemma {:induction false} RecentSplit(adm: seq<int>, w: Window, d: int, cutoff: int)
    requires Split(adm, w, d)
    ensures |Recent(adm, cutoff)| <= |Recent(adm[..|adm| - w.fixedRequests], cutoff)| + w.fixedRequests
    ensures cutoff >= w.fixedStart - 1 ==> |Recent(adm, cutoff)| <= w.fixedRequests
  {
    var m := |adm| - w.fixedRequests;
    assert adm == adm[..m] + adm[m..];
    RecentConcat(adm[..m], adm[m..], cutoff);
    RecentLength(adm[m..], cutoff);
    if cutoff >= w.fixedStart - 1 {
      RecentOld(adm[..m], cutoff);
    }
  }

  lemma {:induction false} FixedLater(adm: seq<int>, w: Window, rule: Rule, t: int, now: int)
    requires FixedRule(rule) && FixedState(adm, w, rule, t) && t <= now
    ensures FixedState(adm, w, rule, now)
  {
    CountingLater(adm, w, rule, t, now);
    if Over(w, rule, t) {
      RecentFewer(adm, t - rule.duration, now - rule.duration);
    } else if Over(w, rule, now) {
      RecentSplit(adm, w, rule.duration, now - rule.duration);
    }
  }

  lemma {:induction false} FixedDropped(adm: seq<int>, w: Window, rule: Rule, seen: int, now: int)
    requires FixedRule(rule) && FixedState(adm, w, rule, now) && NotAfter(adm, seen) && Stale(seen, now)
    requires seen > DAY && rule.duration <= DAY + 2
    ensures FixedState(adm, FRESH, rule, now)
  {
    var c := now - rule.duration;
    assert Over(FRESH, rule, now);
    RecentInstant(adm, c);
    assert Span(adm, c, 1) <= rule.requests;
  }

  lemma {:induction false} FixedAdd(adm: seq<int>, w: Window, rule: Rule, now: int)
    requires FixedRule(rule) && FixedState(adm, w, rule, now) && !Over(w, rule, now) && w.fixedRequests < rule.requests
    ensures FixedState(adm + [now], w.(fixedRequests := w.fixedRequests + 1), rule, now)
  {
    var m, d, n := |adm| - w.fixedRequests, rule.duration, rule.requests;
    assert (adm + [now])[..m] == adm[..m];
    RecentSplit(adm, w, d, w.fixedStart - d);
    RecentSplit(adm, w, d, now - 1);
    AppendWithin(adm, now, d, 2 * n, w.fixedStart - d);
    AppendWithin(adm, now, 1, n, now - 1);
  }

  lemma {:induction false} AppendWithin(adm: seq<int>, now: int, d: int, n: int, cutoff: int)
    requires AtMost(adm, d, n) && cutoff <= now - d && |Recent(adm, cutoff)| < n
    ensures AtMost(adm + [now], d, n)
  {
    forall lo: int ensures Span(adm + [now], lo, d) <= n {
      BetweenAppend(adm, now, lo, lo + d);
      assert Span(adm, lo, d) <= n;
      if lo < now <= lo + d {
        BetweenRecent(adm, lo, lo + d, cutoff);
      }
    }
  }

  lemma {:induction false} FixedStateRoll(adm: seq<int>, w: Window, rule: Rule, now: int)
    requires FixedRule(rule) && FixedState(adm, w, rule, now)
    ensures FixedState(adm, Roll(w, rule, now), rule, now)
  {
    CountingRoll(adm, w, rule, now);
    assert adm[..|adm|] == adm;
  }

  lemma {:induction false} FixedStateChange(adm: seq<int>, w: Window, w': Window, rule: Rule, now: int, admitted: bool)
    requires Change(w, w', rule, now, admitted) && FixedRule(rule) && FixedState(adm, w, rule, now)
    ensures FixedState(if admitted then adm + [now] else adm, w', rule, now)
  {
    FixedChange(w, w', rule, now, admitted);
    FixedStateRoll(adm, w, rule, now);
    CountingRoll(adm, w, rule, now);
    if admitted {
      FixedAdd(adm, Roll(w, rule, now), rule, now);
    }
  }

  lemma {:induction false} FixedStep(l: Limiter, cfg: Configs, call: Call, adm: seq<int>, h: string, i: nat, t: int)
    requires Shaped(l, cfg) && h in cfg && i < |cfg[h].rules| && t <= call.now && SeenLast(l, adm, h)
    requires FixedRule(cfg[h].rules[i]) && cfg[h].rules[i].duration <= DAY + 2
    requires FixedState(adm, WindowOf(l, cfg, h, i), cfg[h].rules[i], t)
    ensures FixedState(AfterCall(adm, l, cfg, call, h), WindowOf(Step(l, cfg, call).after, cfg, h, i),
                       cfg[h].rules[i], call.now)
  {
    var rule, w, w' := cfg[h].rules[i], WindowOf(l, cfg, h, i), WindowOf(Step(l, cfg, call).after, cfg, h, i);
    LimiterStep(l, cfg, call, h, i);
    FixedLater(adm, w, rule, t, call.now);
    if Drops(l, cfg, call, h) {
      FixedDropped(adm, w, rule, l.buckets[h].lastSeen, call.now);
    }
    FixedStateChange(adm, Swept(l, cfg, call, h, i), w', rule, call.now, AdmittedTo(l, cfg, call, h));
  }

  lemma {:induction false} FixedRun(cfg: Configs, calls: seq<Call>, h: string, i: nat)
    requires Clocked(calls) && h in cfg && i < |cfg[h].rules|
    requires FixedRule(cfg[h].rules[i]) && cfg[h].rules[i].duration <= DAY + 2
    ensures SeenLast(Run(cfg, calls), Admissions(cfg, calls, h), h)
    ensures FixedState(Admissions(cfg, calls, h), WindowOf(Run(cfg, calls), cfg, h, i), cfg[h].rules[i], LastTime(calls))
  {
    if calls != [] {
      var front, last := calls[..|calls| - 1], calls[|calls| - 1];
      ClockedPrefix(calls);
      FixedRun(cfg, front, h, i);
      FixedStep(Run(cfg, front), cfg, last, Admissions(cfg, front, h), h, i, LastTime(front));
      SeenLastStep(Run(cfg, front), cfg, last, Admissions(cfg, front, h), h, i);
    }
  }

  /** Main result: under a fixed rule of N requests per d, no stretch of length d holds more than 2N admissions,
      whatever makes the windows start over, and whatever the other rules of the token and other tokens are. */
  lemma {:induction false} FixedWindowBound(cfg: Configs, calls: seq<Call>, h: string, i: nat)
    requires Clocked(calls) && h in cfg && i < |cfg[h].rules|
    requires FixedRule(cfg[h].rules[i]) && cfg[h].rules[i].duration <= DAY + 2
    ensures AtMost(Admissions(cfg, calls, h), cfg[h].rules[i].duration, 2 * cfg[h].rules[i].requests)
  {
    FixedRun(cfg, calls, h, i);
  }

  // ---------- The windows themselves, of any length ----------

  /** A clock further from Go's zero time than a duration can tell, as any clock is: a new window is always over. */
  predicate Modern(calls: seq<Call>) {
    Clocked(calls) && forall i :: 0 <= i < |calls| ==> calls[i].now >= MAX_DURATION
  }

  lemma {:induction false} CountingStep(l: Limiter, cfg: Configs, call: Call, adm: seq<int>, h: string, i: nat, t: int)
    requires Shaped(l, cfg) && h in cfg && i < |cfg[h].rules| && t <= call.now && SeenLast(l, adm, h)
    requires FixedRule(cfg[h].rules[i]) && call.now >= MAX_DURATION
    requires Counting(adm, WindowOf(l, cfg, h, i), cfg[h].rules[i], t)
    ensures Counting(AfterCall(adm, l, cfg, call, h), WindowOf(Step(l, cfg, call).after, cfg, h, i),
                     cfg[h].rules[i], call.now)
  {
    var rule, w' := cfg[h].rules[i], WindowOf(Step(l, cfg, call).after, cfg, h, i);
    LimiterStep(l, cfg, call, h, i);
    CountingLater(adm, WindowOf(l, cfg, h, i), rule, t, call.now);
    CountingChange(adm, Swept(l, cfg, call, h, i), w', rule, call.now, AdmittedTo(l, cfg, call, h));
  }

  lemma {:induction false} CountingRun(cfg: Configs, calls: seq<Call>, h: string, i: nat)
    requires Modern(calls) && h in cfg && i < |cfg[h].rules| && FixedRule(cfg[h].rules[i])
    ensures SeenLast(Run(cfg, calls), Admissions(cfg, calls, h), h)
    ensures Counting(Admissions(cfg, calls, h), WindowOf(Run(cfg, calls), cfg, h, i), cfg[h].rules[i], LastTime(calls))
  {
    if calls != [] {
      var front, last := calls[..|calls| - 1], calls[|calls| - 1];
      ClockedPrefix(calls);
      CountingRun(cfg, front, h, i);
      CountingStep(Run(cfg, front), cfg, last, Admissions(cfg, front, h), h, i, LastTime(front));
      SeenLastStep(Run(cfg, front), cfg, last, Admissions(cfg, front, h), h, i);
    }
  }

  /** The start stays, or jumps by at least the window's length. */
  predicate Apart(start: int, start': int, d: int) {
    start' == start || start' >= start + d
  }

  /** The call has the bucket collected, which was not looked up for over a day. */
  predicate Forgotten(cfg: Configs, calls: seq<Call>, h: string, k: nat)
    requires k < |calls|
  {
    var l := Run(cfg, calls[..k]);
    Drops(l, cfg, calls[k], h) && calls[k].now > l.buckets[h].lastSeen + DAY
  }

  lemma {:induction false} FixedStartStep(l: Limiter, cfg: Configs, call: Call, h: string, i: nat)
    requires Shaped(l, cfg) && h in cfg && i < |cfg[h].rules| && FixedRule(cfg[h].rules[i])
    ensures Drops(l, cfg, call, h) ==> call.now > l.buckets[h].lastSeen + DAY
    ensures !Drops(l, cfg, call, h) ==>
      Apart(WindowOf(l, cfg, h, i).fixedStart, WindowOf(Step(l, cfg, call).after, cfg, h, i).fixedStart,
            cfg[h].rules[i].duration)
  {
    LimiterStep(l, cfg, call, h, i);
    FixedChange(Swept(l, cfg, call, h, i), WindowOf(Step(l, cfg, call).after, cfg, h, i), cfg[h].rules[i], call.now,
                AdmittedTo(l, cfg, call, h));
  }

  /** Main result: in every run, a fixed window of any length that has started again since the first m calls did so at
      least its length later, unless its bucket was collected in between, after a day without a look-up. */
  lemma {:induction false} FixedStartsApart(cfg: Configs, calls: seq<Call>, h: string, i: nat, m: nat)
    requires m <= |calls| && h in cfg && i < |cfg[h].rules| && FixedRule(cfg[h].rules[i])
    ensures
      || Apart(WindowOf(Run(cfg, calls[..m]), cfg, h, i).fixedStart, WindowOf(Run(cfg, calls), cfg, h, i).fixedStart,
               cfg[h].rules[i].duration)
      || exists k :: m <= k < |calls| && Forgotten(cfg, calls, h, k)
  {
    var n := |calls| - 1;
    if m == |calls| {
      assert calls[..m] == calls;
    } else {
      var front := calls[..n];
      FixedStartsApart(cfg, front, h, i, m);
      assert front[..m] == calls[..m];
      FixedStartStep(Run(cfg, front), cfg, calls[n], h, i);
      if k :| m <= k < n && Forgotten(cfg, front, h, k) {
        assert front[..k] == calls[..k];
        assert Forgotten(cfg, calls, h, k);
      } else if Drops(Run(cfg, front), cfg, calls[n], h) {
        assert Forgotten(cfg, calls, h, n);
      }
    }
  }

  /** A window counts exactly the admissions since its start, at most N, until it is over. */
  predicate CountsOwn(adm: seq<int>, w: Window, rule: Rule, now: int) {
    && 0 <= w.fixedRequests <= rule.requests
    && (!Over(w, rule, now) ==> |Recent(adm, w.fixedStart - 1)| == w.fixedRequests)
  }

  /** Main result: and over every run it has counted exactly the admissions since its start, at most N of them. */
  lemma {:induction false} FixedWindowsCount(cfg: Configs, calls: seq<Call>, h: string, i: nat)
    requires Modern(calls) && h in cfg && i < |cfg[h].rules| && FixedRule(cfg[h].rules[i])
    ensures CountsOwn(Admissions(cfg, calls, h), WindowOf(Run(cfg, calls), cfg, h, i), cfg[h].rules[i], LastTime(calls))
  {
    CountingRun(cfg, calls, h, i);
    CountingCounts(Admissions(cfg, calls, h), WindowOf(Run(cfg, calls), cfg, h, i), cfg[h].rules[i], LastTime(calls));
  }

  lemma {:induction false} RecentAll(log: seq<int>, cutoff: int)
    requires forall i :: 0 <= i < |log| ==> log[i] > cutoff
    ensures Recent(log, cutoff) == log
  {
    if log != [] {
      RecentAll(log[..|log| - 1], cutoff);
    }
  }

  lemma {:induction false} CountingCounts(adm: seq<int>, w: Window, rule: Rule, now: int)
    requires Counting(adm, w, rule, now)
    ensures CountsOwn(adm, w, rule, now)
  {
    if !Over(w, rule, now) {
      var m := |adm| - w.fixedRequests;
      assert adm == adm[..m] + adm[m..];
      RecentConcat(adm[..m], adm[m..], w.fixedStart - 1);
      RecentOld(adm[..m], w.fixedStart - 1);
      RecentAll(adm[m..], w.fixedStart - 1);
    }
  }
}
