/** Where the fixed bound ends, for a token whose only limit is one fixed rule. The collector restarts a window of
    a token that was idle for a day, so two restarts, or a window's own end and one restart, can fall within one
    window's length of an admission. */
module RateFixedThreshold {
  import opened RateWindow
  import opened RateHistory
  import opened RateBounds
  import opened RateThreshold

  predicate PlainFixed(rule: Rule) {
    FixedRule(rule) && rule.tokens <= 0
  }

  function Win(s: int, c: int): Window {
    Window([], [], s, c, 0)
  }

  /** One bucket, last seen at `seen`, whose window started at `s` and counts `c`. */
  predicate IsState(l: Limiter, h: string, s: int, c: int, seen: int) {
    l.buckets == map[h := Bucket([Win(s, c)], 0, seen)] && l.lastGC <= seen
  }

  /** A token without max_parallel never has its counter raised. */
  predicate Unraised(calls: seq<Call>, h: string) {
    forall i :: 0 <= i < |calls| ==> calls[i].RecordTokens? || h !in calls[i].busy
  }

  // ---------- One call ----------

  predicate Restarts(rule: Rule, s: int, seen: int, t: int) {
    t - seen > DAY || t - s >= rule.duration
  }

  lemma {:induction false} Looked(l: Limiter, h: string, rule: Rule, s: int, c: int, seen: int, t: int, busy: set<string>)
    requires FixedRule(rule) && IsState(l, h, s, c, seen) && DAY < seen <= t && h !in busy
    ensures
      var g := WithBucket(l, h, Config([rule], 0), t, busy);
      IsState(g, h, if t - seen > DAY then 0 else s, if t - seen > DAY then 0 else c, t)
  {
    assert FreshWindows([rule]) == [FRESH];
    assert Sub(t, seen) > DAY <==> t - seen > DAY;
  }

  /** Counting and recording in the one window. */
  lemma {:induction false} OneFixedWindow(rule: Rule, s: int, c: int, t: int)
    requires FixedRule(rule) && t >= MAX_DURATION && 0 <= c <= rule.requests && s <= t
    ensures
      var anew := s == 0 || t - s >= rule.duration;
      var s', c' := if anew then t else s, if anew then 0 else c;
      && (Admits([Win(s, c)], [rule], t) <==> c' < rule.requests)
      && AllowWindows([Win(s, c)], [rule], t) == [Win(s', if c' < rule.requests then c' + 1 else c')]
  {
    var w := Win(s, c);
    assert Sub(t, s) >= rule.duration <==> s == 0 || t - s >= rule.duration;
    PassingIsAdmits([w], [rule], t);
    assert Admits([w], [rule], t) <==> HasRoom(w, rule, t);
    assert Passing([w], [rule], t) == if HasRoom(w, rule, t) then 1 else 0;
  }

  /** `s'` and `c'` are the window the call finds, started again or not. */
  predicate Finds(rule: Rule, s: int, c: int, seen: int, t: int, s': int, c': int) {
    if Restarts(rule, s, seen, t) then s' == t && c' == 0 else s' == s && c' == c
  }

  lemma {:induction false} FixedCall(l: Limiter, h: string, rule: Rule, s: int, c: int, seen: int, call: Call,
                                     s': int, c': int)
    requires FixedRule(rule) && IsState(l, h, s, c, seen) && call.Allow? && call.hash == h && h !in call.busy
    requires DAY < seen <= call.now && call.now >= MAX_DURATION && 0 <= c <= rule.requests && 0 < s <= seen
    requires Finds(rule, s, c, seen, call.now, s', c')
    ensures Shaped(l, Only(h, rule))
    ensures Step(l, Only(h, rule), call).admitted == (c' < rule.requests)
    ensures IsState(Step(l, Only(h, rule), call).after, h, s', if c' < rule.requests then c' + 1 else c', call.now)
  {
    Looked(l, h, rule, s, c, seen, call.now, call.busy);
    if call.now - seen > DAY {
      OneFixedWindow(rule, 0, 0, call.now);
    } else {
      OneFixedWindow(rule, s, c, call.now);
    }
  }

  lemma {:induction false} FirstCall(h: string, rule: Rule, call: Call)
    requires FixedRule(rule) && call.Allow? && call.hash == h && call.now >= MAX_DURATION
    ensures
      var r := Step(INITIAL, Only(h, rule), call);
      r.admitted && IsState(r.after, h, call.now, 1, call.now)
  {
    assert FreshWindows([rule]) == [FRESH];
    OneFixedWindow(rule, 0, 0, call.now);
  }

  /** No other call changes anything. */
  lemma {:induction false} OtherCalls(l: Limiter, h: string, rule: Rule, call: Call)
    requires PlainFixed(rule) && Shaped(l, Only(h, rule)) && l.buckets.Keys <= {h} && !(call.Allow? && call.hash == h)
    ensures Step(l, Only(h, rule), call).after == l
    ensures call.hash == h ==> !Step(l, Only(h, rule), call).admitted
  {
    if call.RecordTokens? && h in l.buckets && call.hash == h {
      assert RecordWindows(l.buckets[h].windows, [rule], call.now, call.count) == l.buckets[h].windows;
      assert l.buckets[h := l.buckets[h]] == l.buckets;
    }
  }

  // ---------- At most two per window: the bound is kept up to two days ----------

  /** The window's own admissions came within a day of its start, and each earlier one so long before that the next
      window to be collected is a window's length after it. */
  ghost predicate Sparse(adm: seq<int>, s: int, c: int, seen: int, rule: Rule) {
    var m, n, d := |adm| - c, rule.requests, rule.duration;
    && 1 <= c <= n && m >= 0 && s <= seen && NotAfter(adm, seen)
    && (forall j :: m <= j < |adm| ==> s <= adm[j] <= s + DAY)
    && (forall j :: 0 <= j < m ==> adm[j] <= s && adm[j] + d <= s + DAY + 1)
    && (c < n ==> seen == s)
    && |Recent(adm[..m], s - d)| <= n
    && AtMost(adm, d, 2 * n)
  }

  predicate SmallRule(rule: Rule) {
    PlainFixed(rule) && rule.requests <= 2 && rule.duration <= 2 * DAY + 2
  }

  lemma {:induction false} RecentTail(adm: seq<int>, m: nat, cutoff: int)
    requires m <= |adm|
    ensures |Recent(adm, cutoff)| <= |Recent(adm[..m], cutoff)| + |adm| - m
  {
    assert adm == adm[..m] + adm[m..];
    RecentConcat(adm[..m], adm[m..], cutoff);
    RecentLength(adm[m..], cutoff);
  }

  lemma {:induction false} SparseRestart(adm: seq<int>, s: int, c: int, seen: int, rule: Rule, t: int)
    requires SmallRule(rule) && Sparse(adm, s, c, seen, rule) && seen <= t && Restarts(rule, s, seen, t)
    ensures Sparse(adm + [t], t, 1, t, rule)
  {
    var m, d := |adm| - c, rule.duration;
    RecentTail(adm, m, t - d);
    RecentOld(adm[..m], t - d);
    AppendWithin(adm, t, d, 2 * rule.requests, t - d);
    assert (adm + [t])[..|adm|] == adm;
  }

  lemma {:induction false} SparseSecond(adm: seq<int>, s: int, c: int, seen: int, rule: Rule, t: int)
    requires SmallRule(rule) && Sparse(adm, s, c, seen, rule) && seen <= t && !Restarts(rule, s, seen, t)
    requires c < rule.requests
    ensures Sparse(adm + [t], s, c + 1, t, rule)
  {
    var m, d := |adm| - c, rule.duration;
    RecentTail(adm, m, s - d);
    AppendWithin(adm, t, d, 2 * rule.requests, s - d);
    assert (adm + [t])[..m] == adm[..m];
  }

  lemma {:induction false} SparseFirst(rule: Rule, t: int)
    requires SmallRule(rule)
    ensures Sparse([t], t, 1, t, rule)
  {
    var none: seq<int> := [];
    assert AtMost(none, rule.duration, 2 * rule.requests);
    AppendWithin(none, t, rule.duration, 2 * rule.requests, t - rule.duration);
    assert none + [t] == [t] && [t][..0] == none;
  }

  /** Nothing has happened yet, or there is one bucket and its admissions are sparse. */
  ghost predicate SparseState(l: Limiter, adm: seq<int>, h: string, rule: Rule, now: int) {
    || (l == INITIAL && adm == [])
    || (&& h in l.buckets && |l.buckets[h].windows| == 1
        && var w, seen := l.buckets[h].windows[0], l.buckets[h].lastSeen;
           && IsState(l, h, w.fixedStart, w.fixedRequests, seen)
           && Sparse(adm, w.fixedStart, w.fixedRequests, seen, rule)
           && MAX_DURATION <= w.fixedStart && seen <= now)
  }

  lemma {:induction false} SparseStep(l: Limiter, adm: seq<int>, h: string, rule: Rule, call: Call)
    requires SmallRule(rule) && SparseState(l, adm, h, rule, call.now) && call.now >= MAX_DURATION
    requires Shaped(l, Only(h, rule)) && (call.RecordTokens? || h !in call.busy)
    ensures SparseState(Step(l, Only(h, rule), call).after, AfterCall(adm, l, Only(h, rule), call, h), h, rule, call.now)
  {
    if !(call.Allow? && call.hash == h) {
      OtherCalls(l, h, rule, call);
    } else if l == INITIAL {
      FirstCall(h, rule, call);
      SparseFirst(rule, call.now);
      assert [] + [call.now] == [call.now];
    } else {
      SparseAllow(l, adm, h, rule, call);
    }
  }

  lemma {:induction false} SparseAllow(l: Limiter, adm: seq<int>, h: string, rule: Rule, call: Call)
    requires SmallRule(rule) && SparseState(l, adm, h, rule, call.now) && l != INITIAL && call.now >= MAX_DURATION
    requires Shaped(l, Only(h, rule)) && call.Allow? && call.hash == h && h !in call.busy
    ensures SparseState(Step(l, Only(h, rule), call).after, AfterCall(adm, l, Only(h, rule), call, h), h, rule, call.now)
  {
    var w, seen := l.buckets[h].windows[0], l.buckets[h].lastSeen;
    var s, c := w.fixedStart, w.fixedRequests;
    var anew := Restarts(rule, s, seen, call.now);
    FixedCall(l, h, rule, s, c, seen, call, if anew then call.now else s, if anew then 0 else c);
    if anew {
      SparseRestart(adm, s, c, seen, rule, call.now);
    } else if c < rule.requests {
      SparseSecond(adm, s, c, seen, rule, call.now);
    }
  }

  lemma {:induction false} SparseRun(h: string, rule: Rule, calls: seq<Call>)
    requires SmallRule(rule) && Modern(calls) && Unraised(calls, h)
    ensures SparseState(Run(Only(h, rule), calls), Admissions(Only(h, rule), calls, h), h, rule, LastTime(calls))
  {
    if calls != [] {
      var front, last := calls[..|calls| - 1], calls[|calls| - 1];
      ClockedPrefix(calls);
      SparseRun(h, rule, front);
      SparseStep(Run(Only(h, rule), front), Admissions(Only(h, rule), front, h), h, rule, last);
    }
  }

  // ---------- Runs that break the bound ----------

  /** The run of `calls` let through `adm` and ends in this state. */
  predicate Reached(h: string, rule: Rule, calls: seq<Call>, adm: seq<int>, s: int, c: int, seen: int) {
    && Modern(calls) && Unraised(calls, h) && calls != [] && LastTime(calls) == seen
    && Admissions(Only(h, rule), calls, h) == adm
    && IsState(Run(Only(h, rule), calls), h, s, c, seen)
    && MAX_DURATION <= s <= seen && 0 <= c <= rule.requests
  }

  lemma {:induction false} Longer(calls: seq<Call>, h: string, t: int)
    requires Modern(calls) && Unraised(calls, h) && t >= MAX_DURATION && (calls == [] || LastTime(calls) <= t)
    ensures
      var more := calls + [Allow(h, t, 0, {})];
      Modern(more) && Unraised(more, h) && LastTime(more) == t
  {
  }

  lemma {:induction false} Begin(h: string, rule: Rule, t: int) returns (calls: seq<Call>)
    requires FixedRule(rule) && t >= MAX_DURATION
    ensures Reached(h, rule, calls, [t], t, 1, t)
  {
    var call := Allow(h, t, 0, {});
    calls := [] + [call];
    Longer([], h, t);
    FirstCall(h, rule, call);
    OneMore(Only(h, rule), [], call, calls, INITIAL, Step(INITIAL, Only(h, rule), call));
    assert [] + [t] == [t];
  }

  lemma {:induction false} NextState(h: string, rule: Rule, calls: seq<Call>, adm: seq<int>, s: int, c: int, seen: int,
                                     t: int, s': int, c': int)
    requires FixedRule(rule) && Reached(h, rule, calls, adm, s, c, seen) && seen <= t
    requires if Restarts(rule, s, seen, t) then s' == t && c' == 1 else s' == s && c' == c + 1 <= rule.requests
    ensures
      var r := Step(Run(Only(h, rule), calls), Only(h, rule), Allow(h, t, 0, {}));
      r.admitted && IsState(r.after, h, s', c', t)
  {
    FixedCall(Run(Only(h, rule), calls), h, rule, s, c, seen, Allow(h, t, 0, {}), s', c' - 1);
  }

  lemma {:induction false} Next(h: string, rule: Rule, calls: seq<Call>, adm: seq<int>, s: int, c: int, seen: int,
                                t: int, adm': seq<int>, s': int, c': int)
    returns (more: seq<Call>)
    requires FixedRule(rule) && Reached(h, rule, calls, adm, s, c, seen) && seen <= t && adm' == adm + [t]
    requires if Restarts(rule, s, seen, t) then s' == t && c' == 1 else s' == s && c' == c + 1 <= rule.requests
    ensures Reached(h, rule, more, adm', s', c', t)
  {
    var call, l := Allow(h, t, 0, {}), Run(Only(h, rule), calls);
    more := calls + [call];
    Longer(calls, h, t);
    NextState(h, rule, calls, adm, s, c, seen, t, s', c');
    OneMore(Only(h, rule), calls, call, more, l, Step(l, Only(h, rule), call));
  }

  lemma {:induction false} CopiesSnoc(adm: seq<int>, k: nat, t: int)
    requires k > 0
    ensures Copies(k - 1, t) + [t] == Copies(k, t)
    ensures adm + Copies(k - 1, t) + [t] == adm + Copies(k, t)
    ensures k == 1 ==> adm + [t] == adm + Copies(1, t)
  {
  }

  lemma {:induction false} FillMore(h: string, rule: Rule, fewer: seq<Call>, adm: seq<int>, t: int, k: nat)
    returns (more: seq<Call>)
    requires FixedRule(rule) && 1 < k <= rule.requests
    requires Reached(h, rule, fewer, adm + Copies(k - 1, t), t, k - 1, t)
    ensures Reached(h, rule, more, adm + Copies(k, t), t, k, t)
  {
    CopiesSnoc(adm, k, t);
    more := Next(h, rule, fewer, adm + Copies(k - 1, t), t, k - 1, t, t, adm + Copies(k, t), t, k);
  }

  lemma {:induction false} FillOne(h: string, rule: Rule, calls: seq<Call>, adm: seq<int>, s: int, c: int, seen: int, t: int)
    returns (more: seq<Call>)
    requires FixedRule(rule) && Reached(h, rule, calls, adm, s, c, seen) && seen <= t && Restarts(rule, s, seen, t)
    ensures Reached(h, rule, more, adm + Copies(1, t), t, 1, t)
  {
    CopiesSnoc(adm, 1, t);
    more := Next(h, rule, calls, adm, s, c, seen, t, adm + Copies(1, t), t, 1);
  }

  /** A new window, filled at once with k requests. */
  lemma {:induction false} Fill(h: string, rule: Rule, calls: seq<Call>, adm: seq<int>, s: int, c: int, seen: int,
                                t: int, k: nat)
    returns (more: seq<Call>)
    requires FixedRule(rule) && Reached(h, rule, calls, adm, s, c, seen) && seen <= t && Restarts(rule, s, seen, t)
    requires 1 <= k <= rule.requests
    ensures Reached(h, rule, more, adm + Copies(k, t), t, k, t)
  {
    if k == 1 {
      more := FillOne(h, rule, calls, adm, s, c, seen, t);
    } else {
      var fewer := Fill(h, rule, calls, adm, s, c, seen, t, k - 1);
      more := FillMore(h, rule, fewer, adm, t, k);
    }
  }

  /** The first window, filled at once. */
  lemma {:induction false} FillFirst(h: string, rule: Rule, t: int, k: nat) returns (calls: seq<Call>)
    requires FixedRule(rule) && t >= MAX_DURATION && 1 <= k <= rule.requests
    ensures Reached(h, rule, calls, Copies(k, t), t, k, t)
  {
    if k == 1 {
      calls := Begin(h, rule, t);
      assert Copies(1, t) == [t];
    } else {
      var fewer := FillFirst(h, rule, t, k - 1);
      CopiesSnoc([], k, t);
      calls := Next(h, rule, fewer, Copies(k - 1, t), t, k - 1, t, t, Copies(k, t), t, k);
    }
  }

  lemma {:induction false} BetweenConcat(a: seq<int>, b: seq<int>, lo: int, hi: int)
    ensures Between(a + b, lo, hi) == Between(a, lo, hi) + Between(b, lo, hi)
  {
    if b == [] {
      assert a + b == a;
    } else {
      var front, t := b[..|b| - 1], b[|b| - 1];
      BetweenConcat(a, front, lo, hi);
      assert a + b == (a + front) + [t];
      BetweenAppend(a + front, t, lo, hi);
    }
  }

  lemma {:induction false} CrowdedSpan(before: seq<int>, t: int, a: nat, u: int, b: nat, v: int, c: nat, d: int, n: nat)
    requires t <= u <= v < t + d && a + b + c > n
    ensures !AtMost(before + Copies(a, t) + Copies(b, u) + Copies(c, v), d, n)
  {
    var adm := before + Copies(a, t) + Copies(b, u) + Copies(c, v);
    var lo, hi := t - 1, t - 1 + d;
    BetweenConcat(before + Copies(a, t) + Copies(b, u), Copies(c, v), lo, hi);
    BetweenConcat(before + Copies(a, t), Copies(b, u), lo, hi);
    BetweenConcat(before, Copies(a, t), lo, hi);
    CopiesBetween(a, t, lo, hi);
    CopiesBetween(b, u, lo, hi);
    CopiesBetween(c, v, lo, hi);
    assert Span(adm, lo, d) > n;
  }

  /** Three windows, each a day and a nanosecond after the one before: the collector restarts twice. */
  lemma {:induction false} TwoRestarts(h: string, rule: Rule) returns (calls: seq<Call>)
    requires FixedRule(rule) && rule.duration >= 2 * DAY + 3
    ensures Modern(calls) && Unraised(calls, h)
    ensures !AtMost(Admissions(Only(h, rule), calls, h), rule.duration, 2 * rule.requests)
  {
    var n, t := rule.requests, MAX_DURATION;
    var u, v := t + DAY + 1, t + 2 * DAY + 2;
    calls := FillFirst(h, rule, t, n);
    calls := Fill(h, rule, calls, Copies(n, t), t, n, t, u, n);
    calls := Fill(h, rule, calls, Copies(n, t) + Copies(n, u), u, n, u, v, 1);
    CrowdedSpan([], t, n, u, n, v, 1, rule.duration, 2 * n);
    assert [] + Copies(n, t) == Copies(n, t);
  }

  /** A window that ends by itself, with an admission just before its end, and one restart a day later. */
  lemma {:induction false} EndAndRestart(h: string, rule: Rule) returns (calls: seq<Call>)
    requires FixedRule(rule) && rule.requests >= 3 && DAY + 3 <= rule.duration <= 2 * DAY + 2
    ensures Modern(calls) && Unraised(calls, h)
    ensures !AtMost(Admissions(Only(h, rule), calls, h), rule.duration, 2 * rule.requests)
  {
    var n, d, t := rule.requests, rule.duration, MAX_DURATION;
    var late, u, v := t + DAY + 2, t + d, t + d + DAY + 1;
    var before := [t] + [t + 2];
    calls := Begin(h, rule, t);
    calls := Next(h, rule, calls, [t], t, 1, t, t + 2, before, t, 2);
    CopiesSnoc(before, 1, late);
    calls := Next(h, rule, calls, before, t, 2, t + 2, late, before + Copies(1, late), t, 3);
    calls := Fill(h, rule, calls, before + Copies(1, late), t, 3, late, u, n);
    calls := Fill(h, rule, calls, before + Copies(1, late) + Copies(n, u), u, n, u, v, n);
    CrowdedSpan(before, late, 1, u, n, v, n, d, 2 * n);
  }

  // ---------- The threshold ----------

  ghost predicate KeepsFixedBound(h: string, rule: Rule) {
    forall calls: seq<Call> :: Modern(calls) && Unraised(calls, h) ==> KeepsTwice(Admissions(Only(h, rule), calls, h), rule)
  }

  ghost predicate KeepsTwice(adm: seq<int>, rule: Rule) {
    AtMost(adm, rule.duration, 2 * rule.requests)
  }

  function LongestKept(rule: Rule): int {
    if rule.requests <= 2 then 2 * DAY + 2 else DAY + 2
  }

  /** Main result: a token's only rule, fixed, without a token limit, keeps every run within 2N per d exactly when d is
      at most two days and two nanoseconds, for N of one or two, and at most a day and two nanoseconds for N of three or
      more. */
  lemma {:induction false} FixedBoundThreshold(h: string, rule: Rule)
    requires PlainFixed(rule)
    ensures KeepsFixedBound(h, rule) <==> rule.duration <= LongestKept(rule)
  {
    if rule.duration <= LongestKept(rule) {
      forall calls: seq<Call> | Modern(calls) && Unraised(calls, h)
        ensures KeepsTwice(Admissions(Only(h, rule), calls, h), rule)
      {
        if rule.requests <= 2 {
          SparseRun(h, rule, calls);
        } else {
          FixedWindowBound(Only(h, rule), calls, h, 0);
        }
      }
    } else {
      var calls;
      if rule.duration >= 2 * DAY + 3 {
        calls := TwoRestarts(h, rule);
      } else {
        calls := EndAndRestart(h, rule);
      }
      assert !KeepsTwice(Admissions(Only(h, rule), calls, h), rule);
    }
  }
}
