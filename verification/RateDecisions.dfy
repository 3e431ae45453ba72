/** What an `Allow` answers, said without the functions that compute it: by the counter, the configured limits and what
    the windows have logged; and, for a token with sliding rules, by the history of its calls alone. */
module RateDecisions {
  import opened RateWindow
  import opened RateHistory
  import opened RateBounds
  import opened RateTokens

  // ---------- What a window has logged ----------

  function After(log: seq<int>, cutoff: int): set<int> {
    set i | 0 <= i < |log| && log[i] > cutoff
  }

  /** The requests a window has for its last d. */
  function RequestsIn(w: Window, rule: Rule, now: int): int {
    if rule.strategy == "fixed" then if now - w.fixedStart >= rule.duration then 0 else w.fixedRequests
    else |After(w.requests, now - rule.duration)|
  }

  function SumSince(log: seq<TokenEntry>, cutoff: int): int {
    if log == [] then 0
    else (if log[0].t > cutoff then log[0].count else 0) + SumSince(log[1..], cutoff)
  }

  function TokensIn(w: Window, rule: Rule, now: int): int {
    if rule.strategy == "fixed" then if now - w.fixedStart >= rule.duration then 0 else w.fixedTokens
    else SumSince(w.tokens, now - rule.duration)
  }

  /** Requests and tokens are below their limits, where there are limits. */
  predicate Below(w: Window, rule: Rule, now: int) {
    (rule.requests <= 0 || RequestsIn(w, rule, now) < rule.requests)
    && (rule.tokens <= 0 || TokensIn(w, rule, now) < rule.tokens)
  }

  lemma {:induction false} RecentCount(log: seq<int>, cutoff: int)
    ensures |Recent(log, cutoff)| == |After(log, cutoff)|
  {
    if log != [] {
      var n := |log| - 1;
      RecentCount(log[..n], cutoff);
      assert After(log, cutoff) == After(log[..n], cutoff) + if log[n] > cutoff then {n} else {};
    }
  }

  lemma {:induction false} SumSinceSnoc(log: seq<TokenEntry>, cutoff: int)
    requires log != []
    ensures
      var e := log[|log| - 1];
      SumSince(log, cutoff) == SumSince(log[..|log| - 1], cutoff) + if e.t > cutoff then e.count else 0
  {
    if |log| > 1 {
      SumSinceSnoc(log[1..], cutoff);
      assert log[1..][..|log| - 2] == log[..|log| - 1][1..];
    }
  }

  lemma {:induction false} RecentSum(log: seq<TokenEntry>, cutoff: int)
    ensures Total(RecentTokens(log, cutoff)) == SumSince(log, cutoff)
  {
    if log != [] {
      var n := |log| - 1;
      RecentSum(log[..n], cutoff);
      SumSinceSnoc(log, cutoff);
      if log[n].t > cutoff {
        TotalAppend(RecentTokens(log[..n], cutoff), log[n]);
      }
    }
  }

  lemma {:induction false} RoomIsBelow(w: Window, rule: Rule, now: int)
    requires rule.Valid()
    ensures HasRoom(w, rule, now) <==> Below(w, rule, now)
  {
    RecentCount(w.requests, now - rule.duration);
    RecentSum(w.tokens, now - rule.duration);
  }

  // ---------- What a call finds ----------

  /** The bucket is there when the collector is done: less than a minute has passed since it last ran, or the token is
      in use, or was seen within a day. */
  predicate Survives(l: Limiter, h: string, now: int, busy: set<string>) {
    h in l.buckets
    && (|| (l.lastGC != 0 && now - l.lastGC < 60_000_000_000)
        || h in busy
        || l.buckets[h].lastSeen == 0 || now - l.buckets[h].lastSeen <= 86_400_000_000_000)
  }

  lemma {:induction false} CollectsExactly(l: Limiter, h: string, now: int, busy: set<string>)
    ensures h in Collect(l, now, busy).buckets <==> Survives(l, h, now, busy)
    ensures Survives(l, h, now, busy) ==> Collect(l, now, busy).buckets[h] == l.buckets[h]
  {
  }

  function FoundWindow(l: Limiter, cfg: Configs, h: string, i: nat, now: int, busy: set<string>): Window
    requires Shaped(l, cfg) && h in cfg && i < |cfg[h].rules|
  {
    if Survives(l, h, now, busy) then l.buckets[h].windows[i] else Window([], [], 0, 0, 0)
  }

  predicate AllBelow(l: Limiter, cfg: Configs, h: string, now: int, busy: set<string>)
    requires Shaped(l, cfg) && h in cfg
  {
    forall i :: 0 <= i < |cfg[h].rules| ==> Below(FoundWindow(l, cfg, h, i, now, busy), cfg[h].rules[i], now)
  }

  /** There is no configuration, or the counter is below a positive max_parallel and each rule's requests and tokens are
      below their limits. */
  predicate Admissible(l: Limiter, cfg: Configs, h: string, now: int, parallel: int, busy: set<string>)
    requires Shaped(l, cfg)
  {
    h in cfg ==>
      && (cfg[h].maxParallel > 0 ==> parallel < cfg[h].maxParallel)
      && AllBelow(l, cfg, h, now, busy)
  }

  predicate ValidRules(cfg: Configs, h: string) {
    h in cfg ==> forall i :: 0 <= i < |cfg[h].rules| ==> cfg[h].rules[i].Valid()
  }

  lemma {:induction false} AdmitsIsBelow(l: Limiter, cfg: Configs, h: string, now: int, busy: set<string>)
    requires Shaped(l, cfg) && h in cfg && ValidRules(cfg, h)
    ensures
      var g := WithBucket(l, h, cfg[h], now, busy);
      && g.buckets[h].maxParallel == cfg[h].maxParallel && |g.buckets[h].windows| == |cfg[h].rules|
      && (Admits(g.buckets[h].windows, cfg[h].rules, now) <==> AllBelow(l, cfg, h, now, busy))
  {
    CollectsExactly(l, h, now, busy);
    var ws := WithBucket(l, h, cfg[h], now, busy).buckets[h].windows;
    forall i | 0 <= i < |cfg[h].rules|
      ensures ws[i] == FoundWindow(l, cfg, h, i, now, busy)
      ensures HasRoom(ws[i], cfg[h].rules[i], now)
         <==> Below(FoundWindow(l, cfg, h, i, now, busy), cfg[h].rules[i], now)
    {
      RoomIsBelow(ws[i], cfg[h].rules[i], now);
    }
  }

  /** Main result: in every state a call is let through exactly if there is no configuration, or the counter is below a
      positive max_parallel and what each rule's window has logged is below its limits. */
  lemma {:induction false} AllowedExactly(l: Limiter, cfg: Configs, h: string, now: int, parallel: int,
                                          busy: set<string>)
    requires Shaped(l, cfg) && ValidRules(cfg, h)
    ensures Step(l, cfg, Allow(h, now, parallel, busy)).admitted <==> Admissible(l, cfg, h, now, parallel, busy)
  {
    if h in cfg {
      AdmitsIsBelow(l, cfg, h, now, busy);
    }
  }

  /** Main result: over every run, a call whose counter reads max_parallel or more is refused, whatever the rules. */
  lemma {:induction false} CrowdRefused(cfg: Configs, calls: seq<Call>, k: nat)
    requires k < |calls| && calls[k].Allow? && calls[k].hash in cfg
    requires 0 < cfg[calls[k].hash].maxParallel <= calls[k].parallel
    ensures !LastAdmitted(cfg, calls[..k + 1])
  {
    assert calls[..k + 1][..k] == calls[..k];
  }

  // ---------- What a call records ----------

  lemma {:induction false} CheckedAlike(w: Window, rule: Rule, now: int)
    requires rule.Valid()
    ensures RequestsIn(Checked(w, rule, now), rule, now) == RequestsIn(w, rule, now)
    ensures TokensIn(Checked(w, rule, now), rule, now) == TokensIn(w, rule, now)
  {
  }

  lemma {:induction false} LogGains(log: seq<int>, more: seq<int>, now: int, cutoff: int)
    requires more == Recent(log + [now], cutoff)
    ensures |After(more, cutoff)| == |After(log, cutoff)| + if now > cutoff then 1 else 0
  {
    RecentAppend(log, now, cutoff);
    RecentTwice(log + [now], cutoff, cutoff);
    RecentCount(log, cutoff);
    RecentCount(more, cutoff);
  }

  lemma {:induction false} RequestRecorded(w: Window, rule: Rule, now: int)
    requires rule.Valid() && rule.duration > 0
    ensures
      var w' := Recorded(Checked(w, rule, now), rule, now);
      && RequestsIn(w', rule, now) == RequestsIn(w, rule, now) + (if rule.requests > 0 then 1 else 0)
      && TokensIn(w', rule, now) == TokensIn(w, rule, now)
  {
    CheckedAlike(w, rule, now);
    if !rule.Fixed() && rule.requests > 0 {
      LogGains(w.requests, Recorded(Checked(w, rule, now), rule, now).requests, now, now - rule.duration);
    }
  }

  lemma {:induction false} SumGains(log: seq<TokenEntry>, more: seq<TokenEntry>, e: TokenEntry, cutoff: int)
    requires more == RecentTokens(log + [e], cutoff)
    ensures SumSince(more, cutoff) == SumSince(log, cutoff) + if e.t > cutoff then e.count else 0
  {
    RecentTokensAppend(log, e, cutoff);
    RecentTokensTwice(log + [e], cutoff, cutoff);
    RecentSum(log, cutoff);
    RecentSum(more, cutoff);
    if e.t > cutoff {
      TotalAppend(RecentTokens(log, cutoff), e);
    } else {
      assert RecentTokens(log, cutoff) + [] == RecentTokens(log, cutoff);
    }
  }

  lemma {:induction false} TokensCounted(w: Window, rule: Rule, now: int, n: int)
    requires rule.Valid() && rule.duration > 0 && rule.tokens > 0
    ensures
      var w' := AddTokens(w, rule, now, n);
      && TokensIn(w', rule, now) == TokensIn(w, rule, now) + n
      && RequestsIn(w', rule, now) == RequestsIn(w, rule, now)
  {
    if !rule.Fixed() {
      SumGains(w.tokens, AddTokens(w, rule, now, n).tokens, TokenEntry(now, n), now - rule.duration);
    }
  }

  lemma {:induction false} AllowRecords(ws: seq<Window>, rules: seq<Rule>, now: int, i: nat)
    requires |ws| == |rules| && i < |ws| && rules[i].Valid() && rules[i].duration > 0
    ensures
      var w' := AllowWindows(ws, rules, now)[i];
      && RequestsIn(w', rules[i], now) == RequestsIn(ws[i], rules[i], now)
           + (if Admits(ws, rules, now) && rules[i].requests > 0 then 1 else 0)
      && TokensIn(w', rules[i], now) == TokensIn(ws[i], rules[i], now)
  {
    PassingIsAdmits(ws, rules, now);
    CheckedAlike(ws[i], rules[i], now);
    RequestRecorded(ws[i], rules[i], now);
  }

  lemma {:induction false} AllowedWindow(l: Limiter, cfg: Configs, call: Call, h: string, i: nat, ws: seq<Window>)
    requires Shaped(l, cfg) && call.Allow? && call.hash == h && h in cfg && i < |cfg[h].rules|
    requires ws == WithBucket(l, h, cfg[h], call.now, call.busy).buckets[h].windows
    ensures |ws| == |cfg[h].rules|
    ensures
      var r, crowd := Step(l, cfg, call), 0 < cfg[h].maxParallel <= call.parallel;
      && (r.admitted <==> !crowd && Admits(ws, cfg[h].rules, call.now))
      && WindowOf(r.after, cfg, h, i) == if crowd then ws[i] else AllowWindows(ws, cfg[h].rules, call.now)[i]
  {
  }

  lemma {:induction false} FoundIs(l: Limiter, cfg: Configs, h: string, i: nat, now: int, busy: set<string>)
    requires Shaped(l, cfg) && h in cfg && i < |cfg[h].rules|
    ensures
      var ws := WithBucket(l, h, cfg[h], now, busy).buckets[h].windows;
      |ws| == |cfg[h].rules| && ws[i] == FoundWindow(l, cfg, h, i, now, busy)
  {
    CollectsExactly(l, h, now, busy);
  }

  /** Main result: in every state, a call that is let through adds one request under every rule that limits requests,
      and one that is refused adds none under any; neither adds tokens. */
  lemma {:induction false} RecordsExactly(l: Limiter, cfg: Configs, call: Call, h: string, i: nat)
    requires Shaped(l, cfg) && call.Allow? && call.hash == h && h in cfg && i < |cfg[h].rules|
    requires cfg[h].rules[i].Valid() && cfg[h].rules[i].duration > 0
    ensures
      var r, rule := Step(l, cfg, call), cfg[h].rules[i];
      var w, w' := FoundWindow(l, cfg, h, i, call.now, call.busy), WindowOf(r.after, cfg, h, i);
      && RequestsIn(w', rule, call.now) == RequestsIn(w, rule, call.now)
           + (if r.admitted && rule.requests > 0 then 1 else 0)
      && TokensIn(w', rule, call.now) == TokensIn(w, rule, call.now)
  {
    var ws := WithBucket(l, h, cfg[h], call.now, call.busy).buckets[h].windows;
    FoundIs(l, cfg, h, i, call.now, call.busy);
    AllowedWindow(l, cfg, call, h, i, ws);
    AllowRecords(ws, cfg[h].rules, call.now, i);
  }

  /** Main result: recording tokens adds them under every rule that limits tokens, if the bucket is there, and nothing
      else. */
  lemma {:induction false} TokensExactly(l: Limiter, cfg: Configs, call: Call, h: string, i: nat)
    requires Shaped(l, cfg) && call.RecordTokens? && h in cfg && i < |cfg[h].rules|
    requires cfg[h].rules[i].Valid() && cfg[h].rules[i].duration > 0
    ensures
      var after, rule := Step(l, cfg, call).after, cfg[h].rules[i];
      var w, w' := WindowOf(l, cfg, h, i), WindowOf(after, cfg, h, i);
      && (h in after.buckets <==> h in l.buckets)
      && TokensIn(w', rule, call.now) == TokensIn(w, rule, call.now)
           + (if call.hash == h && h in l.buckets && rule.tokens > 0 then call.count else 0)
      && RequestsIn(w', rule, call.now) == RequestsIn(w, rule, call.now)
  {
    if call.hash == h && h in l.buckets && cfg[h].rules[i].tokens > 0 {
      TokensCounted(l.buckets[h].windows[i], cfg[h].rules[i], call.now, call.count);
    }
  }

  // ---------- By the history alone ----------

  predicate Looks(cfg: Configs, call: Call, h: string)
    requires h in cfg
  {
    call.hash == h && (call.Allow? || (call.Acquire? && cfg[h].maxParallel != 0))
  }

  /** Tokens are kept of a token with rules exactly from its first look-up on. */
  lemma {:induction false} KnownExactly(cfg: Configs, calls: seq<Call>, h: string)
    requires h in cfg && cfg[h].rules != []
    ensures Known(cfg, calls, h) <==> exists j :: 0 <= j < |calls| && Looks(cfg, calls[j], h)
  {
    if calls != [] {
      var n := |calls| - 1;
      KnownExactly(cfg, calls[..n], h);
      KnownStep(ArchiveRun(cfg, calls[..n]), cfg, calls[n], h);
      LooksSnoc(cfg, calls, h);
    }
  }

  lemma {:induction false} LooksSnoc(cfg: Configs, calls: seq<Call>, h: string)
    requires h in cfg && calls != []
    ensures
      var n := |calls| - 1;
      (exists j :: 0 <= j < |calls| && Looks(cfg, calls[j], h))
      <==> (exists j :: 0 <= j < n && Looks(cfg, calls[..n][j], h)) || Looks(cfg, calls[n], h)
  {
    var n := |calls| - 1;
    assert forall j :: 0 <= j < n ==> calls[..n][j] == calls[j];
  }

  lemma {:induction false} KnownStep(a: Archive, cfg: Configs, call: Call, h: string)
    requires ArchiveShaped(a, cfg) && h in cfg && cfg[h].rules != []
    ensures h in ArchiveStep(a, cfg, call).after.lastSeen
       <==> h in a.lastSeen || Looks(cfg, call, h)
  {
  }

  /** A sliding rule whose window is forgotten only when it no longer matters. */
  predicate ShortSliding(rule: Rule, lag: nat) {
    && !rule.Fixed() && rule.Valid()
    && (rule.requests > 0 ==> rule.duration <= DAY + 1)
    && (rule.tokens > 0 ==> rule.duration + lag <= DAY + 1)
  }

  /** Fewer than N admissions and fewer than N tokens in the last d, over the whole history. */
  predicate HistoryBelow(adm: seq<int>, log: seq<TokenEntry>, rule: Rule, now: int) {
    && (rule.requests > 0 ==> Between(adm, now - rule.duration, now) < rule.requests)
    && (rule.tokens > 0 ==> SumSince(log, now - rule.duration) < rule.tokens)
  }

  lemma {:induction false} BetweenAll(adm: seq<int>, lo: int, hi: int)
    requires NotAfter(adm, hi)
    ensures Between(adm, lo, hi) == |Recent(adm, lo)|
  {
    if adm != [] {
      BetweenAll(adm[..|adm| - 1], lo, hi);
    }
  }

  predicate RequestsAgree(adm: seq<int>, s: Window, rule: Rule, now: int) {
    rule.requests > 0 ==> |Recent(s.requests, now - rule.duration)| == Between(adm, now - rule.duration, now)
  }

  predicate TokensAgree(log: seq<TokenEntry>, s: Window, rule: Rule, now: int) {
    rule.tokens > 0 ==> Total(RecentTokens(s.tokens, now - rule.duration)) == SumSince(log, now - rule.duration)
  }

  lemma {:induction false} RequestsFound(cfg: Configs, calls: seq<Call>, call: Call, h: string, i: nat)
    requires Clocked(calls) && LastTime(calls) <= call.now && h in cfg && i < |cfg[h].rules|
    requires !cfg[h].rules[i].Fixed() && 0 < cfg[h].rules[i].requests && cfg[h].rules[i].duration <= DAY + 1
    ensures RequestsAgree(Admissions(cfg, calls, h), Swept(Run(cfg, calls), cfg, call, h, i), cfg[h].rules[i], call.now)
  {
    var l, adm, rule := Run(cfg, calls), Admissions(cfg, calls, h), cfg[h].rules[i];
    SlidingRun(cfg, calls, h, i);
    LimiterStep(l, cfg, call, h, i);
    SlidingLater(adm, WindowOf(l, cfg, h, i), rule, LastTime(calls), call.now);
    if Drops(l, cfg, call, h) {
      SlidingDropped(adm, WindowOf(l, cfg, h, i), rule, l.buckets[h].lastSeen, call.now);
    }
    BetweenAll(adm, call.now - rule.duration, call.now);
  }

  lemma {:induction false} KnownSum(log: seq<TokenEntry>, s: Window, rule: Rule, now: int)
    requires !rule.Fixed() && Knows(log, s, rule, now)
    ensures TokensAgree(log, s, rule, now)
  {
    RecentSum(log, now - rule.duration);
  }

  lemma {:induction false} TokensFound(cfg: Configs, calls: seq<Call>, call: Call, h: string, i: nat, lag: nat)
    requires Clocked(calls) && LastTime(calls) <= call.now && h in cfg && i < |cfg[h].rules|
    requires Punctual(cfg, calls, h, lag) && !cfg[h].rules[i].Fixed() && TokenRule(cfg[h].rules[i], lag)
    ensures TokensAgree(TokenLog(cfg, calls, h), Swept(Run(cfg, calls), cfg, call, h, i), cfg[h].rules[i], call.now)
  {
    TokenRun(cfg, calls, h, i, lag);
    KnowsSwept(TokenLog(cfg, calls, h), Run(cfg, calls), ArchiveRun(cfg, calls), cfg, call, h, i, lag, LastTime(calls));
    KnownSum(TokenLog(cfg, calls, h), Swept(Run(cfg, calls), cfg, call, h, i), cfg[h].rules[i], call.now);
  }

  lemma {:induction false} AgreeDecides(adm: seq<int>, log: seq<TokenEntry>, s: Window, rule: Rule, now: int)
    requires !rule.Fixed() && RequestsAgree(adm, s, rule, now) && TokensAgree(log, s, rule, now)
    ensures HasRoom(s, rule, now) <==> HistoryBelow(adm, log, rule, now)
  {
  }

  lemma {:induction false} RoomIsHistory(cfg: Configs, calls: seq<Call>, call: Call, h: string, i: nat, lag: nat)
    requires Clocked(calls) && LastTime(calls) <= call.now && h in cfg && i < |cfg[h].rules| && lag <= DAY
    requires Punctual(cfg, calls, h, lag) && ShortSliding(cfg[h].rules[i], lag)
    ensures HasRoom(Swept(Run(cfg, calls), cfg, call, h, i), cfg[h].rules[i], call.now)
       <==> HistoryBelow(Admissions(cfg, calls, h), TokenLog(cfg, calls, h), cfg[h].rules[i], call.now)
  {
    var rule := cfg[h].rules[i];
    if rule.requests > 0 {
      RequestsFound(cfg, calls, call, h, i);
    }
    if rule.tokens > 0 {
      TokensFound(cfg, calls, call, h, i, lag);
    }
    AgreeDecides(Admissions(cfg, calls, h), TokenLog(cfg, calls, h), Swept(Run(cfg, calls), cfg, call, h, i), rule,
                 call.now);
  }

  lemma {:induction false} DecidedBySwept(l: Limiter, cfg: Configs, call: Call, h: string)
    requires Shaped(l, cfg) && call.Allow? && call.hash == h && h in cfg && cfg[h].rules != []
    ensures Step(l, cfg, call).admitted
       <==> (cfg[h].maxParallel > 0 ==> call.parallel < cfg[h].maxParallel)
            && forall i :: 0 <= i < |cfg[h].rules| ==> HasRoom(Swept(l, cfg, call, h, i), cfg[h].rules[i], call.now)
  {
    var ws := WithBucket(l, h, cfg[h], call.now, call.busy).buckets[h].windows;
    forall i | 0 <= i < |cfg[h].rules| ensures ws[i] == Swept(l, cfg, call, h, i) {
      LookUpSweeps(l, cfg, call, h, i);
    }
  }

  /** Main result: over every run, a request of a token with short sliding rules is let through exactly if the counter
      is below a positive max_parallel and, for each rule, fewer than N requests were let through and fewer than N
      tokens recorded within the last d: the whole history decides, whatever was pruned and collected. */
  lemma {:induction false} HistoryDecides(cfg: Configs, calls: seq<Call>, call: Call, h: string, lag: nat)
    requires Clocked(calls) && LastTime(calls) <= call.now && Punctual(cfg, calls, h, lag) && lag <= DAY
    requires call.Allow? && call.hash == h && h in cfg && cfg[h].rules != []
    requires forall i :: 0 <= i < |cfg[h].rules| ==> ShortSliding(cfg[h].rules[i], lag)
    ensures Step(Run(cfg, calls), cfg, call).admitted
       <==> (cfg[h].maxParallel > 0 ==> call.parallel < cfg[h].maxParallel)
            && forall i :: 0 <= i < |cfg[h].rules| ==>
                 HistoryBelow(Admissions(cfg, calls, h), TokenLog(cfg, calls, h), cfg[h].rules[i], call.now)
  {
    DecidedBySwept(Run(cfg, calls), cfg, call, h);
    forall i | 0 <= i < |cfg[h].rules|
      ensures HasRoom(Swept(Run(cfg, calls), cfg, call, h, i), cfg[h].rules[i], call.now)
         <==> HistoryBelow(Admissions(cfg, calls, h), TokenLog(cfg, calls, h), cfg[h].rules[i], call.now)
    {
      RoomIsHistory(cfg, calls, call, h, i, lag);
    }
  }
}
