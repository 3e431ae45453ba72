/** What a token limit promises over whole runs. Tokens are recorded after the requests that cost them, so any number
    may follow an admission; the limit is on what the admission found. */
module RateTokens {
  import opened RateWindow
  import opened RateHistory
  import opened RateBounds

  /** The token was looked up at some time, so that it has had a bucket. */
  predicate Known(cfg: Configs, calls: seq<Call>, h: string) {
    h in ArchiveRun(cfg, calls).lastSeen
  }

  /** All tokens recorded for `h`, but for those of a token nobody had looked up. */
  function TokenLog(cfg: Configs, calls: seq<Call>, h: string): seq<TokenEntry> {
    if calls == [] then []
    else
      var front, last := calls[..|calls| - 1], calls[|calls| - 1];
      TokenLog(cfg, front, h)
        + if last.RecordTokens? && last.hash == h && last.count != 0 && Known(cfg, front, h)
          then [TokenEntry(last.now, last.count)] else []
  }

  // ---------- When the bucket was last seen ----------

  /** A bucket was seen when the reference says; one that is missing was not seen for over a day. */
  predicate SeenAlike(l: Limiter, a: Archive, h: string, now: int) {
    && (h in l.buckets ==> h in a.lastSeen && l.buckets[h].lastSeen == a.lastSeen[h])
    && (h in a.lastSeen ==> DAY < a.lastSeen[h] <= now)
    && (h in a.lastSeen && h !in l.buckets ==> now - a.lastSeen[h] > DAY)
  }

  lemma {:induction false} OtherBucket(l: Limiter, cfg: Configs, call: Call, h: string)
    requires Shaped(l, cfg) && call.hash != h
    ensures
      var l' := Step(l, cfg, call).after;
      && (h in l'.buckets ==> h in l.buckets && l'.buckets[h] == l.buckets[h])
      && (h in l.buckets && h !in l'.buckets ==> Stale(l.buckets[h].lastSeen, call.now))
  {
    assert h in l.buckets && h !in Collect(l, call.now, {}).buckets ==> Stale(l.buckets[h].lastSeen, call.now);
  }

  lemma {:induction false} OtherArchived(a: Archive, cfg: Configs, call: Call, h: string)
    requires ArchiveShaped(a, cfg) && call.hash != h
    ensures
      var a' := ArchiveStep(a, cfg, call).after;
      (h in a'.lastSeen <==> h in a.lastSeen) && (h in a.lastSeen ==> a'.lastSeen[h] == a.lastSeen[h])
  {
  }

  lemma {:induction false} SeenAlikeOther(l: Limiter, a: Archive, h: string, t: int, l': Limiter, a': Archive, now: int)
    requires SeenAlike(l, a, h, t) && t <= now
    requires h in l'.buckets ==> h in l.buckets && l'.buckets[h] == l.buckets[h]
    requires h in l.buckets && h !in l'.buckets ==> Stale(l.buckets[h].lastSeen, now)
    requires h in a'.lastSeen <==> h in a.lastSeen
    requires h in a.lastSeen ==> a'.lastSeen[h] == a.lastSeen[h]
    ensures SeenAlike(l', a', h, now)
  {
  }

  lemma {:induction false} SeenAlikeOwn(l: Limiter, a: Archive, cfg: Configs, call: Call, t: int)
    requires Shaped(l, cfg) && ArchiveShaped(a, cfg) && SeenAlike(l, a, call.hash, t) && t <= call.now && call.now > DAY
    ensures SeenAlike(Step(l, cfg, call).after, ArchiveStep(a, cfg, call).after, call.hash, call.now)
  {
    var l', a' := Step(l, cfg, call).after, ArchiveStep(a, cfg, call).after;
    if LooksUp(cfg, call) {
      assert call.hash in l'.buckets && l'.buckets[call.hash].lastSeen == call.now;
    } else {
      assert a'.lastSeen == a.lastSeen;
    }
  }

  lemma {:induction false} SeenAlikeStep(l: Limiter, a: Archive, cfg: Configs, call: Call, h: string, t: int)
    requires Shaped(l, cfg) && ArchiveShaped(a, cfg) && SeenAlike(l, a, h, t) && t <= call.now && call.now > DAY
    ensures SeenAlike(Step(l, cfg, call).after, ArchiveStep(a, cfg, call).after, h, call.now)
  {
    if call.hash == h {
      SeenAlikeOwn(l, a, cfg, call, t);
    } else {
      OtherBucket(l, cfg, call, h);
      OtherArchived(a, cfg, call, h);
      SeenAlikeOther(l, a, h, t, Step(l, cfg, call).after, ArchiveStep(a, cfg, call).after, call.now);
    }
  }

  // ---------- One call ----------

  predicate Records(l: Limiter, call: Call, h: string) {
    call.RecordTokens? && call.hash == h && call.count != 0 && h in l.buckets
  }

  lemma {:induction false} Recording(l: Limiter, cfg: Configs, call: Call, h: string, i: nat)
    requires Shaped(l, cfg) && h in cfg && i < |cfg[h].rules| && cfg[h].rules[i].tokens > 0 && Records(l, call, h)
    ensures Swept(l, cfg, call, h, i) == WindowOf(l, cfg, h, i)
    ensures WindowOf(Step(l, cfg, call).after, cfg, h, i)
         == AddTokens(WindowOf(l, cfg, h, i), cfg[h].rules[i], call.now, call.count)
  {
  }

  /** Without recording, the part that counts tokens only ages. */
  predicate Aged(w: Window, w': Window, rule: Rule, now: int) {
    if rule.Fixed() then
      || (w'.fixedStart == w.fixedStart && w'.fixedTokens == w.fixedTokens)
      || (w'.fixedStart == Roll(w, rule, now).fixedStart && w'.fixedTokens == Roll(w, rule, now).fixedTokens)
    else w'.tokens == w.tokens
  }

  lemma {:induction false} AllowAges(ws: seq<Window>, rules: seq<Rule>, now: int, i: nat)
    requires |ws| == |rules| && i < |ws| && rules[i].tokens > 0
    ensures Aged(ws[i], AllowWindows(ws, rules, now)[i], rules[i], now)
  {
  }

  lemma {:induction false} LookUpSweeps(l: Limiter, cfg: Configs, call: Call, h: string, i: nat)
    requires Shaped(l, cfg) && h in cfg && i < |cfg[h].rules| && call.hash == h && LooksUp(cfg, call)
    ensures
      var g := WithBucket(l, h, cfg[h], call.now, call.busy);
      Shaped(g, cfg) && WindowOf(g, cfg, h, i) == Swept(l, cfg, call, h, i)
  {
  }

  lemma {:induction false} NotRecordingOwn(l: Limiter, cfg: Configs, call: Call, i: nat)
    requires Shaped(l, cfg) && call.hash in cfg && i < |cfg[call.hash].rules| && cfg[call.hash].rules[i].tokens > 0
    requires !call.RecordTokens?
    ensures Aged(Swept(l, cfg, call, call.hash, i), WindowOf(Step(l, cfg, call).after, cfg, call.hash, i),
                 cfg[call.hash].rules[i], call.now)
  {
    if LooksUp(cfg, call) {
      LookUpSweeps(l, cfg, call, call.hash, i);
      var g := WithBucket(l, call.hash, cfg[call.hash], call.now, call.busy);
      AllowAges(g.buckets[call.hash].windows, cfg[call.hash].rules, call.now, i);
    }
  }

  lemma {:induction false} NotRecording(l: Limiter, cfg: Configs, call: Call, h: string, i: nat)
    requires Shaped(l, cfg) && h in cfg && i < |cfg[h].rules| && cfg[h].rules[i].tokens > 0 && !Records(l, call, h)
    ensures Aged(Swept(l, cfg, call, h, i), WindowOf(Step(l, cfg, call).after, cfg, h, i), cfg[h].rules[i], call.now)
  {
    if call.hash != h {
      OtherCall(l, cfg, call, h, i);
    } else if call.RecordTokens? {
      assert Step(l, cfg, call).after == l;
    } else {
      NotRecordingOwn(l, cfg, call, i);
    }
  }

  // ---------- What a window knows of the tokens recorded ----------

  predicate Before(log: seq<TokenEntry>, now: int) {
    forall j :: 0 <= j < |log| ==> log[j].t < now
  }

  /** A fixed window that is not over has counted all tokens since its start; a sliding log still has all that count. */
  predicate Knows(log: seq<TokenEntry>, w: Window, rule: Rule, now: int) {
    if !rule.Fixed() then RecentTokens(w.tokens, now - rule.duration) == RecentTokens(log, now - rule.duration)
    else
      && w.fixedStart <= now
      && (if Over(w, rule, now) then Before(log, now)
          else Before(log, w.fixedStart + rule.duration)
               && w.fixedTokens == Total(RecentTokens(log, w.fixedStart - 1)))
  }

  /** A fixed window may be of any length; a sliding one must be short enough to be forgotten. */
  predicate TokenRule(rule: Rule, lag: nat) {
    && rule.tokens > 0 && rule.Valid() && lag <= DAY
    && (if rule.Fixed() then rule.duration > 0 else rule.duration + lag <= DAY + 1)
  }

  lemma {:induction false} KnowsLater(log: seq<TokenEntry>, w: Window, rule: Rule, lag: nat, t: int, now: int)
    requires TokenRule(rule, lag) && Knows(log, w, rule, t) && t <= now
    ensures Knows(log, w, rule, now)
  {
    if !rule.Fixed() {
      RecentTokensTwice(w.tokens, t - rule.duration, now - rule.duration);
      RecentTokensTwice(log, t - rule.duration, now - rule.duration);
    }
  }

  lemma {:induction false} KnowsCollected(log: seq<TokenEntry>, rule: Rule, lag: nat, seen: int, now: int)
    requires TokenRule(rule, lag) && Before(log, seen + lag + 1) && now - seen > DAY
    requires rule.Fixed() ==> now >= MAX_DURATION
    ensures Knows(log, FRESH, rule, now)
  {
    RecentTokensOld(FRESH.tokens, now - rule.duration);
    if !rule.Fixed() {
      RecentTokensOld(log, now - rule.duration);
    }
  }

  lemma {:induction false} KnowsRolled(log: seq<TokenEntry>, w: Window, rule: Rule, lag: nat, now: int)
    requires TokenRule(rule, lag) && rule.Fixed() && Knows(log, w, rule, now)
    ensures Knows(log, Roll(w, rule, now), rule, now) && !Over(Roll(w, rule, now), rule, now)
  {
    if Over(w, rule, now) {
      RecentTokensOld(log, now - 1);
    }
  }

  lemma {:induction false} KnowsAged(log: seq<TokenEntry>, w: Window, w': Window, rule: Rule, lag: nat, now: int)
    requires TokenRule(rule, lag) && Knows(log, w, rule, now) && Aged(w, w', rule, now)
    ensures Knows(log, w', rule, now)
  {
    if rule.Fixed() {
      KnowsRolled(log, w, rule, lag, now);
    }
  }

  lemma {:induction false} TotalAppend(log: seq<TokenEntry>, e: TokenEntry)
    ensures Total(log + [e]) == Total(log) + e.count
  {
    assert (log + [e])[..|log|] == log;
  }

  lemma {:induction false} TotalRecorded(log: seq<TokenEntry>, e: TokenEntry, more: seq<TokenEntry>, cutoff: int)
    requires more == log + [e] && cutoff < e.t
    ensures Total(RecentTokens(more, cutoff)) == Total(RecentTokens(log, cutoff)) + e.count
  {
    RecentTokensAppend(log, e, cutoff);
    TotalAppend(RecentTokens(log, cutoff), e);
  }

  lemma {:induction false} RecordedFixed(log: seq<TokenEntry>, r: Window, rule: Rule, lag: nat, now: int, n: int,
                                         more: seq<TokenEntry>)
    requires TokenRule(rule, lag) && rule.Fixed() && Knows(log, r, rule, now) && !Over(r, rule, now)
    requires more == log + [TokenEntry(now, n)]
    ensures Knows(more, r.(fixedTokens := r.fixedTokens + n), rule, now)
  {
    TotalRecorded(log, TokenEntry(now, n), more, r.fixedStart - 1);
    assert now < r.fixedStart + rule.duration;
  }

  lemma {:induction false} KnowsRecorded(log: seq<TokenEntry>, w: Window, rule: Rule, lag: nat, now: int, n: int,
                                         more: seq<TokenEntry>)
    requires TokenRule(rule, lag) && Knows(log, w, rule, now) && more == log + [TokenEntry(now, n)]
    ensures Knows(more, AddTokens(w, rule, now, n), rule, now)
  {
    if rule.Fixed() {
      KnowsRolled(log, w, rule, lag, now);
      RecordedFixed(log, Roll(w, rule, now), rule, lag, now, n, more);
    } else {
      PrunedTokensAppend(w.tokens, log, TokenEntry(now, n), now - rule.duration);
    }
  }

  // ---------- Every run ----------

  /** Tokens were recorded within the lag of a look-up. */
  predicate Early(log: seq<TokenEntry>, a: Archive, h: string, lag: nat) {
    if h in a.lastSeen then Before(log, a.lastSeen[h] + lag + 1) else log == []
  }

  predicate TokenState(log: seq<TokenEntry>, l: Limiter, a: Archive, cfg: Configs, h: string, i: nat, lag: nat,
                       now: int)
    requires Shaped(l, cfg) && h in cfg && i < |cfg[h].rules|
  {
    && SeenAlike(l, a, h, now) && Early(log, a, h, lag)
    && Knows(log, WindowOf(l, cfg, h, i), cfg[h].rules[i], now)
  }

  function LogAfter(log: seq<TokenEntry>, a: Archive, call: Call, h: string): seq<TokenEntry> {
    log + if call.RecordTokens? && call.hash == h && call.count != 0 && h in a.lastSeen
          then [TokenEntry(call.now, call.count)] else []
  }

  lemma {:induction false} KnowsSwept(log: seq<TokenEntry>, l: Limiter, a: Archive, cfg: Configs, call: Call, h: string,
                                      i: nat, lag: nat, t: int)
    requires Shaped(l, cfg) && h in cfg && i < |cfg[h].rules| && TokenRule(cfg[h].rules[i], lag) && t <= call.now
    requires TokenState(log, l, a, cfg, h, i, lag, t) && (cfg[h].rules[i].Fixed() ==> call.now >= MAX_DURATION)
    ensures Knows(log, Swept(l, cfg, call, h, i), cfg[h].rules[i], call.now)
  {
    LimiterStep(l, cfg, call, h, i);
    if Drops(l, cfg, call, h) {
      KnowsCollected(log, cfg[h].rules[i], lag, a.lastSeen[h], call.now);
    } else {
      KnowsLater(log, WindowOf(l, cfg, h, i), cfg[h].rules[i], lag, t, call.now);
    }
  }

  /** What is on the log now was recorded in the bucket: it was there, as the look-up was within a day. */
  lemma {:induction false} RecordedThere(log: seq<TokenEntry>, l: Limiter, a: Archive, cfg: Configs, call: Call,
                                         h: string, i: nat, lag: nat, t: int)
    requires Shaped(l, cfg) && h in cfg && i < |cfg[h].rules| && TokenRule(cfg[h].rules[i], lag) && t <= call.now
    requires SeenAlike(l, a, h, t) && (call.RecordTokens? && call.hash == h ==> OnTime(a, cfg, call, lag))
    ensures LogAfter(log, a, call, h)
         == log + if Records(l, call, h) then [TokenEntry(call.now, call.count)] else []
  {
    assert CountsTokens(cfg[h]);
  }

  lemma {:induction false} KnowsStep(log: seq<TokenEntry>, l: Limiter, a: Archive, cfg: Configs, call: Call, h: string,
                                     i: nat, lag: nat, t: int, more: seq<TokenEntry>)
    requires Shaped(l, cfg) && h in cfg && i < |cfg[h].rules| && TokenRule(cfg[h].rules[i], lag) && t <= call.now
    requires TokenState(log, l, a, cfg, h, i, lag, t) && (cfg[h].rules[i].Fixed() ==> call.now >= MAX_DURATION)
    requires more == log + if Records(l, call, h) then [TokenEntry(call.now, call.count)] else []
    ensures Knows(more, WindowOf(Step(l, cfg, call).after, cfg, h, i), cfg[h].rules[i], call.now)
  {
    var rule, s, w' := cfg[h].rules[i], Swept(l, cfg, call, h, i), WindowOf(Step(l, cfg, call).after, cfg, h, i);
    KnowsSwept(log, l, a, cfg, call, h, i, lag, t);
    if Records(l, call, h) {
      Recording(l, cfg, call, h, i);
      KnowsRecorded(log, s, rule, lag, call.now, call.count, more);
    } else {
      assert more == log;
      NotRecording(l, cfg, call, h, i);
      KnowsAged(log, s, w', rule, lag, call.now);
    }
  }

  lemma {:induction false} EarlyStep(log: seq<TokenEntry>, a: Archive, cfg: Configs, call: Call, h: string, i: nat,
                                     lag: nat, t: int)
    requires ArchiveShaped(a, cfg) && h in cfg && i < |cfg[h].rules| && cfg[h].rules[i].tokens > 0 && t <= call.now
    requires Early(log, a, h, lag) && (h in a.lastSeen ==> a.lastSeen[h] <= t)
    requires call.RecordTokens? && call.hash == h ==> OnTime(a, cfg, call, lag)
    ensures Early(LogAfter(log, a, call, h), ArchiveStep(a, cfg, call).after, h, lag)
  {
    assert CountsTokens(cfg[h]);
  }

  lemma {:induction false} TokenRun(cfg: Configs, calls: seq<Call>, h: string, i: nat, lag: nat)
    requires Clocked(calls) && Punctual(cfg, calls, h, lag) && h in cfg && i < |cfg[h].rules|
    requires TokenRule(cfg[h].rules[i], lag) && (cfg[h].rules[i].Fixed() ==> Modern(calls))
    ensures TokenState(TokenLog(cfg, calls, h), Run(cfg, calls), ArchiveRun(cfg, calls), cfg, h, i, lag,
                       LastTime(calls))
  {
    if calls != [] {
      var front, last := calls[..|calls| - 1], calls[|calls| - 1];
      var log, l, a, t := TokenLog(cfg, front, h), Run(cfg, front), ArchiveRun(cfg, front), LastTime(front);
      ClockedPrefix(calls);
      TokenRun(cfg, front, h, i, lag);
      assert TokenLog(cfg, calls, h) == LogAfter(log, a, last, h);
      SeenAlikeStep(l, a, cfg, last, h, t);
      EarlyStep(log, a, cfg, last, h, i, lag, t);
      RecordedThere(log, l, a, cfg, last, h, i, lag, t);
      KnowsStep(log, l, a, cfg, last, h, i, lag, t, LogAfter(log, a, last, h));
    }
  }

  // ---------- What an admission found ----------

  /** Fewer than N tokens are on the log in the period the rule looks at: its last d, or its window so far. */
  predicate FoundRoom(log: seq<TokenEntry>, w: Window, rule: Rule, now: int) {
    if rule.Fixed() then
      w.fixedStart <= now < w.fixedStart + rule.duration && Total(RecentTokens(log, w.fixedStart - 1)) < rule.tokens
    else Total(RecentTokens(log, now - rule.duration)) < rule.tokens
  }

  lemma {:induction false} RoomFound(log: seq<TokenEntry>, s: Window, w': Window, rule: Rule, lag: nat, now: int)
    requires TokenRule(rule, lag) && Knows(log, s, rule, now) && Change(s, w', rule, now, true)
    ensures FoundRoom(log, w', rule, now)
  {
    if rule.Fixed() {
      KnowsRolled(log, s, rule, lag, now);
    }
  }

  lemma {:induction false} AdmittedFound(log: seq<TokenEntry>, l: Limiter, a: Archive, cfg: Configs, call: Call,
                                         h: string, i: nat, lag: nat, t: int, w': Window)
    requires Shaped(l, cfg) && h in cfg && i < |cfg[h].rules| && TokenRule(cfg[h].rules[i], lag) && t <= call.now
    requires TokenState(log, l, a, cfg, h, i, lag, t) && (cfg[h].rules[i].Fixed() ==> call.now >= MAX_DURATION)
    requires AdmittedTo(l, cfg, call, h) && w' == WindowOf(Step(l, cfg, call).after, cfg, h, i)
    ensures FoundRoom(log, w', cfg[h].rules[i], call.now)
  {
    KnowsSwept(log, l, a, cfg, call, h, i, lag, t);
    LimiterStep(l, cfg, call, h, i);
    RoomFound(log, Swept(l, cfg, call, h, i), w', cfg[h].rules[i], lag, call.now);
  }

  /** Main result: in every run, whatever the collector took away, a request that is let through under a rule of N
      tokens per d finds fewer than N tokens recorded: within d for a sliding rule, since the start of its window, less
      than d ago, for a fixed one; `w` is the window it leaves. Nothing is asked of the other rules of the token or of
      other tokens. */
  lemma {:induction false} TokenBound(cfg: Configs, calls: seq<Call>, call: Call, h: string, i: nat, lag: nat,
                                      w: Window)
    requires Clocked(calls) && Punctual(cfg, calls, h, lag) && LastTime(calls) <= call.now
    requires h in cfg && i < |cfg[h].rules| && TokenRule(cfg[h].rules[i], lag)
    requires cfg[h].rules[i].Fixed() ==> Modern(calls) && call.now >= MAX_DURATION
    requires AdmittedTo(Run(cfg, calls), cfg, call, h)
    requires w == WindowOf(Step(Run(cfg, calls), cfg, call).after, cfg, h, i)
    ensures FoundRoom(TokenLog(cfg, calls, h), w, cfg[h].rules[i], call.now)
  {
    TokenRun(cfg, calls, h, i, lag);
    AdmittedFound(TokenLog(cfg, calls, h), Run(cfg, calls), ArchiveRun(cfg, calls), cfg, call, h, i, lag,
                  LastTime(calls), w);
  }
}
