/** Whole runs of the rate limiter, as values: the limiter that prunes its logs and collects stale
    buckets, and a reference that keeps every log entry and every bucket for ever.

    A call carries the one clock reading it takes and what it reads of the parallel counters, which
    change outside the lock: `parallel` is the counter `Allow` compares, `busy` the tokens whose
    counter is positive when the collector looks. Both are arbitrary here. */
module RateHistory {
  import opened RateWindow

  const MINUTE: int := 60_000_000_000
  const DAY: int := 24 * 60 * MINUTE

  datatype Config = Config(rules: seq<Rule>, maxParallel: int)

  type Configs = map<string, Config>

  datatype Bucket = Bucket(windows: seq<Window>, maxParallel: int, lastSeen: int)

  datatype Limiter = Limiter(buckets: map<string, Bucket>, lastGC: int)

  const INITIAL: Limiter := Limiter(map[], 0)

  datatype Call =
    | Allow(hash: string, now: int, parallel: int, busy: set<string>)
    | Acquire(hash: string, now: int, busy: set<string>)
    | RecordTokens(hash: string, now: int, count: int)

  // ---------- The limiter ----------

  predicate Stale(lastSeen: int, now: int) {
    lastSeen != 0 && Sub(now, lastSeen) > DAY
  }

  function Survivors(buckets: map<string, Bucket>, now: int, busy: set<string>): map<string, Bucket> {
    map h | h in buckets && (h in busy || !Stale(buckets[h].lastSeen, now)) :: buckets[h]
  }

  function Collect(l: Limiter, now: int, busy: set<string>): Limiter {
    if l.lastGC != 0 && Sub(now, l.lastGC) < MINUTE then l
    else Limiter(Survivors(l.buckets, now, busy), now)
  }

  /** The limiter after `getBucket`: collected, and the token's bucket present and just seen. */
  function WithBucket(l: Limiter, h: string, c: Config, now: int, busy: set<string>): (r: Limiter)
    ensures h in r.buckets && r.buckets[h].lastSeen == now
  {
    var g := Collect(l, now, busy);
    var b := if h in g.buckets then g.buckets[h].(lastSeen := now)
             else Bucket(FreshWindows(c.rules), c.maxParallel, now);
    g.(buckets := g.buckets[h := b])
  }

  /** Does `Allow` answer without looking at any bucket? */
  predicate Unlimited(cfg: Configs, h: string) {
    h !in cfg || (cfg[h].rules == [] && cfg[h].maxParallel == 0)
  }

  predicate Crowded(b: Bucket, parallel: int) {
    b.maxParallel > 0 && parallel >= b.maxParallel
  }

  /** Buckets have one window per rule of their token. */
  predicate Shaped(l: Limiter, cfg: Configs) {
    forall h :: h in l.buckets ==>
      h in cfg && |l.buckets[h].windows| == |cfg[h].rules| && l.buckets[h].maxParallel == cfg[h].maxParallel
  }

  datatype Outcome = Outcome(after: Limiter, admitted: bool)

  /** `Allow` with its bucket at hand. */
  function Decided(g: Limiter, h: string, rules: seq<Rule>, parallel: int, now: int): Outcome
    requires h in g.buckets && |g.buckets[h].windows| == |rules|
  {
    var b := g.buckets[h];
    if Crowded(b, parallel) then Outcome(g, false)
    else
      Outcome(
        g.(buckets := g.buckets[h := b.(windows := AllowWindows(b.windows, rules, now))]),
        Admits(b.windows, rules, now))
  }

  function Step(l: Limiter, cfg: Configs, call: Call): (r: Outcome)
    requires Shaped(l, cfg)
    ensures Shaped(r.after, cfg)
  {
    match call
    case Allow(h, now, parallel, busy) =>
      if Unlimited(cfg, h) then Outcome(l, true)
      else
        Decided(WithBucket(l, h, cfg[h], now, busy), h, cfg[h].rules, parallel, now)
    case Acquire(h, now, busy) =>
      if h !in cfg || cfg[h].maxParallel == 0 then Outcome(l, false)
      else Outcome(WithBucket(l, h, cfg[h], now, busy), false)
    case RecordTokens(h, now, n) =>
      if h !in cfg || cfg[h].rules == [] || n == 0 || h !in l.buckets then Outcome(l, false)
      else
        var b := l.buckets[h];
        Outcome(l.(buckets := l.buckets[h := b.(windows := RecordWindows(b.windows, cfg[h].rules, now, n))]), false)
  }

  function Run(cfg: Configs, calls: seq<Call>): (l: Limiter)
    ensures Shaped(l, cfg)
  {
    if calls == [] then INITIAL
    else Step(Run(cfg, calls[..|calls| - 1]), cfg, calls[|calls| - 1]).after
  }

  /** Was the last call of the run an `Allow` that answered yes? */
  predicate LastAdmitted(cfg: Configs, calls: seq<Call>)
    requires calls != []
  {
    Step(Run(cfg, calls[..|calls| - 1]), cfg, calls[|calls| - 1]).admitted
  }

  /** The times at which token `h` was let through. */
  function Admissions(cfg: Configs, calls: seq<Call>, h: string): seq<int> {
    if calls == [] then []
    else
      var before, last := Admissions(cfg, calls[..|calls| - 1], h), calls[|calls| - 1];
      if last.hash == h && LastAdmitted(cfg, calls) then before + [last.now] else before
  }

  // ---------- The reference ----------

  /** Full logs, and when each token's bucket was last looked up; nothing is ever dropped. */
  datatype Archive = Archive(windows: map<string, seq<Window>>, lastSeen: map<string, int>)

  predicate ArchiveShaped(a: Archive, cfg: Configs) {
    && a.lastSeen.Keys == a.windows.Keys
    && forall h :: h in a.windows ==> h in cfg && |a.windows[h]| == |cfg[h].rules|
  }

  function Seen(a: Archive, h: string, c: Config, now: int): (r: Archive)
    ensures h in r.windows && h in r.lastSeen
  {
    Archive(
      a.windows[h := if h in a.windows then a.windows[h] else FreshWindows(c.rules)],
      a.lastSeen[h := now])
  }

  datatype ArchiveOutcome = ArchiveOutcome(after: Archive, admitted: bool)

  function ArchiveStep(a: Archive, cfg: Configs, call: Call): (r: ArchiveOutcome)
    requires ArchiveShaped(a, cfg)
    ensures ArchiveShaped(r.after, cfg)
  {
    match call
    case Allow(h, now, parallel, busy) =>
      if Unlimited(cfg, h) then ArchiveOutcome(a, true)
      else
        var g := Seen(a, h, cfg[h], now);
        var ws := g.windows[h];
        if cfg[h].maxParallel > 0 && parallel >= cfg[h].maxParallel then ArchiveOutcome(g, false)
        else
          ArchiveOutcome(
            g.(windows := g.windows[h := AllowWindowsFull(ws, cfg[h].rules, now)]),
            Admits(ws, cfg[h].rules, now))
    case Acquire(h, now, busy) =>
      if h !in cfg || cfg[h].maxParallel == 0 then ArchiveOutcome(a, false)
      else ArchiveOutcome(Seen(a, h, cfg[h], now), false)
    case RecordTokens(h, now, n) =>
      if h !in cfg || cfg[h].rules == [] || n == 0 || h !in a.windows then ArchiveOutcome(a, false)
      else
        ArchiveOutcome(
          a.(windows := a.windows[h := RecordWindowsFull(a.windows[h], cfg[h].rules, now, n)]), false)
  }

  function ArchiveRun(cfg: Configs, calls: seq<Call>): (a: Archive)
    ensures ArchiveShaped(a, cfg)
  {
    if calls == [] then Archive(map[], map[])
    else ArchiveStep(ArchiveRun(cfg, calls[..|calls| - 1]), cfg, calls[|calls| - 1]).after
  }

  predicate ArchiveLastAdmitted(cfg: Configs, calls: seq<Call>)
    requires calls != []
  {
    ArchiveStep(ArchiveRun(cfg, calls[..|calls| - 1]), cfg, calls[|calls| - 1]).admitted
  }

  // ---------- Which runs ----------

  /** A clock that never runs backwards and stands more than a day after Go's zero time. */
  predicate Clocked(calls: seq<Call>) {
    && (forall i :: 0 <= i < |calls| ==> calls[i].now > DAY)
    && (forall i, j :: 0 <= i < j < |calls| ==> calls[i].now <= calls[j].now)
  }

  predicate CountsTokens(c: Config) {
    exists i :: 0 <= i < |c.rules| && c.rules[i].tokens > 0
  }

  /** Tokens of `h` are recorded at most `lag` after its bucket was last looked up. */
  predicate Punctual(cfg: Configs, calls: seq<Call>, h: string, lag: nat) {
    calls == [] ||
    var front, last := calls[..|calls| - 1], calls[|calls| - 1];
    && Punctual(cfg, front, h, lag)
    && (last.RecordTokens? && last.hash == h ==> OnTime(ArchiveRun(cfg, front), cfg, last, lag))
  }

  predicate OnTime(a: Archive, cfg: Configs, call: Call, lag: nat) {
    call.hash in cfg && CountsTokens(cfg[call.hash]) && call.hash in a.lastSeen ==>
      call.now - a.lastSeen[call.hash] <= lag
  }

  /** A window short enough that a bucket nobody looked up for over a day no longer matters to it. */
  predicate ShortRule(rule: Rule, lag: nat) {
    && rule.Valid()
    && (rule.requests > 0 ==> rule.duration <= DAY + 1)
    && (rule.tokens > 0 ==> rule.duration + lag <= DAY + 1)
  }

  /** All windows of `h` are; those of other tokens may be as they like. */
  predicate Short(cfg: Configs, h: string, lag: nat) {
    && lag <= DAY
    && (h in cfg ==> forall i :: 0 <= i < |cfg[h].rules| ==> ShortRule(cfg[h].rules[i], lag))
  }

  // ---------- The collector forgets nothing that matters ----------

  /** No entry of `w` is later than the last look-up, plus the lag for tokens. */
  predicate Timely(w: Window, rule: Rule, seen: int, lag: nat) {
    && (forall i :: 0 <= i < |w.requests| ==> w.requests[i] <= seen)
    && (forall i :: 0 <= i < |w.tokens| ==> w.tokens[i].t <= seen + lag)
    && w.fixedStart <= seen + (if rule.tokens > 0 then lag else 0)
    && (rule.requests <= 0 ==> w.requests == [])
    && (rule.tokens <= 0 ==> w.tokens == [])
    && (rule.requests <= 0 && rule.tokens <= 0 ==> w == FRESH)
  }

  /** A window of a stale bucket cannot be told from a fresh one. */
  lemma {:induction false} StaleIsFresh(w: Window, rule: Rule, seen: int, lag: nat, now: int)
    requires Timely(w, rule, seen, lag) && ShortRule(rule, lag)
    requires now - seen > DAY && now > DAY
    ensures Alike(w, FRESH, rule, now)
  {
    RecentOld(FRESH.requests, now - rule.duration);
    RecentTokensOld(FRESH.tokens, now - rule.duration);
    if !rule.Fixed() {
      RecentOld(w.requests, now - rule.duration);
      RecentTokensOld(w.tokens, now - rule.duration);
    }
  }

  predicate AllTimely(ws: seq<Window>, rules: seq<Rule>, seen: int, lag: nat) {
    && |ws| == |rules|
    && forall i :: 0 <= i < |ws| ==> Timely(ws[i], rules[i], seen, lag)
  }

  lemma {:induction false} TimelyCheckedRecorded(w: Window, rule: Rule, now: int, lag: nat)
    requires Timely(w, rule, now, lag)
    ensures Timely(Checked(w, rule, now), rule, now, lag)
    ensures Timely(Recorded(Checked(w, rule, now), rule, now), rule, now, lag)
  {
    var c := Checked(w, rule, now);
    assert Timely(c, rule, now, lag);
    if rule.requests > 0 && !rule.Fixed() {
      RecentLength(c.requests + [now], now - rule.duration);
      var r := Recent(c.requests + [now], now - rule.duration);
      forall i | 0 <= i < |r| ensures r[i] <= now { assert r[i] in r; }
    }
  }

  lemma {:induction false} TimelyAllow(ws: seq<Window>, rules: seq<Rule>, now: int, lag: nat)
    requires AllTimely(ws, rules, now, lag)
    ensures AllTimely(AllowWindows(ws, rules, now), rules, now, lag)
  {
    forall i | 0 <= i < |ws| ensures Timely(AllowWindows(ws, rules, now)[i], rules[i], now, lag) {
      TimelyCheckedRecorded(ws[i], rules[i], now, lag);
    }
  }

  lemma {:induction false} TimelyTokens(w: Window, rule: Rule, seen: int, now: int, n: int, lag: nat)
    requires Timely(w, rule, seen, lag) && rule.tokens > 0 && now <= seen + lag
    ensures Timely(AddTokens(w, rule, now, n), rule, seen, lag)
  {
    if !rule.Fixed() {
      var log, c := w.tokens + [TokenEntry(now, n)], now - rule.duration;
      RecentTokensFrom(log, c);
      var r := RecentTokens(log, c);
      forall j | 0 <= j < |r| ensures r[j].t <= seen + lag { assert r[j] in r; }
    }
  }

  lemma {:induction false} TimelyRecord(ws: seq<Window>, rules: seq<Rule>, seen: int, now: int, n: int, lag: nat)
    requires AllTimely(ws, rules, seen, lag)
    requires (exists i :: 0 <= i < |rules| && rules[i].tokens > 0) ==> now <= seen + lag
    ensures AllTimely(RecordWindows(ws, rules, now, n), rules, seen, lag)
  {
    forall i | 0 <= i < |ws| ensures Timely(RecordWindows(ws, rules, now, n)[i], rules[i], seen, lag) {
      if rules[i].tokens > 0 {
        TimelyTokens(ws[i], rules[i], seen, now, n, lag);
      }
    }
  }

  /** The windows the limiter acts as if it had: those of the bucket, or fresh ones. */
  function Effective(l: Limiter, cfg: Configs, h: string): seq<Window>
    requires h in cfg
  {
    if h in l.buckets then l.buckets[h].windows else FreshWindows(cfg[h].rules)
  }

  predicate SimToken(l: Limiter, a: Archive, cfg: Configs, h: string, now: int, lag: nat)
    requires ArchiveShaped(a, cfg) && h in a.windows
  {
    && AllAlike(Effective(l, cfg, h), a.windows[h], cfg[h].rules, now)
    && a.lastSeen[h] <= now
    && (h in l.buckets ==>
          l.buckets[h].lastSeen == a.lastSeen[h] && l.buckets[h].lastSeen > DAY
          && AllTimely(l.buckets[h].windows, cfg[h].rules, a.lastSeen[h], lag))
    && (h !in l.buckets ==> now - a.lastSeen[h] > DAY)
  }

  /** As far as `h` is concerned, the limiter and the reference cannot be told apart at `now` or later. */
  predicate Sim(l: Limiter, a: Archive, cfg: Configs, h: string, now: int, lag: nat) {
    && Shaped(l, cfg) && ArchiveShaped(a, cfg)
    && (h in l.buckets ==> h in a.windows)
    && (h in a.windows ==> SimToken(l, a, cfg, h, now, lag))
  }

  lemma {:induction false} SimLater(l: Limiter, a: Archive, cfg: Configs, h: string, t: int, now: int, lag: nat)
    requires Sim(l, a, cfg, h, t, lag) && t <= now
    ensures Sim(l, a, cfg, h, now, lag)
  {
    if h in a.windows {
      AllAlikeLater(Effective(l, cfg, h), a.windows[h], cfg[h].rules, t, now);
    }
  }

  /** Whatever happens to other tokens. */
  lemma {:induction false} SimFrame(l: Limiter, a: Archive, l': Limiter, a': Archive, cfg: Configs, h: string, now: int, lag: nat)
    requires Sim(l, a, cfg, h, now, lag) && Shaped(l', cfg) && ArchiveShaped(a', cfg)
    requires (h in l.buckets <==> h in l'.buckets) && (h in l.buckets ==> l.buckets[h] == l'.buckets[h])
    requires (h in a.windows <==> h in a'.windows)
    requires h in a.windows ==> a.windows[h] == a'.windows[h] && a.lastSeen[h] == a'.lastSeen[h]
    ensures Sim(l', a', cfg, h, now, lag)
  {
  }

  /** Dropping stale buckets keeps the limiter alike the reference. */
  lemma {:induction false} SimCollect(l: Limiter, a: Archive, cfg: Configs, h: string, now: int, busy: set<string>, lag: nat)
    requires Sim(l, a, cfg, h, now, lag) && Short(cfg, h, lag) && now > DAY
    ensures Sim(Collect(l, now, busy), a, cfg, h, now, lag)
  {
    var g := Collect(l, now, busy);
    if h in l.buckets && h !in g.buckets {
      var ws, rules := l.buckets[h].windows, cfg[h].rules;
      assert Stale(l.buckets[h].lastSeen, now);
      forall i | 0 <= i < |rules| ensures Alike(FreshWindows(rules)[i], a.windows[h][i], rules[i], now) {
        StaleIsFresh(ws[i], rules[i], a.lastSeen[h], lag, now);
        AlikeSymmetric(ws[i], FRESH, rules[i], now);
        AlikeTransitive(FRESH, ws[i], a.windows[h][i], rules[i], now);
      }
    } else {
      SimFrame(l, a, g, a, cfg, h, now, lag);
    }
  }

  lemma {:induction false} TimelySeenLater(ws: seq<Window>, rules: seq<Rule>, seen: int, now: int, lag: nat)
    requires AllTimely(ws, rules, seen, lag) && seen <= now
    ensures AllTimely(ws, rules, now, lag)
  {
    forall i | 0 <= i < |ws| ensures Timely(ws[i], rules[i], now, lag) {
      assert Timely(ws[i], rules[i], seen, lag);
    }
  }

  /** A bucket just looked up, or just created, is alike the reference's. */
  lemma {:induction false} SimSeen(g: Limiter, a: Archive, cfg: Configs, h: string, now: int, lag: nat)
    requires Sim(g, a, cfg, h, now, lag) && now > DAY && h in cfg
    ensures
      var b := if h in g.buckets then g.buckets[h].(lastSeen := now)
               else Bucket(FreshWindows(cfg[h].rules), cfg[h].maxParallel, now);
      && AllAlike(b.windows, Seen(a, h, cfg[h], now).windows[h], cfg[h].rules, now)
      && AllTimely(b.windows, cfg[h].rules, now, lag)
  {
    if h in g.buckets {
      TimelySeenLater(g.buckets[h].windows, cfg[h].rules, a.lastSeen[h], now, lag);
    }
  }

  lemma {:induction false} SimBucket(l: Limiter, a: Archive, cfg: Configs, h: string, now: int, busy: set<string>, lag: nat)
    requires Sim(l, a, cfg, h, now, lag) && Short(cfg, h, lag) && now > DAY && h in cfg
    ensures Sim(WithBucket(l, h, cfg[h], now, busy), Seen(a, h, cfg[h], now), cfg, h, now, lag)
  {
    SimCollect(l, a, cfg, h, now, busy, lag);
    SimSeen(Collect(l, now, busy), a, cfg, h, now, lag);
  }

  lemma {:induction false} SimWindows(g: Limiter, s: Archive, cfg: Configs, h: string, now: int, lag: nat)
    requires Sim(g, s, cfg, h, now, lag) && h in g.buckets && s.lastSeen[h] == now
    ensures Admits(g.buckets[h].windows, cfg[h].rules, now) == Admits(s.windows[h], cfg[h].rules, now)
    ensures
      var ws, vs := AllowWindows(g.buckets[h].windows, cfg[h].rules, now), AllowWindowsFull(s.windows[h], cfg[h].rules, now);
      Sim(g.(buckets := g.buckets[h := g.buckets[h].(windows := ws)]), s.(windows := s.windows[h := vs]), cfg, h, now, lag)
  {
    AllAlikeAllow(g.buckets[h].windows, s.windows[h], cfg[h].rules, now);
    TimelyAllow(g.buckets[h].windows, cfg[h].rules, now, lag);
  }

  /** A call for the token itself. */
  lemma {:induction false} SimAllow(l: Limiter, a: Archive, cfg: Configs, call: Call, lag: nat)
    requires call.Allow? && Sim(l, a, cfg, call.hash, call.now, lag) && Short(cfg, call.hash, lag) && call.now > DAY
    ensures Step(l, cfg, call).admitted == ArchiveStep(a, cfg, call).admitted
    ensures Sim(Step(l, cfg, call).after, ArchiveStep(a, cfg, call).after, cfg, call.hash, call.now, lag)
  {
    var h, now := call.hash, call.now;
    if !Unlimited(cfg, h) {
      SimBucket(l, a, cfg, h, now, call.busy, lag);
      var g := WithBucket(l, h, cfg[h], now, call.busy);
      if !Crowded(g.buckets[h], call.parallel) {
        SimWindows(g, Seen(a, h, cfg[h], now), cfg, h, now, lag);
      }
    }
  }

  lemma {:induction false} SimRecord(l: Limiter, a: Archive, cfg: Configs, h: string, now: int, n: int, lag: nat)
    requires Sim(l, a, cfg, h, now, lag) && Short(cfg, h, lag)
    requires OnTime(a, cfg, RecordTokens(h, now, n), lag)
    ensures Sim(Step(l, cfg, RecordTokens(h, now, n)).after, ArchiveStep(a, cfg, RecordTokens(h, now, n)).after, cfg, h, now, lag)
  {
    if h in a.windows {
      if h in l.buckets {
        AllAlikeRecord(l.buckets[h].windows, a.windows[h], cfg[h].rules, now, n);
        TimelyRecord(l.buckets[h].windows, cfg[h].rules, a.lastSeen[h], now, n, lag);
      } else {
        assert !CountsTokens(cfg[h]);
        assert RecordWindowsFull(a.windows[h], cfg[h].rules, now, n) == a.windows[h];
      }
    }
  }

  /** Looking up the bucket of another token can only have this one collected. */
  lemma {:induction false} OtherLookup(l: Limiter, a: Archive, cfg: Configs, call: Call, h: string, lag: nat)
    requires Sim(l, a, cfg, h, call.now, lag) && Short(cfg, h, lag) && call.now > DAY && call.hash != h
    requires (call.Allow? && !Unlimited(cfg, call.hash))
          || (call.Acquire? && call.hash in cfg && cfg[call.hash].maxParallel != 0)
    ensures Sim(Step(l, cfg, call).after, ArchiveStep(a, cfg, call).after, cfg, h, call.now, lag)
  {
    SimCollect(l, a, cfg, h, call.now, call.busy, lag);
    SimFrame(Collect(l, call.now, call.busy), a, Step(l, cfg, call).after, ArchiveStep(a, cfg, call).after,
             cfg, h, call.now, lag);
  }

  lemma {:induction false} SimOther(l: Limiter, a: Archive, cfg: Configs, call: Call, h: string, lag: nat)
    requires Sim(l, a, cfg, h, call.now, lag) && Short(cfg, h, lag) && call.now > DAY && call.hash != h
    ensures Sim(Step(l, cfg, call).after, ArchiveStep(a, cfg, call).after, cfg, h, call.now, lag)
  {
    if (call.Allow? && !Unlimited(cfg, call.hash))
       || (call.Acquire? && call.hash in cfg && cfg[call.hash].maxParallel != 0) {
      OtherLookup(l, a, cfg, call, h, lag);
    } else {
      SimFrame(l, a, Step(l, cfg, call).after, ArchiveStep(a, cfg, call).after, cfg, h, call.now, lag);
    }
  }

  lemma {:induction false} SimStep(l: Limiter, a: Archive, cfg: Configs, call: Call, h: string, lag: nat)
    requires Sim(l, a, cfg, h, call.now, lag) && Short(cfg, h, lag) && call.now > DAY
    requires call.RecordTokens? && call.hash == h ==> OnTime(a, cfg, call, lag)
    ensures call.hash == h ==> Step(l, cfg, call).admitted == ArchiveStep(a, cfg, call).admitted
    ensures Sim(Step(l, cfg, call).after, ArchiveStep(a, cfg, call).after, cfg, h, call.now, lag)
  {
    if call.hash != h {
      SimOther(l, a, cfg, call, h, lag);
    } else {
      match call
      case Allow(_, _, _, _) => SimAllow(l, a, cfg, call, lag);
      case Acquire(_, now, busy) =>
        if h in cfg {
          SimBucket(l, a, cfg, h, now, busy, lag);
        }
      case RecordTokens(_, now, n) => SimRecord(l, a, cfg, h, now, n, lag);
    }
  }

  lemma {:induction false} ClockedPrefix(calls: seq<Call>)
    requires Clocked(calls) && calls != []
    ensures Clocked(calls[..|calls| - 1])
  {
  }

  lemma {:induction false} SimRun(cfg: Configs, calls: seq<Call>, h: string, lag: nat)
    requires Short(cfg, h, lag) && Clocked(calls) && Punctual(cfg, calls, h, lag) && calls != []
    ensures Sim(Run(cfg, calls), ArchiveRun(cfg, calls), cfg, h, calls[|calls| - 1].now, lag)
    ensures calls[|calls| - 1].hash == h ==> LastAdmitted(cfg, calls) == ArchiveLastAdmitted(cfg, calls)
  {
    var front, last := calls[..|calls| - 1], calls[|calls| - 1];
    if front != [] {
      ClockedPrefix(calls);
      SimRun(cfg, front, h, lag);
      SimLater(Run(cfg, front), ArchiveRun(cfg, front), cfg, h, front[|front| - 1].now, last.now, lag);
    }
    SimStep(Run(cfg, front), ArchiveRun(cfg, front), cfg, last, h, lag);
  }

  /** Main result: pruning the logs in place and dropping stale buckets changes no decision about a token whose
      windows are short, for sliding and fixed windows, for all its rules at once, whatever the rules of other
      tokens are. */
  lemma {:induction false} PruningAndCollectionInvisible(cfg: Configs, calls: seq<Call>, h: string, lag: nat, i: nat)
    requires Short(cfg, h, lag) && Clocked(calls) && Punctual(cfg, calls, h, lag)
    requires i < |calls| && calls[i].hash == h
    ensures LastAdmitted(cfg, calls[..i + 1]) == ArchiveLastAdmitted(cfg, calls[..i + 1])
  {
    var n := |calls| - 1;
    if i == n {
      assert calls[..i + 1] == calls;
      SimRun(cfg, calls, h, lag);
    } else {
      assert calls[..n][..i + 1] == calls[..i + 1];
      PruningAndCollectionInvisible(cfg, calls[..n], h, lag, i);
    }
  }
}
