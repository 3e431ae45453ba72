/** Where the sliding bound ends: a window longer than the collector's patience. */
module RateThreshold {
  import opened RateWindow
  import opened RateHistory
  import opened RateBounds

  /** One token whose only limit is `rule`. */
  function Only(h: string, rule: Rule): Configs {
    map[h := Config([rule], 0)]
  }

  function Burst(h: string, k: nat, t: int): (calls: seq<Call>)
    ensures |calls| == k
  {
    if k == 0 then [] else Burst(h, k - 1, t) + [Allow(h, t, 0, {})]
  }

  lemma {:induction false} BurstAt(h: string, k: nat, t: int, i: nat)
    requires i < k
    ensures Burst(h, k, t)[i] == Allow(h, t, 0, {})
  {
    if i < k - 1 {
      BurstAt(h, k - 1, t, i);
    }
  }

  function Copies(k: nat, t: int): (r: seq<int>)
    ensures |r| == k && forall i :: 0 <= i < k ==> r[i] == t
  {
    seq(k, _ => t)
  }

  lemma {:induction false} CopiesRecent(k: nat, t: int, cutoff: int)
    requires t > cutoff
    ensures Recent(Copies(k, t), cutoff) == Copies(k, t)
  {
    if k > 0 {
      assert Copies(k, t)[..k - 1] == Copies(k - 1, t);
      CopiesRecent(k - 1, t, cutoff);
    }
  }

  lemma {:induction false} CopiesBetween(k: nat, t: int, lo: int, hi: int)
    requires lo < t <= hi
    ensures Between(Copies(k, t), lo, hi) == k
  {
    if k > 0 {
      assert Copies(k, t)[..k - 1] == Copies(k - 1, t);
      CopiesBetween(k - 1, t, lo, hi);
    }
  }

  predicate PlainSliding(rule: Rule) {
    rule.requests > 0 && rule.tokens <= 0 && !rule.Fixed() && rule.duration > 0 && rule.Valid()
  }

  /** The limiter after k calls at `t`, with none logged before. */
  function AfterBurst(h: string, k: nat, t: int): Limiter {
    if k == 0 then INITIAL else Limiter(map[h := Bucket([FRESH.(requests := Copies(k, t))], 0, t)], t)
  }

  lemma {:induction false} BurstBucket(h: string, rule: Rule, k: nat, t: int)
    requires t > DAY
    ensures WithBucket(AfterBurst(h, k, t), h, Config([rule], 0), t, {})
         == Limiter(map[h := Bucket([FRESH.(requests := Copies(k, t))], 0, t)], t)
  {
    var l := AfterBurst(h, k, t);
    assert FreshWindows([rule]) == [FRESH];
    if k == 0 {
      assert Copies(0, t) == [];
    } else {
      assert Collect(l, t, {}).buckets == l.buckets;
    }
  }

  lemma {:induction false} OneWindow(w: Window, rule: Rule, now: int)
    requires HasRoom(w, rule, now)
    ensures Admits([w], [rule], now)
    ensures AllowWindows([w], [rule], now) == [Recorded(Checked(w, rule, now), rule, now)]
  {
    PassingIsAdmits([w], [rule], now);
  }

  lemma {:induction false} BurstRoom(rule: Rule, k: nat, t: int)
    requires PlainSliding(rule) && k < rule.requests
    ensures Admits([FRESH.(requests := Copies(k, t))], [rule], t)
    ensures AllowWindows([FRESH.(requests := Copies(k, t))], [rule], t) == [FRESH.(requests := Copies(k + 1, t))]
  {
    var w := FRESH.(requests := Copies(k, t));
    CopiesRecent(k, t, t - rule.duration);
    OneWindow(w, rule, t);
    CopiesRecent(k + 1, t, t - rule.duration);
    assert w.requests + [t] == Copies(k + 1, t);
  }

  lemma {:induction false} BurstStep(h: string, rule: Rule, k: nat, t: int)
    requires PlainSliding(rule) && k < rule.requests && t > DAY
    ensures Shaped(AfterBurst(h, k, t), Only(h, rule))
    ensures Step(AfterBurst(h, k, t), Only(h, rule), Allow(h, t, 0, {})) == Outcome(AfterBurst(h, k + 1, t), true)
  {
    BurstBucket(h, rule, k, t);
    BurstRoom(rule, k, t);
  }

  /** One more call at the end of a run. */
  lemma {:induction false} OneMore(cfg: Configs, calls: seq<Call>, call: Call, more: seq<Call>, l: Limiter, r: Outcome)
    requires more == calls + [call] && l == Run(cfg, calls) && r == Step(l, cfg, call)
    ensures Run(cfg, more) == r.after
    ensures Admissions(cfg, more, call.hash)
         == Admissions(cfg, calls, call.hash) + (if r.admitted then [call.now] else [])
  {
    assert more[..|more| - 1] == calls;
  }

  lemma {:induction false} BurstSnoc(h: string, k: nat, t: int)
    requires k > 0
    ensures Burst(h, k, t) == Burst(h, k - 1, t) + [Allow(h, t, 0, {})] && Copies(k, t) == Copies(k - 1, t) + [t]
  {
  }

  /** A burst of at most N calls at one instant is admitted and logged in full. */
  lemma {:induction false} BurstAdmitted(h: string, rule: Rule, k: nat, t: int)
    requires PlainSliding(rule) && k <= rule.requests && t > DAY
    ensures Admissions(Only(h, rule), Burst(h, k, t), h) == Copies(k, t)
    ensures Run(Only(h, rule), Burst(h, k, t)) == AfterBurst(h, k, t)
  {
    if k > 0 {
      BurstAdmitted(h, rule, k - 1, t);
      BurstStep(h, rule, k - 1, t);
      BurstSnoc(h, k, t);
      OneMore(Only(h, rule), Burst(h, k - 1, t), Allow(h, t, 0, {}), Burst(h, k, t), AfterBurst(h, k - 1, t),
              Outcome(AfterBurst(h, k, t), true));
    }
  }

  /** The last call finds no bucket, and is admitted. */
  lemma {:induction false} OverrunStep(h: string, rule: Rule, k: nat, t: int, l: Limiter, call: Call)
    requires PlainSliding(rule) && t > DAY && l == AfterBurst(h, k, t) && call == Allow(h, t + DAY + 1, 0, {})
    ensures Shaped(l, Only(h, rule)) && Step(l, Only(h, rule), call).admitted
  {
    assert Collect(l, call.now, {}).buckets == map[];
    assert FreshWindows([rule]) == [FRESH];
    assert HasRoom(FRESH, rule, call.now);
    assert Admits([FRESH], [rule], call.now);
  }

  lemma {:induction false} AdmittedLast(cfg: Configs, calls: seq<Call>, call: Call, more: seq<Call>)
    requires more == calls + [call] && Step(Run(cfg, calls), cfg, call).admitted
    ensures Admissions(cfg, more, call.hash) == Admissions(cfg, calls, call.hash) + [call.now]
  {
    assert more[..|more| - 1] == calls;
  }

  lemma {:induction false} BurstClocked(h: string, k: nat, t: int, call: Call)
    requires t > DAY && call.now >= t
    ensures Clocked(Burst(h, k, t) + [call])
  {
    var calls := Burst(h, k, t) + [call];
    forall i | 0 <= i < |calls| ensures calls[i].now == if i < k then t else call.now {
      if i < k {
        BurstAt(h, k, t, i);
      }
    }
  }

  lemma {:induction false} OverrunFrom(h: string, rule: Rule, burst: seq<Call>, t: int, call: Call, adm: seq<int>)
    returns (calls: seq<Call>)
    requires PlainSliding(rule) && t > DAY && call == Allow(h, t + DAY + 1, 0, {}) && Clocked(burst + [call])
    requires Run(Only(h, rule), burst) == AfterBurst(h, rule.requests, t) && Admissions(Only(h, rule), burst, h) == adm
    ensures Clocked(calls) && Admissions(Only(h, rule), calls, h) == adm + [call.now]
  {
    calls := burst + [call];
    OverrunStep(h, rule, rule.requests, t, Run(Only(h, rule), burst), call);
    AdmittedLast(Only(h, rule), burst, call, calls);
  }

  lemma {:induction false} SomeBurst(h: string, rule: Rule, t: int, call: Call) returns (burst: seq<Call>)
    requires PlainSliding(rule) && t > DAY && call.now >= t
    ensures Run(Only(h, rule), burst) == AfterBurst(h, rule.requests, t)
    ensures Admissions(Only(h, rule), burst, h) == Copies(rule.requests, t) && Clocked(burst + [call])
  {
    burst := Burst(h, rule.requests, t);
    BurstAdmitted(h, rule, rule.requests, t);
    BurstClocked(h, rule.requests, t, call);
  }

  /** N calls, a pause just longer than a day, one more call: all are let through. */
  lemma {:induction false} OverrunAdmitted(h: string, rule: Rule, t: int) returns (calls: seq<Call>)
    requires PlainSliding(rule) && t > DAY
    ensures Clocked(calls)
    ensures Admissions(Only(h, rule), calls, h) == Copies(rule.requests, t) + [t + DAY + 1]
  {
    var call := Allow(h, t + DAY + 1, 0, {});
    var burst := SomeBurst(h, rule, t, call);
    calls := OverrunFrom(h, rule, burst, t, call, Copies(rule.requests, t));
  }

  lemma {:induction false} CopiesThenOne(adm: seq<int>, n: nat, t: int, now: int, d: int)
    requires now - d < t <= now && d > 0 && adm == Copies(n, t) + [now]
    ensures Span(adm, now - d, d) == n + 1
  {
    CopiesBetween(n, t, now - d, now);
    BetweenAppend(Copies(n, t), now, now - d, now);
  }

  lemma {:induction false} ShortWindowKeeps(h: string, rule: Rule, calls: seq<Call>)
    requires PlainSliding(rule) && rule.duration <= DAY + 1 && Clocked(calls)
    ensures Keeps(Admissions(Only(h, rule), calls, h), rule)
  {
    SlidingWindowBound(Only(h, rule), calls, h, 0);
  }

  ghost predicate Keeps(adm: seq<int>, rule: Rule) {
    AtMost(adm, rule.duration, rule.requests)
  }

  ghost predicate KeepsSlidingBound(h: string, rule: Rule) {
    forall calls: seq<Call> :: Clocked(calls) ==> Keeps(Admissions(Only(h, rule), calls, h), rule)
  }

  /** One admission too many in the stretch that ends with the last call. */
  lemma {:induction false} LongWindowOverrun(adm: seq<int>, rule: Rule, t: int)
    requires PlainSliding(rule) && rule.duration > DAY + 1
    requires adm == Copies(rule.requests, t) + [t + DAY + 1]
    ensures !Keeps(adm, rule)
  {
    CopiesThenOne(adm, rule.requests, t, t + DAY + 1, rule.duration);
  }

  /** The sliding bound holds on every run exactly when the window is at most a day and a nanosecond:
      the collector drops a bucket only once it has been idle for longer than a day. */
  lemma {:induction false} SlidingBoundThreshold(h: string, rule: Rule)
    requires PlainSliding(rule)
    ensures KeepsSlidingBound(h, rule) <==> rule.duration <= DAY + 1
  {
    if rule.duration <= DAY + 1 {
      forall calls: seq<Call> | Clocked(calls) ensures Keeps(Admissions(Only(h, rule), calls, h), rule) {
        ShortWindowKeeps(h, rule, calls);
      }
    } else {
      var t := DAY + 1;
      var calls := OverrunAdmitted(h, rule, t);
      LongWindowOverrun(Admissions(Only(h, rule), calls, h), rule, t);
    }
  }

  // ---------- Tokens recorded late ----------

  predicate PlainTokens(rule: Rule) {
    rule.tokens > 0 && rule.requests <= 0 && rule.duration > 0 && rule.Valid()
  }

  /** A fixed window starts at `s`. The tokens either find it over and start the next one, or find it so long that it
      covers the last request. */
  predicate StillCovers(rule: Rule, s: int, t: int, lag: nat) {
    && MAX_DURATION <= s <= t <= s + DAY && lag <= DAY + 1 && rule.duration + lag > DAY + 1
    && (rule.Fixed() ==>
          t - s < rule.duration && (t + lag - s >= rule.duration || t + DAY + 1 - s < rule.duration))
  }

  function Unspent(rule: Rule, s: int): Window {
    if rule.Fixed() then FRESH.(fixedStart := s) else FRESH
  }

  function Spent(rule: Rule, s: int, t: int, lag: nat): Window {
    if !rule.Fixed() then FRESH.(tokens := [TokenEntry(t + lag, rule.tokens)])
    else FRESH.(fixedStart := if t + lag - s >= rule.duration then t + lag else s, fixedTokens := rule.tokens)
  }

  lemma {:induction false} FirstLooks(rule: Rule, s: int, t: int, lag: nat)
    requires PlainTokens(rule) && StillCovers(rule, s, t, lag)
    ensures HasRoom(FRESH, rule, s) && Checked(FRESH, rule, s) == Unspent(rule, s)
    ensures HasRoom(Unspent(rule, s), rule, t) && Checked(Unspent(rule, s), rule, t) == Unspent(rule, s)
    ensures HasRoom(FRESH, rule, t + DAY + 1)
  {
  }

  lemma {:induction false} TokensAdded(rule: Rule, s: int, t: int, lag: nat)
    requires PlainTokens(rule) && StillCovers(rule, s, t, lag)
    ensures AddTokens(Unspent(rule, s), rule, t + lag, rule.tokens) == Spent(rule, s, t, lag)
    ensures AddTokensFull(Unspent(rule, s), rule, t + lag, rule.tokens) == Spent(rule, s, t, lag)
  {
    if !rule.Fixed() {
      var e := TokenEntry(t + lag, rule.tokens);
      RecentTokensAppend([], e, t + lag - rule.duration);
      assert [] + [e] == [e];
    }
  }

  lemma {:induction false} TotalOne(e: TokenEntry)
    ensures Total([] + [e]) == e.count
  {
    assert ([] + [e])[..0] == [];
  }

  lemma {:induction false} StillSpent(rule: Rule, s: int, t: int, lag: nat)
    requires PlainTokens(rule) && StillCovers(rule, s, t, lag)
    ensures !HasRoom(Spent(rule, s, t, lag), rule, t + DAY + 1)
  {
    if !rule.Fixed() {
      var e := TokenEntry(t + lag, rule.tokens);
      RecentTokensAppend([], e, t + DAY + 1 - rule.duration);
      TotalOne(e);
      assert [] + [e] == [e];
    }
  }

  /** The limiter with one bucket, and the reference beside it. */
  function OneBucket(h: string, w: Window, seen: int, gc: int): Limiter {
    Limiter(map[h := Bucket([w], 0, seen)], gc)
  }

  function OneArchived(h: string, w: Window, seen: int): Archive {
    Archive(map[h := [w]], map[h := seen])
  }

  lemma {:induction false} OneLook(rule: Rule, w: Window, t: int)
    requires PlainTokens(rule) && HasRoom(w, rule, t)
    ensures AllowWindows([w], [rule], t) == [Checked(w, rule, t)]
    ensures AllowWindowsFull([w], [rule], t) == [Checked(w, rule, t)]
  {
  }

  lemma {:induction false} FirstRequest(h: string, rule: Rule, t: int, w: Window)
    requires PlainTokens(rule) && HasRoom(FRESH, rule, t) && Checked(FRESH, rule, t) == w
    ensures
      var call := Allow(h, t, 0, {});
      && Step(INITIAL, Only(h, rule), call).after == OneBucket(h, w, t, t)
      && ArchiveStep(Archive(map[], map[]), Only(h, rule), call).after == OneArchived(h, w, t)
  {
    assert FreshWindows([rule]) == [FRESH];
    OneLook(rule, FRESH, t);
  }

  lemma {:induction false} NextRequest(h: string, rule: Rule, w: Window, seen: int, t: int)
    requires PlainTokens(rule) && HasRoom(w, rule, t) && Checked(w, rule, t) == w && DAY < seen <= t <= seen + DAY
    ensures
      var call, l, a := Allow(h, t, 0, {}), OneBucket(h, w, seen, seen), OneArchived(h, w, seen);
      && Shaped(l, Only(h, rule)) && ArchiveShaped(a, Only(h, rule))
      && Step(l, Only(h, rule), call).after == OneBucket(h, w, t, if t - seen < MINUTE then seen else t)
      && ArchiveStep(a, Only(h, rule), call).after == OneArchived(h, w, t)
  {
    OneLook(rule, w, t);
    assert Collect(OneBucket(h, w, seen, seen), t, {}).buckets == OneBucket(h, w, seen, seen).buckets;
  }

  lemma {:induction false} TokensRecorded(h: string, rule: Rule, w: Window, w': Window, seen: int, gc: int, call: Call)
    requires PlainTokens(rule) && call.RecordTokens? && call.hash == h && call.count != 0
    requires w' == AddTokens(w, rule, call.now, call.count) == AddTokensFull(w, rule, call.now, call.count)
    ensures
      var l, a := OneBucket(h, w, seen, gc), OneArchived(h, w, seen);
      && Shaped(l, Only(h, rule)) && ArchiveShaped(a, Only(h, rule))
      && Step(l, Only(h, rule), call).after == OneBucket(h, w', seen, gc)
      && ArchiveStep(a, Only(h, rule), call).after == OneArchived(h, w', seen)
  {
    assert RecordWindows([w], [rule], call.now, call.count) == [w'];
    assert RecordWindowsFull([w], [rule], call.now, call.count) == [w'];
  }

  /** The limiter has forgotten the tokens ... */
  lemma {:induction false} LimiterForgets(h: string, rule: Rule, w: Window, seen: int, gc: int, now: int)
    requires PlainTokens(rule) && HasRoom(FRESH, rule, now) && DAY < gc <= seen && now == seen + DAY + 1
    ensures Shaped(OneBucket(h, w, seen, gc), Only(h, rule))
    ensures Step(OneBucket(h, w, seen, gc), Only(h, rule), Allow(h, now, 0, {})).admitted
  {
    assert Collect(OneBucket(h, w, seen, gc), now, {}).buckets == map[];
    assert FreshWindows([rule]) == [FRESH];
  }

  /** ... the reference has not. */
  lemma {:induction false} ReferenceRemembers(h: string, rule: Rule, w: Window, seen: int, now: int)
    requires PlainTokens(rule) && !HasRoom(w, rule, now)
    ensures ArchiveShaped(OneArchived(h, w, seen), Only(h, rule))
    ensures !ArchiveStep(OneArchived(h, w, seen), Only(h, rule), Allow(h, now, 0, {})).admitted
  {
  }

  /** The limiter and the reference answer the last call of the run alike. */
  predicate DecidedAlike(cfg: Configs, calls: seq<Call>)
    requires calls != []
  {
    LastAdmitted(cfg, calls) == ArchiveLastAdmitted(cfg, calls)
  }

  /** A run that ends with a call for `h`, its tokens recorded within `lag`. */
  predicate WithinLag(h: string, rule: Rule, lag: nat, calls: seq<Call>) {
    && Clocked(calls) && Punctual(Only(h, rule), calls, h, lag)
    && calls != [] && calls[|calls| - 1].hash == h
  }

  ghost predicate CollectionInvisible(h: string, rule: Rule, lag: nat) {
    forall calls: seq<Call> :: WithinLag(h, rule, lag, calls) ==> DecidedAlike(Only(h, rule), calls)
  }

  lemma {:induction false} WithinLagAlike(h: string, rule: Rule, lag: nat, calls: seq<Call>)
    requires PlainTokens(rule) && rule.duration + lag <= DAY + 1 && WithinLag(h, rule, lag, calls)
    ensures DecidedAlike(Only(h, rule), calls)
  {
    SimRun(Only(h, rule), calls, h, lag);
  }

  /** A run that ends in these states. */
  predicate Ran(cfg: Configs, calls: seq<Call>, l: Limiter, a: Archive, h: string, now: int, lag: nat) {
    && Clocked(calls) && (calls == [] || LastTime(calls) <= now) && Punctual(cfg, calls, h, lag)
    && Run(cfg, calls) == l && ArchiveRun(cfg, calls) == a
  }

  lemma {:induction false} BothMore(cfg: Configs, calls: seq<Call>, call: Call, more: seq<Call>, l: Limiter, a: Archive)
    requires more == calls + [call] && l == Run(cfg, calls) && a == ArchiveRun(cfg, calls)
    ensures Run(cfg, more) == Step(l, cfg, call).after && ArchiveRun(cfg, more) == ArchiveStep(a, cfg, call).after
    ensures DecidedAlike(cfg, more) <==> Step(l, cfg, call).admitted == ArchiveStep(a, cfg, call).admitted
  {
    assert more[..|more| - 1] == calls;
  }

  lemma {:induction false} PunctualMore(cfg: Configs, calls: seq<Call>, call: Call, more: seq<Call>, h: string,
                                        lag: nat)
    requires Punctual(cfg, calls, h, lag) && more == calls + [call]
    requires call.RecordTokens? && call.hash == h ==> OnTime(ArchiveRun(cfg, calls), cfg, call, lag)
    ensures Punctual(cfg, more, h, lag)
  {
    assert more[..|more| - 1] == calls;
  }

  lemma {:induction false} ClockedMore(calls: seq<Call>, call: Call, more: seq<Call>, now: int)
    requires Clocked(calls) && (calls == [] || LastTime(calls) <= now) && DAY < now <= call.now
    requires more == calls + [call]
    ensures Clocked(more) && LastTime(more) == call.now && more[|more| - 1] == call
  {
  }

  lemma {:induction false} RanMore(cfg: Configs, calls: seq<Call>, l: Limiter, a: Archive, h: string, now: int,
                                   lag: nat, call: Call, l': Limiter, a': Archive)
    returns (more: seq<Call>)
    requires Ran(cfg, calls, l, a, h, now, lag) && DAY < now <= call.now && call.hash == h
    requires call.RecordTokens? ==> OnTime(a, cfg, call, lag)
    requires Step(l, cfg, call).after == l' && ArchiveStep(a, cfg, call).after == a'
    ensures more == calls + [call] && Ran(cfg, more, l', a', h, call.now, lag) && more[|more| - 1].hash == h
    ensures DecidedAlike(cfg, more) <==> Step(l, cfg, call).admitted == ArchiveStep(a, cfg, call).admitted
  {
    more := calls + [call];
    BothMore(cfg, calls, call, more, l, a);
    PunctualMore(cfg, calls, call, more, h, lag);
    ClockedMore(calls, call, more, now);
  }

  /** After the two requests ... */
  lemma {:induction false} AfterRequests(h: string, rule: Rule, s: int, t: int, lag: nat, w: Window)
    returns (calls: seq<Call>, gc: int)
    requires PlainTokens(rule) && StillCovers(rule, s, t, lag) && w == Unspent(rule, s)
    ensures |calls| == 2 && s <= gc <= t
    ensures Ran(Only(h, rule), calls, OneBucket(h, w, t, gc), OneArchived(h, w, t), h, t, lag)
  {
    var cfg, first, second := Only(h, rule), Allow(h, s, 0, {}), Allow(h, t, 0, {});
    gc := if t - s < MINUTE then s else t;
    FirstLooks(rule, s, t, lag);
    FirstRequest(h, rule, s, w);
    calls := RanMore(cfg, [], INITIAL, Archive(map[], map[]), h, s, lag, first,
                     OneBucket(h, w, s, s), OneArchived(h, w, s));
    NextRequest(h, rule, w, s, t);
    calls := RanMore(cfg, calls, OneBucket(h, w, s, s), OneArchived(h, w, s), h, s, lag, second,
                     OneBucket(h, w, t, gc), OneArchived(h, w, t));
  }

  lemma {:induction false} RecordedAfter(h: string, rule: Rule, s: int, t: int, lag: nat, v: Window, w: Window, gc: int,
                                         calls: seq<Call>)
    returns (more: seq<Call>)
    requires PlainTokens(rule) && StillCovers(rule, s, t, lag) && v == Unspent(rule, s) && w == Spent(rule, s, t, lag)
    requires Ran(Only(h, rule), calls, OneBucket(h, v, t, gc), OneArchived(h, v, t), h, t, lag)
    ensures |more| == |calls| + 1
    ensures Ran(Only(h, rule), more, OneBucket(h, w, t, gc), OneArchived(h, w, t), h, t + lag, lag)
  {
    var call := RecordTokens(h, t + lag, rule.tokens);
    TokensAdded(rule, s, t, lag);
    TokensRecorded(h, rule, v, w, t, gc, call);
    more := RanMore(Only(h, rule), calls, OneBucket(h, v, t, gc), OneArchived(h, v, t), h, t, lag, call,
                    OneBucket(h, w, t, gc), OneArchived(h, w, t));
  }

  /** ... and after their tokens. */
  lemma {:induction false} AfterTokens(h: string, rule: Rule, s: int, t: int, lag: nat, w: Window)
    returns (calls: seq<Call>, gc: int)
    requires PlainTokens(rule) && StillCovers(rule, s, t, lag) && w == Spent(rule, s, t, lag)
    ensures |calls| == 3 && s <= gc <= t
    ensures Ran(Only(h, rule), calls, OneBucket(h, w, t, gc), OneArchived(h, w, t), h, t + lag, lag)
  {
    var v := Unspent(rule, s);
    calls, gc := AfterRequests(h, rule, s, t, lag, v);
    calls := RecordedAfter(h, rule, s, t, lag, v, w, gc, calls);
  }

  /** Two requests, their tokens `lag` after the second, and a request just over a day after it, which the limiter lets
      through and the reference does not. */
  lemma {:induction false} LateTokensDiffer(h: string, rule: Rule, s: int, t: int, lag: nat) returns (calls: seq<Call>)
    requires PlainTokens(rule) && StillCovers(rule, s, t, lag)
    ensures |calls| == 4 && WithinLag(h, rule, lag, calls) && !DecidedAlike(Only(h, rule), calls)
  {
    var w, last := Spent(rule, s, t, lag), Allow(h, t + DAY + 1, 0, {});
    var gc;
    calls, gc := AfterTokens(h, rule, s, t, lag, w);
    FirstLooks(rule, s, t, lag);
    StillSpent(rule, s, t, lag);
    LimiterForgets(h, rule, w, t, gc, last.now);
    ReferenceRemembers(h, rule, w, t, last.now);
    var l, a := OneBucket(h, w, t, gc), OneArchived(h, w, t);
    calls := RanMore(Only(h, rule), calls, l, a, h, t + lag, lag, last,
                     Step(l, Only(h, rule), last).after, ArchiveStep(a, Only(h, rule), last).after);
  }

  lemma {:induction false} PunctualWithinMore(cfg: Configs, calls: seq<Call>, h: string, lag: nat, more: nat)
    requires Punctual(cfg, calls, h, lag) && lag <= more
    ensures Punctual(cfg, calls, h, more)
  {
    if calls != [] {
      PunctualWithinMore(cfg, calls[..|calls| - 1], h, lag, more);
    }
  }

  /** There is such a run: a fixed window that would not cover the last request is made to end with the tokens. */
  lemma {:induction false} SomeForgotten(h: string, rule: Rule, lag: nat) returns (calls: seq<Call>)
    requires PlainTokens(rule) && rule.duration + lag > DAY + 1
    ensures WithinLag(h, rule, lag, calls) && !DecidedAlike(Only(h, rule), calls)
  {
    var late := if lag <= DAY + 1 then lag else DAY + 1;
    var back := if rule.Fixed() && late < rule.duration <= DAY + 1 then rule.duration - late else 0;
    var s := MAX_DURATION;
    calls := LateTokensDiffer(h, rule, s, s + back, late);
    PunctualWithinMore(Only(h, rule), calls, h, late, lag);
  }

  /** Main result: with tokens recorded at most `lag` after the look-up, collecting stale buckets changes no decision
      in any run of a token whose only limit is this one, sliding or fixed, exactly when the token window and the lag
      together are at most a day and a nanosecond. */
  lemma {:induction false} TokenLagThreshold(h: string, rule: Rule, lag: nat)
    requires PlainTokens(rule)
    ensures CollectionInvisible(h, rule, lag) <==> rule.duration + lag <= DAY + 1
  {
    if rule.duration + lag <= DAY + 1 {
      forall calls: seq<Call> | WithinLag(h, rule, lag, calls) ensures DecidedAlike(Only(h, rule), calls) {
        WithinLagAlike(h, rule, lag, calls);
      }
    } else {
      var calls := SomeForgotten(h, rule, lag);
    }
  }
}
