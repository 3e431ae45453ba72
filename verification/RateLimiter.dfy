/** The rate limiter as the program keeps it: a map of buckets, each with its counters, changed in
    place under the limiter's lock. Every method is proved to be one step of RateHistory. */
module RateLimiters {
  import opened Basics
  import opened RateWindow
  import opened RateHistory
  import opened WindowCounters
  import RateDecisions

  class TokenBucket {
    ghost const hash: string
    const windows: seq<WindowCounter>
    const maxParallel: int
    var parallel: int
    var lastSeen: int

    constructor (ghost hash: string, windows: seq<WindowCounter>, maxParallel: int, now: int)
      ensures this.hash == hash && this.windows == windows && this.maxParallel == maxParallel
      ensures parallel == 0 && lastSeen == now
    {
      this.hash, this.windows, this.maxParallel := hash, windows, maxParallel;
      parallel, lastSeen := 0, now;
    }

    ghost function Counters(): set<object> {
      set i | 0 <= i < |windows| :: windows[i]
    }

    ghost predicate Matches(c: Config) {
      && |windows| == |c.rules| && maxParallel == c.maxParallel
      && forall i :: 0 <= i < |windows| ==> windows[i].rule == c.rules[i] && windows[i].tag == (hash, i)
    }

    ghost function States(): (s: seq<Window>)
      reads Counters()
      ensures |s| == |windows|
    {
      seq(|windows|, i requires 0 <= i < |windows| reads Counters() => windows[i].State())
    }

    ghost function View(): Bucket
      reads this, Counters()
    {
      Bucket(States(), maxParallel, lastSeen)
    }

    lemma {:induction false} OwnCounters(c: Config)
      requires Matches(c)
      ensures forall i, j :: 0 <= i < j < |windows| ==> windows[i] != windows[j]
      ensures forall i :: 0 <= i < |windows| ==> windows[i] in Counters()
    {
      forall i, j | 0 <= i < j < |windows| ensures windows[i] != windows[j] {
        assert windows[i].tag.1 != windows[j].tag.1;
      }
    }

    /** The first loop of `Allow`: every rule is checked, stopping at the first without room. */
    method Check(now: int, ghost c: Config) returns (admitted: bool)
      requires Matches(c)
      modifies Counters()
      ensures admitted == Admits(old(States()), c.rules, now)
      ensures !admitted ==> States() == AllowWindows(old(States()), c.rules, now)
      ensures admitted ==> States() == CheckedUpTo(old(States()), c.rules, now, |windows|)
    {
      ghost var before := States();
      OwnCounters(c);
      for i := 0 to |windows|
        invariant States() == CheckedUpTo(before, c.rules, now, i)
        invariant forall j :: 0 <= j < i ==> HasRoom(before[j], c.rules[j], now)
      {
        var wc := windows[i];
        ghost var states := States();
        assert wc.State() == states[i] == before[i];
        if wc.rule.requests > 0 {
          var count := wc.CountRequests(now);
          if count >= wc.rule.requests {
            assert States() == states[i := Checked(before[i], c.rules[i], now)];
            StoppedAt(before, c.rules, now, i);
            return false;
          }
        }
        if wc.rule.tokens > 0 {
          CountedTwice(before[i], wc.rule, now);
          var count := wc.CountTokens(now);
          if count >= wc.rule.tokens {
            assert States() == states[i := Checked(before[i], c.rules[i], now)];
            StoppedAt(before, c.rules, now, i);
            return false;
          }
        }
        assert States() == states[i := Checked(before[i], c.rules[i], now)];
      }
      return true;
    }

    /** The second loop of `Allow`: the request is recorded under every rule that limits requests. */
    method Record(now: int, ghost c: Config, ghost before: seq<Window>)
      requires Matches(c) && |before| == |windows| && States() == CheckedUpTo(before, c.rules, now, |windows|)
      modifies Counters()
      ensures States() == RecordedUpTo(before, c.rules, now, |windows|)
    {
      OwnCounters(c);
      for i := 0 to |windows|
        invariant States() == RecordedUpTo(before, c.rules, now, i)
      {
        var wc := windows[i];
        ghost var states := States();
        assert wc.State() == states[i] == Checked(before[i], c.rules[i], now);
        if wc.rule.requests > 0 {
          wc.AddRequest(now);
        }
        assert States() == states[i := Recorded(Checked(before[i], c.rules[i], now), c.rules[i], now)];
      }
    }

    method CheckAndRecord(now: int, ghost c: Config) returns (admitted: bool)
      requires Matches(c)
      modifies Counters()
      ensures admitted == Admits(old(States()), c.rules, now)
      ensures States() == AllowWindows(old(States()), c.rules, now)
    {
      ghost var before := States();
      admitted := Check(now, c);
      if admitted {
        Record(now, c, before);
        AllPassed(before, c.rules, now);
      }
    }

    method RecordTokens(now: int, n: int, ghost c: Config)
      requires Matches(c)
      modifies Counters()
      ensures States() == RecordWindows(old(States()), c.rules, now, n)
    {
      ghost var before := States();
      OwnCounters(c);
      for i := 0 to |windows|
        invariant States() == RecordedTokensUpTo(before, c.rules, now, n, i)
      {
        var wc := windows[i];
        ghost var states := States();
        assert wc.State() == states[i] == before[i];
        if wc.rule.tokens > 0 {
          wc.AddTokens(now, n);
        }
        assert States() == states[i := RecordWindows(before, c.rules, now, n)[i]];
      }
    }
  }

  ghost function CheckedUpTo(ws: seq<Window>, rules: seq<Rule>, now: int, k: nat): (r: seq<Window>)
    requires |ws| == |rules| && k <= |ws|
    ensures |r| == |ws|
  {
    seq(|ws|, i requires 0 <= i < |ws| => if i < k then Checked(ws[i], rules[i], now) else ws[i])
  }

  ghost function RecordedUpTo(ws: seq<Window>, rules: seq<Rule>, now: int, k: nat): (r: seq<Window>)
    requires |ws| == |rules| && k <= |ws|
    ensures |r| == |ws|
  {
    seq(|ws|, i requires 0 <= i < |ws| =>
      var c := Checked(ws[i], rules[i], now);
      if i < k then Recorded(c, rules[i], now) else c)
  }

  ghost function RecordedTokensUpTo(ws: seq<Window>, rules: seq<Rule>, now: int, n: int, k: nat): (r: seq<Window>)
    requires |ws| == |rules| && k <= |ws|
    ensures |r| == |ws|
  {
    seq(|ws|, i requires 0 <= i < |ws| => if i < k then RecordWindows(ws, rules, now, n)[i] else ws[i])
  }

  lemma {:induction false} PassingAt(ws: seq<Window>, rules: seq<Rule>, now: int, k: nat)
    requires |ws| == |rules| && k <= |ws|
    requires forall i :: 0 <= i < k ==> HasRoom(ws[i], rules[i], now)
    requires k < |ws| ==> !HasRoom(ws[k], rules[k], now)
    ensures Passing(ws, rules, now) == k
  {
    if k > 0 {
      PassingAt(ws[1..], rules[1..], now, k - 1);
    }
  }

  lemma {:induction false} StoppedAt(ws: seq<Window>, rules: seq<Rule>, now: int, k: nat)
    requires |ws| == |rules| && k < |ws| && !HasRoom(ws[k], rules[k], now)
    requires forall i :: 0 <= i < k ==> HasRoom(ws[i], rules[i], now)
    ensures AllowWindows(ws, rules, now) == CheckedUpTo(ws, rules, now, k + 1)
    ensures CheckedUpTo(ws, rules, now, k)[k := Checked(ws[k], rules[k], now)] == CheckedUpTo(ws, rules, now, k + 1)
    ensures !Admits(ws, rules, now)
  {
    PassingAt(ws, rules, now, k);
  }

  lemma {:induction false} AllPassed(ws: seq<Window>, rules: seq<Rule>, now: int)
    requires |ws| == |rules| && Admits(ws, rules, now)
    ensures AllowWindows(ws, rules, now) == RecordedUpTo(ws, rules, now, |ws|)
  {
    PassingAt(ws, rules, now, |ws|);
  }

  /** Looking at a fixed window twice at one instant is looking once. */
  lemma {:induction false} CountedTwice(w: Window, rule: Rule, now: int)
    ensures Counted(Counted(w, rule, now), rule, now) == Counted(w, rule, now)
    ensures TokenCount(Counted(w, rule, now), rule, now) == TokenCount(w, rule, now)
  {
  }

  ghost function Objects(m: map<string, TokenBucket>): set<object> {
    (set h | h in m :: m[h] as object) + (set h, o | h in m && o in m[h].Counters() :: o)
  }

  ghost function Views(m: map<string, TokenBucket>): (v: map<string, Bucket>)
    reads Objects(m)
    ensures v.Keys == m.Keys
  {
    map h | h in m :: m[h].View()
  }

  ghost function BusyIn(m: map<string, TokenBucket>): set<string>
    reads Objects(m)
  {
    set h | h in m && m[h].parallel > 0
  }

  /** Every bucket is for a token with a configuration, and its counters are its own. */
  ghost predicate AllMatch(m: map<string, TokenBucket>, configs: Configs) {
    forall h :: h in m ==> h in configs && m[h].hash == h && m[h].Matches(configs[h])
  }

  /** All objects of `m` are as they were, but perhaps for the bucket of `h` and its counters. */
  twostate predicate SameBeyond(m: map<string, TokenBucket>, h: string)
    requires h in m
    reads Objects(m)
  {
    forall o :: o in Objects(m) ==> o == m[h] || o in m[h].Counters() || unchanged(o)
  }

  twostate lemma {:induction false} ViewsFrame(m: map<string, TokenBucket>)
    requires forall o :: o in Objects(m) ==> unchanged(o)
    ensures Views(m) == old(Views(m))
  {
    forall h | h in m ensures m[h].View() == old(m[h].View()) {
      forall i | 0 <= i < |m[h].windows| ensures m[h].windows[i].State() == old(m[h].windows[i].State()) {
        assert m[h].windows[i] in m[h].Counters();
        assert m[h].windows[i] as object in Objects(m);
      }
      assert m[h] as object in Objects(m);
      assert m[h].States() == old(m[h].States());
    }
  }

  lemma {:induction false} InsertedBucket(m: map<string, TokenBucket>, configs: Configs, h: string, b: TokenBucket)
    requires AllMatch(m, configs) && h in configs && b.hash == h && b.Matches(configs[h])
    ensures AllMatch(m[h := b], configs)
    ensures Objects(m[h := b]) <= Objects(m) + {b} + b.Counters()
    ensures Views(m[h := b]) == Views(m)[h := b.View()]
  {
  }

  /** What collecting leaves of `m`, with the tokens in `todo` not looked at yet. */
  ghost function Kept(m: map<string, TokenBucket>, todo: set<string>, now: int): map<string, TokenBucket>
    reads Objects(m)
  {
    map h | h in m && (h in todo || m[h].parallel > 0 || !Stale(m[h].lastSeen, now)) :: m[h]
  }

  lemma {:induction false} KeptViews(m: map<string, TokenBucket>, now: int)
    ensures Objects(Kept(m, {}, now)) <= Objects(m)
    ensures Views(Kept(m, {}, now)) == Survivors(Views(m), now, BusyIn(m))
  {
  }

  method NewBucket(h: string, cfg: Config, now: int) returns (b: TokenBucket)
    ensures fresh(b) && fresh(b.Counters()) && b.hash == h && b.Matches(cfg)
    ensures b.parallel == 0 && b.View() == Bucket(FreshWindows(cfg.rules), cfg.maxParallel, now)
  {
    var windows: seq<WindowCounter> := [];
    for i := 0 to |cfg.rules|
      invariant |windows| == i
      invariant forall j :: 0 <= j < i ==> fresh(windows[j])
      invariant forall j :: 0 <= j < i ==> windows[j].rule == cfg.rules[j] && windows[j].tag == (h, j) && windows[j].State() == FRESH
    {
      var wc := new WindowCounter(cfg.rules[i], (h, i));
      windows := windows + [wc];
    }
    b := new TokenBucket(h, windows, cfg.maxParallel, now);
    assert b.States() == FreshWindows(cfg.rules);
  }

  class RateLimiter {
    /** The rate-limit part of each token's policy, which stays as it is. */
    ghost const configs: Configs
    var buckets: map<string, TokenBucket>
    var lastGC: int

    constructor (ghost configs: Configs)
      ensures Valid() && View() == INITIAL && this.configs == configs
    {
      this.configs := configs;
      buckets := map[];
      lastGC := 0;
    }

    ghost predicate Valid()
      reads this
    {
      AllMatch(buckets, configs)
    }

    ghost function Repr(): set<object>
      reads this
    {
      Objects(buckets)
    }

    ghost function View(): Limiter
      reads this, Repr()
    {
      Limiter(Views(buckets), lastGC)
    }

    ghost function Busy(): set<string>
      reads this, Repr()
    {
      BusyIn(buckets)
    }

    /** Changing the bucket of one token changes what is seen of that token only. */
    twostate lemma {:induction false} TouchedBucket(h: string)
      requires h in buckets && buckets == old(buckets) && Valid() && SameBeyond(buckets, h)
      ensures Views(buckets) == old(Views(buckets))[h := buckets[h].View()]
    {
      var m := buckets;
      forall k | k in m && k != h ensures m[k].View() == old(m[k].View()) {
        assert m[k].hash != m[h].hash;
        forall i | 0 <= i < |m[k].windows| ensures m[k].windows[i].State() == old(m[k].windows[i].State()) {
          var o := m[k].windows[i];
          assert o.tag.0 == k;
          assert o in m[k].Counters() && o as object in Objects(m);
          assert o !in m[h].Counters();
        }
        assert m[k] as object in Objects(m);
        assert m[k].States() == old(m[k].States());
      }
    }

    method Sweep(now: int)
      modifies this`buckets
      ensures buckets == old(Kept(buckets, {}, now))
    {
      ghost var before := buckets;
      var todo := buckets.Keys;
      assert Kept(before, todo, now) == before;
      while todo != {}
        invariant todo <= before.Keys
        invariant buckets == Kept(before, todo, now)
        decreases |todo|
      {
        var h :| h in todo;
        todo := todo - {h};
        if buckets[h].parallel <= 0 && buckets[h].lastSeen != 0 && Sub(now, buckets[h].lastSeen) > DAY {
          buckets := buckets - {h};
        }
      }
    }

    method SweepStale(now: int)
      requires Valid()
      modifies this`buckets
      ensures Valid() && Repr() <= old(Repr())
      ensures Views(buckets) == Survivors(old(Views(buckets)), now, old(Busy()))
      ensures forall h :: h in buckets ==> h in old(buckets) && buckets[h] == old(buckets)[h]
    {
      ghost var m := buckets;
      KeptViews(m, now);
      Sweep(now);
    }

    method CollectStale(now: int)
      requires Valid()
      modifies this
      ensures Valid() && Repr() <= old(Repr())
      ensures View() == Collect(old(View()), now, old(Busy()))
      ensures forall h :: h in old(buckets) ==>
        (h in buckets <==> || (old(lastGC) != 0 && now - old(lastGC) < 60_000_000_000)
                           || old(buckets[h].parallel) > 0
                           || old(buckets[h].lastSeen) == 0 || now - old(buckets[h].lastSeen) <= 86_400_000_000_000)
      ensures forall k :: k in buckets ==> k in old(buckets) && buckets[k].parallel == old(buckets[k].parallel)
      ensures forall h :: h in buckets ==> h in old(buckets) && buckets[h] == old(buckets)[h]
    {
      if lastGC == 0 || Sub(now, lastGC) >= MINUTE {
        SweepStale(now);
        lastGC := now;
      }
    }

    method Touch(h: string, now: int)
      requires Valid() && h in buckets
      modifies buckets[h]
      ensures Valid()
      ensures View() == Limiter(old(Views(buckets))[h := old(Views(buckets))[h].(lastSeen := now)], lastGC)
      ensures buckets[h].parallel == old(buckets[h].parallel)
      ensures forall k :: k in buckets ==> k in old(buckets) && buckets[k].parallel == old(buckets[k].parallel)
    {
      var b := buckets[h];
      b.lastSeen := now;
      TouchedBucket(h);
      assert b.States() == old(b.States());
    }

    method Insert(h: string, cfg: Config, now: int)
      requires Valid() && h !in buckets && h in configs && configs[h] == cfg
      modifies this`buckets
      ensures Valid() && h in buckets && buckets[h].parallel == 0
      ensures fresh(Repr() - old(Repr()))
      ensures forall k :: k in buckets && k != h ==> k in old(buckets) && buckets[k].parallel == old(buckets[k].parallel)
      ensures View() == Limiter(old(Views(buckets))[h := Bucket(FreshWindows(cfg.rules), cfg.maxParallel, now)], lastGC)
    {
      var b := NewBucket(h, cfg, now);
      ViewsFrame(buckets);
      InsertedBucket(buckets, configs, h, b);
      ghost var inserted := Views(buckets[h := b]);
      buckets := buckets[h := b];
      assert Views(buckets) == inserted;
    }

    method GetBucket(h: string, cfg: Config, now: int) returns (b: TokenBucket)
      requires Valid() && h in configs && configs[h] == cfg
      modifies this, Repr()
      ensures Valid() && fresh(Repr() - old(Repr()))
      ensures h in buckets && b == buckets[h]
      ensures View() == WithBucket(old(View()), h, cfg, now, old(Busy()))
      ensures forall k :: k in buckets && k != h ==> k in old(buckets) && buckets[k].parallel == old(buckets[k].parallel)
      ensures b.parallel == if h in Collect(old(View()), now, old(Busy())).buckets then old(buckets[h].parallel) else 0
    {
      CollectStale(now);
      assert h in buckets <==> h in Collect(old(View()), now, old(Busy())).buckets;
      if h in buckets {
        Touch(h, now);
      } else {
        Insert(h, cfg, now);
      }
      b := buckets[h];
    }

    /** `Allow` once its bucket is at hand. */
    method AllowIn(h: string, b: TokenBucket, cfg: Config, now: int) returns (ok: bool)
      requires Valid() && h in buckets && b == buckets[h] && configs[h] == cfg
      modifies b.Counters()
      ensures Valid()
      ensures forall k :: k in buckets ==> k in old(buckets) && buckets[k].parallel == old(buckets[k].parallel)
      ensures
        var r := Decided(old(View()), h, cfg.rules, b.parallel, now);
        View() == r.after && ok == r.admitted
    {
      if b.maxParallel > 0 {
        var current := b.parallel;
        if current >= b.maxParallel {
          return false;
        }
      }
      ok := b.CheckAndRecord(now, cfg);
      TouchedBucket(h);
    }

    ghost function Parallel(h: string): int
      reads this, buckets.Values
    {
      if h in buckets then buckets[h].parallel else 0
    }

    method Allow(h: string, cfg: Option<Config>, now: int) returns (ok: bool)
      requires Valid() && cfg == (if h in configs then Some(configs[h]) else None)
      modifies this, Repr()
      ensures Valid() && fresh(Repr() - old(Repr()))
      ensures cfg.Some? && 0 < cfg.value.maxParallel <= old(Parallel(h)) ==> !ok
      ensures RateDecisions.ValidRules(configs, h) ==>
        (ok <==> RateDecisions.Admissible(old(View()), configs, h, now, old(Parallel(h)), old(Busy())))
      ensures
        var parallel := if h in buckets then buckets[h].parallel else 0;
        var r := Step(old(View()), configs, RateHistory.Allow(h, now, parallel, old(Busy())));
        View() == r.after && ok == r.admitted
      ensures forall k :: k in buckets && k != h ==> k in old(buckets) && buckets[k].parallel == old(buckets[k].parallel)
      ensures !Unlimited(configs, h) ==>
        h in buckets && buckets[h].parallel == if h in Collect(old(View()), now, old(Busy())).buckets then old(buckets[h].parallel) else 0
    {
      if cfg.None? || (|cfg.value.rules| == 0 && cfg.value.maxParallel == 0) {
        return true;
      }
      var b := GetBucket(h, cfg.value, now);
      ok := AllowIn(h, b, cfg.value, now);
      if RateDecisions.ValidRules(configs, h) {
        RateDecisions.AllowedExactly(old(View()), configs, h, now, b.parallel, old(Busy()));
      }
    }

    method RecordTokens(h: string, cfg: Option<Config>, now: int, n: int)
      requires Valid() && cfg == (if h in configs then Some(configs[h]) else None)
      modifies this, Repr()
      ensures Valid() && Repr() == old(Repr())
      ensures forall k :: k in buckets ==> k in old(buckets) && buckets[k].parallel == old(buckets[k].parallel)
      ensures View() == Step(old(View()), configs, RateHistory.RecordTokens(h, now, n)).after
    {
      if cfg.None? || |cfg.value.rules| == 0 || n == 0 {
        return;
      }
      if h !in buckets {
        return;
      }
      var b := buckets[h];
      b.RecordTokens(now, n, cfg.value);
      TouchedBucket(h);
    }

    /** `parallel.Add`: no window and no time stamp changes. */
    method Add(h: string, n: int)
      requires Valid() && h in buckets
      modifies buckets[h]
      ensures Valid() && View() == old(View())
      ensures buckets[h].parallel == old(buckets[h].parallel) + n
      ensures forall k :: k in buckets && k != h ==> k in old(buckets) && buckets[k].parallel == old(buckets[k].parallel)
    {
      var b := buckets[h];
      b.parallel := b.parallel + n;
      TouchedBucket(h);
      assert b.States() == old(b.States());
      assert Views(buckets) == old(Views(buckets));
    }

    method Acquire(h: string, cfg: Option<Config>, now: int)
      requires Valid() && cfg == (if h in configs then Some(configs[h]) else None)
      modifies this, Repr()
      ensures Valid() && fresh(Repr() - old(Repr()))
      ensures View() == Step(old(View()), configs, RateHistory.Acquire(h, now, old(Busy()))).after
      ensures forall k :: k in buckets && k != h ==> k in old(buckets) && buckets[k].parallel == old(buckets[k].parallel)
      ensures cfg.Some? && cfg.value.maxParallel != 0 ==>
        h in buckets
        && buckets[h].parallel == 1 + if h in Collect(old(View()), now, old(Busy())).buckets then old(buckets[h].parallel) else 0
      ensures !(cfg.Some? && cfg.value.maxParallel != 0) ==> buckets == old(buckets)
      ensures h in buckets && !(cfg.Some? && cfg.value.maxParallel != 0) ==> buckets[h].parallel == old(buckets[h].parallel)
    {
      if cfg.None? || cfg.value.maxParallel == 0 {
        return;
      }
      var b := GetBucket(h, cfg.value, now);
      Add(h, 1);
    }

    method Release(h: string, cfg: Option<Config>)
      requires Valid() && cfg == (if h in configs then Some(configs[h]) else None)
      modifies Repr()
      ensures Valid() && View() == old(View())
      ensures forall k :: k in buckets && k != h ==> k in old(buckets) && buckets[k].parallel == old(buckets[k].parallel)
      ensures h in buckets && cfg.Some? && cfg.value.maxParallel != 0 ==> buckets[h].parallel == old(buckets[h].parallel) - 1
      ensures h in buckets && !(cfg.Some? && cfg.value.maxParallel != 0) ==> buckets[h].parallel == old(buckets[h].parallel)
    {
      if cfg.None? || cfg.value.maxParallel == 0 {
        return;
      }
      if h in buckets {
        Add(h, -1);
      }
    }
  }
}
