/** Where the fixed bound ends whatever else limits the token. A second rule can reject the call that starts a window,
    so that the window keeps all its admissions for its end. */
module RateFixedEverywhere {
  import opened RateWindow
  import opened RateHistory
  import opened RateBounds
  import opened RateThreshold
  import opened RateFixedThreshold

  /** The starts and counts of two fixed windows of one bucket, and when it was last seen. */
  datatype Two = Two(s1: int, c1: int, s2: int, c2: int, seen: int)

  datatype Answer = Answer(after: Two, admitted: bool)

  predicate Due(s: int, rule: Rule, t: int) {
    s == 0 || t - s >= rule.duration
  }

  /** The windows the call finds, after the collector. */
  function Found(z: Two, t: int): Two {
    if t - z.seen > DAY then Two(0, 0, 0, 0, t) else z.(seen := t)
  }

  /** One call: the first rule's window starts again if it is due, the second rule's too if the first lets the call
      pass, and both count a call that both let pass. */
  function Asked(r1: Rule, r2: Rule, z: Two, t: int): Answer {
    var f := Found(z, t);
    var f1 := if Due(f.s1, r1, t) then f.(s1 := t, c1 := 0) else f;
    if f1.c1 >= r1.requests then Answer(f1, false)
    else
      var f2 := if Due(f1.s2, r2, t) then f1.(s2 := t, c2 := 0) else f1;
      if f2.c2 >= r2.requests then Answer(f2, false)
      else Answer(f2.(c1 := f2.c1 + 1, c2 := f2.c2 + 1), true)
  }

  function Both(h: string, r1: Rule, r2: Rule): Configs {
    map[h := Config([r1, r2], 0)]
  }

  /** These are the windows of the only bucket, or nothing has happened yet. */
  predicate InState(l: Limiter, h: string, z: Two) {
    || (l == INITIAL && z.s1 == z.c1 == z.s2 == z.c2 == 0)
    || (l.buckets == map[h := Bucket([Win(z.s1, z.c1), Win(z.s2, z.c2)], 0, z.seen)] && l.lastGC <= z.seen)
  }

  predicate Sane(z: Two, t: int) {
    DAY < z.seen <= t && t >= MAX_DURATION && z.s1 <= t && z.s2 <= t
  }

  lemma {:induction false} FoundTwo(l: Limiter, h: string, r1: Rule, r2: Rule, z: Two, t: int)
    requires InState(l, h, z) && Sane(z, t)
    ensures
      var g, f := WithBucket(l, h, Config([r1, r2], 0), t, {}), Found(z, t);
      g.buckets == map[h := Bucket([Win(f.s1, f.c1), Win(f.s2, f.c2)], 0, t)] && g.lastGC <= t
  {
    assert FreshWindows([r1, r2]) == [FRESH, FRESH];
    assert Sub(t, z.seen) > DAY <==> t - z.seen > DAY;
  }

  lemma {:induction false} OneOfTwo(rule: Rule, s: int, c: int, t: int)
    requires FixedRule(rule) && t >= MAX_DURATION && s <= t
    ensures
      var s', c' := if Due(s, rule, t) then t else s, if Due(s, rule, t) then 0 else c;
      && (HasRoom(Win(s, c), rule, t) <==> c' < rule.requests)
      && Checked(Win(s, c), rule, t) == Win(s', c')
      && Recorded(Win(s', c'), rule, t) == Win(s', c' + 1)
  {
    assert Sub(t, s) >= rule.duration <==> Due(s, rule, t);
  }

  lemma {:induction false} PassingTwo(ws: seq<Window>, rules: seq<Rule>, t: int)
    requires |ws| == |rules| == 2
    ensures Passing(ws, rules, t)
         == if !HasRoom(ws[0], rules[0], t) then 0 else if !HasRoom(ws[1], rules[1], t) then 1 else 2
  {
    PassingIsAdmits(ws, rules, t);
  }

  lemma {:induction false} TwoWindows(r1: Rule, r2: Rule, f: Two, t: int)
    requires FixedRule(r1) && FixedRule(r2) && t >= MAX_DURATION && f.s1 <= t && f.s2 <= t && f.seen == t
    ensures
      var ws, rules, a := [Win(f.s1, f.c1), Win(f.s2, f.c2)], [r1, r2], Asked(r1, r2, f, t);
      && (Admits(ws, rules, t) <==> a.admitted)
      && AllowWindows(ws, rules, t) == [Win(a.after.s1, a.after.c1), Win(a.after.s2, a.after.c2)]
  {
    var ws, rules := [Win(f.s1, f.c1), Win(f.s2, f.c2)], [r1, r2];
    OneOfTwo(r1, f.s1, f.c1, t);
    OneOfTwo(r2, f.s2, f.c2, t);
    PassingTwo(ws, rules, t);
    PassingIsAdmits(ws, rules, t);
  }

  lemma {:induction false} ShapedTwo(l: Limiter, h: string, r1: Rule, r2: Rule, z: Two)
    requires InState(l, h, z)
    ensures Shaped(l, Both(h, r1, r2))
  {
  }

  lemma {:induction false} DecidedTwo(g: Limiter, h: string, r1: Rule, r2: Rule, f: Two, t: int)
    requires FixedRule(r1) && FixedRule(r2) && t >= MAX_DURATION && f.s1 <= t && f.s2 <= t && f.seen == t
    requires g.buckets == map[h := Bucket([Win(f.s1, f.c1), Win(f.s2, f.c2)], 0, t)] && g.lastGC <= t
    ensures
      var r, a := Decided(g, h, [r1, r2], 0, t), Asked(r1, r2, f, t);
      r.admitted == a.admitted && InState(r.after, h, a.after)
  {
    TwoWindows(r1, r2, f, t);
  }

  lemma {:induction false} TwoCall(l: Limiter, h: string, r1: Rule, r2: Rule, z: Two, t: int, a: Answer)
    requires FixedRule(r1) && FixedRule(r2) && InState(l, h, z) && Sane(z, t) && a == Asked(r1, r2, z, t)
    ensures Shaped(l, Both(h, r1, r2))
    ensures
      var r := Step(l, Both(h, r1, r2), Allow(h, t, 0, {}));
      r.admitted == a.admitted && InState(r.after, h, a.after)
  {
    ShapedTwo(l, h, r1, r2, z);
    FoundTwo(l, h, r1, r2, z, t);
    DecidedTwo(WithBucket(l, h, Config([r1, r2], 0), t, {}), h, r1, r2, Found(z, t), t);
  }

  /** The run of `calls` let through `adm` and ends in this state. */
  predicate Came(h: string, r1: Rule, r2: Rule, calls: seq<Call>, adm: seq<int>, z: Two) {
    && Modern(calls) && Unraised(calls, h) && (calls == [] || LastTime(calls) == z.seen)
    && Admissions(Both(h, r1, r2), calls, h) == adm
    && InState(Run(Both(h, r1, r2), calls), h, z)
  }

  /** One more call, let through or not. */
  lemma {:induction false} CallMore(h: string, r1: Rule, r2: Rule, calls: seq<Call>, adm: seq<int>, z: Two, t: int,
                                adm': seq<int>, z': Two, admitted: bool)
    returns (more: seq<Call>)
    requires FixedRule(r1) && FixedRule(r2) && Came(h, r1, r2, calls, adm, z) && Sane(z, t)
    requires Asked(r1, r2, z, t) == Answer(z', admitted) && adm' == adm + (if admitted then [t] else [])
    ensures Came(h, r1, r2, more, adm', z')
  {
    var call, l := Allow(h, t, 0, {}), Run(Both(h, r1, r2), calls);
    more := calls + [call];
    Longer(calls, h, t);
    TwoCall(l, h, r1, r2, z, t, Answer(z', admitted));
    OneMore(Both(h, r1, r2), calls, call, more, l, Step(l, Both(h, r1, r2), call));
  }

  // ---------- Runs by their times ----------

  datatype Played = Played(z: Two, adm: seq<int>, sane: bool)

  /** What calls at these times come to. */
  function Play(r1: Rule, r2: Rule, times: seq<int>): Played {
    if times == [] then Played(Two(0, 0, 0, 0, MAX_DURATION), [], true)
    else
      var p, t := Play(r1, r2, times[..|times| - 1]), times[|times| - 1];
      var a := Asked(r1, r2, p.z, t);
      Played(a.after, p.adm + (if a.admitted then [t] else []), p.sane && Sane(p.z, t))
  }

  predicate Went(r1: Rule, r2: Rule, times: seq<int>, adm: seq<int>, z: Two) {
    Play(r1, r2, times) == Played(z, adm, true)
  }

  /** And such calls there are. */
  lemma {:induction false} Realised(h: string, r1: Rule, r2: Rule, times: seq<int>) returns (calls: seq<Call>)
    requires FixedRule(r1) && FixedRule(r2) && Play(r1, r2, times).sane
    ensures Came(h, r1, r2, calls, Play(r1, r2, times).adm, Play(r1, r2, times).z)
  {
    if times == [] {
      calls := [];
    } else {
      var front, t := times[..|times| - 1], times[|times| - 1];
      var p := Play(r1, r2, front);
      var a := Asked(r1, r2, p.z, t);
      calls := Realised(h, r1, r2, front);
      calls := CallMore(h, r1, r2, calls, p.adm, p.z, t, p.adm + (if a.admitted then [t] else []), a.after, a.admitted);
    }
  }

  lemma {:induction false} Then(r1: Rule, r2: Rule, times: seq<int>, adm: seq<int>, z: Two, t: int,
                                adm': seq<int>, z': Two, admitted: bool)
    returns (more: seq<int>)
    requires Went(r1, r2, times, adm, z) && Sane(z, t)
    requires Asked(r1, r2, z, t) == Answer(z', admitted) && adm' == adm + (if admitted then [t] else [])
    ensures Went(r1, r2, more, adm', z')
  {
    more := times + [t];
    assert more[..|more| - 1] == times;
  }

  /** A call that is turned away, and changes only when the bucket was last seen and perhaps the first window. */
  lemma {:induction false} TurnedAway(r1: Rule, r2: Rule, times: seq<int>, adm: seq<int>, z: Two, t: int, z': Two)
    returns (more: seq<int>)
    requires Went(r1, r2, times, adm, z) && Sane(z, t)
    requires Asked(r1, r2, z, t) == Answer(z', false)
    ensures Went(r1, r2, more, adm, z')
  {
    more := Then(r1, r2, times, adm, z, t, adm, z', false);
  }

  predicate Within(z: Two, r1: Rule, r2: Rule, t: int) {
    && z.seen == t && z.s1 > 0 && z.s2 > 0 && z.s1 <= t < z.s1 + r1.duration && z.s2 <= t < z.s2 + r2.duration
    && z.c1 <= r1.requests && z.c2 <= r2.requests
  }

  function Plus(z: Two, k: int): Two {
    z.(c1 := z.c1 + k, c2 := z.c2 + k)
  }

  lemma {:induction false} AskedAgain(r1: Rule, r2: Rule, z: Two, t: int, k: nat)
    requires k > 0 && Within(z, r1, r2, t) && Within(Plus(z, k), r1, r2, t)
    ensures Within(Plus(z, k - 1), r1, r2, t)
    ensures Asked(r1, r2, Plus(z, k - 1), t) == Answer(Plus(z, k), true)
  {
  }

  lemma {:induction false} OneMoreIn(r1: Rule, r2: Rule, times: seq<int>, adm: seq<int>, z: Two, t: int, k: nat)
    returns (more: seq<int>)
    requires t >= MAX_DURATION && k > 0
    requires Within(z, r1, r2, t) && Within(Plus(z, k), r1, r2, t)
    requires Went(r1, r2, times, adm + Copies(k, t), Plus(z, k - 1))
    ensures Went(r1, r2, more, adm + Copies(k + 1, t), Plus(z, k))
  {
    AskedAgain(r1, r2, z, t, k);
    CopiesSnoc(adm, k + 1, t);
    more := Then(r1, r2, times, adm + Copies(k, t), Plus(z, k - 1), t, adm + Copies(k + 1, t), Plus(z, k), true);
  }

  lemma {:induction false} FirstIn(r1: Rule, r2: Rule, times: seq<int>, adm: seq<int>, z: Two, t: int, z': Two)
    returns (more: seq<int>)
    requires Went(r1, r2, times, adm, z) && Sane(z, t)
    requires Asked(r1, r2, z, t) == Answer(z', true)
    ensures Went(r1, r2, more, adm + Copies(1, t), Plus(z', 0))
  {
    CopiesSnoc(adm, 1, t);
    more := Then(r1, r2, times, adm, z, t, adm + Copies(1, t), z', true);
  }

  /** k + 1 calls at one instant, the first of which leaves `z'` and room for the others. */
  lemma {:induction false} AllIn(r1: Rule, r2: Rule, times: seq<int>, adm: seq<int>, z: Two, t: int, k: nat, z': Two)
    returns (more: seq<int>)
    requires Went(r1, r2, times, adm, z) && Sane(z, t)
    requires Asked(r1, r2, z, t) == Answer(z', true) && Within(z', r1, r2, t) && Within(Plus(z', k), r1, r2, t)
    ensures Went(r1, r2, more, adm + Copies(k + 1, t), Plus(z', k))
  {
    if k == 0 {
      more := FirstIn(r1, r2, times, adm, z, t, z');
    } else {
      AskedAgain(r1, r2, z', t, k);
      var fewer := AllIn(r1, r2, times, adm, z, t, k - 1, z');
      more := OneMoreIn(r1, r2, fewer, adm, z', t, k);
    }
  }

  // ---------- The run ----------

  /** The rule that rejects the start of a window: it lets 2N calls through, then none until three lengths, less a
      nanosecond, have passed. */
  function Blocker(rule: Rule): Rule {
    Rule(2 * rule.requests, 0, "fixed", 3 * rule.duration - 1)
  }

  predicate Longish(rule: Rule) {
    FixedRule(rule) && DAY + 3 <= rule.duration <= 2 * DAY + 2
  }

  /** A window whose rest lets nothing through is waited out: the token is seen a day after its start, and just before
      its end. */
  lemma {:induction false} Waited(rule: Rule, times: seq<int>, adm: seq<int>, z: Two, t: int)
    returns (more: seq<int>)
    requires Longish(rule) && Went(rule, Blocker(rule), times, adm, z) && z.seen == t >= MAX_DURATION
    requires z.s1 == t && 0 < z.s2 <= t
    requires z.c1 >= rule.requests || (z.c2 >= 2 * rule.requests && t <= z.s2 + 2 * rule.duration)
    ensures Went(rule, Blocker(rule), more, adm, z.(seen := t + rule.duration - 2))
  {
    more := TurnedAway(rule, Blocker(rule), times, adm, z, t + DAY, z.(seen := t + DAY));
    more := TurnedAway(rule, Blocker(rule), more, adm, z.(seen := t + DAY), t + rule.duration - 2,
                       z.(seen := t + rule.duration - 2));
  }

  /** A window filled at its start and waited out ... */
  lemma {:induction false} OneFilled(rule: Rule, t: int) returns (times: seq<int>, adm: seq<int>)
    requires Longish(rule) && t == MAX_DURATION
    ensures Went(rule, Blocker(rule), times, adm, Two(t, rule.requests, t, rule.requests, t + rule.duration - 2))
  {
    var n := rule.requests;
    adm := [] + Copies(n, t);
    times := AllIn(rule, Blocker(rule), [], [], Two(0, 0, 0, 0, t), t, n - 1, Two(t, 1, t, 1, t));
    times := Waited(rule, times, adm, Two(t, n, t, n, t), t);
  }

  lemma {:induction false} SecondFilled(rule: Rule, times: seq<int>, adm: seq<int>, t: int, u: int)
    returns (more: seq<int>)
    requires Longish(rule) && t >= MAX_DURATION && u == t + rule.duration
    requires Went(rule, Blocker(rule), times, adm, Two(t, rule.requests, t, rule.requests, u - 2))
    ensures Went(rule, Blocker(rule), more, adm + Copies(rule.requests, u),
                 Two(u, rule.requests, t, 2 * rule.requests, u))
  {
    var n := rule.requests;
    more := AllIn(rule, Blocker(rule), times, adm, Two(t, n, t, n, u - 2), u, n - 1, Two(u, 1, t, n + 1, u));
  }

  /** ... a second one ... */
  lemma {:induction false} TwoFilled(rule: Rule, t: int) returns (times: seq<int>, adm: seq<int>)
    requires Longish(rule) && t == MAX_DURATION
    ensures
      var n, d := rule.requests, rule.duration;
      Went(rule, Blocker(rule), times, adm, Two(t + d, n, t, 2 * n, t + 2 * d - 2))
  {
    var n, u := rule.requests, t + rule.duration;
    var before;
    times, before := OneFilled(rule, t);
    adm := before + Copies(n, u);
    times := SecondFilled(rule, times, before, t, u);
    times := Waited(rule, times, adm, Two(u, n, t, 2 * n, u), u);
  }

  /** ... one that a rejected call starts ... */
  lemma {:induction false} OneEmpty(rule: Rule, t: int) returns (times: seq<int>, adm: seq<int>)
    requires Longish(rule) && t == MAX_DURATION
    ensures
      var n, d := rule.requests, rule.duration;
      Went(rule, Blocker(rule), times, adm, Two(t + 2 * d, 0, t, 2 * n, t + 3 * d - 2))
  {
    var n, d := rule.requests, rule.duration;
    times, adm := TwoFilled(rule, t);
    times := TurnedAway(rule, Blocker(rule), times, adm, Two(t + d, n, t, 2 * n, t + 2 * d - 2), t + 2 * d,
                        Two(t + 2 * d, 0, t, 2 * n, t + 2 * d));
    times := Waited(rule, times, adm, Two(t + 2 * d, 0, t, 2 * n, t + 2 * d), t + 2 * d);
  }

  /** ... and lets a call through at its end; the next is filled at its start ... */
  lemma {:induction false} EmptyThenFull(rule: Rule, t: int) returns (times: seq<int>, before: seq<int>)
    requires Longish(rule) && t == MAX_DURATION
    ensures
      var n, u := rule.requests, t + 3 * rule.duration;
      Went(rule, Blocker(rule), times, before + Copies(1, u - 1) + Copies(n, u), Two(u, n, u - 1, n + 1, u))
  {
    var n, d := rule.requests, rule.duration;
    var s, u := t + 2 * d, t + 3 * d;
    times, before := OneEmpty(rule, t);
    times := AllIn(rule, Blocker(rule), times, before, Two(s, 0, t, 2 * n, u - 2), u - 1, 0,
                   Two(s, 1, u - 1, 1, u - 1));
    times := AllIn(rule, Blocker(rule), times, before + Copies(1, u - 1), Two(s, 1, u - 1, 1, u - 1), u, n - 1,
                   Two(u, 1, u - 1, 2, u));
  }

  predicate Ends(n: nat, before: seq<int>, adm: seq<int>, u: int) {
    adm == before + Copies(1, u - 1) + Copies(n, u) + Copies(n, u + DAY + 1)
  }

  /** ... and so is one more a day later, when the collector has taken the bucket away. */
  lemma {:induction false} EmptyThenTwo(rule: Rule, t: int, u: int)
    returns (times: seq<int>, adm: seq<int>, z: Two, before: seq<int>)
    requires Longish(rule) && t == MAX_DURATION && u == t + 3 * rule.duration
    ensures Went(rule, Blocker(rule), times, adm, z) && Ends(rule.requests, before, adm, u)
  {
    var n, v := rule.requests, u + DAY + 1;
    times, before := EmptyThenFull(rule, t);
    z := Two(v, n, v, n, v);
    adm := before + Copies(1, u - 1) + Copies(n, u) + Copies(n, v);
    times := AllIn(rule, Blocker(rule), times, before + Copies(1, u - 1) + Copies(n, u), Two(u, n, u - 1, n + 1, u),
                   v, n - 1, Two(v, 1, v, 1, v));
  }

  /** More than 2N of these calls lie within one length. */
  lemma {:induction false} BlockedStart(h: string, rule: Rule) returns (calls: seq<Call>)
    requires Longish(rule)
    ensures Modern(calls) && Unraised(calls, h)
    ensures !KeepsTwice(Admissions(Both(h, rule, Blocker(rule)), calls, h), rule)
  {
    var n, u := rule.requests, MAX_DURATION + 3 * rule.duration;
    var times, adm, z, before := EmptyThenTwo(rule, MAX_DURATION, u);
    calls := Realised(h, rule, Blocker(rule), times);
    CrowdedSpan(before, u - 1, 1, u, n, u + DAY + 1, n, rule.duration, 2 * n);
  }

  // ---------- The threshold ----------

  /** Rule i of the token is this one; its other rules, its max_parallel and other tokens are as they like. */
  predicate Has(cfg: Configs, h: string, i: nat, rule: Rule) {
    h in cfg && i < |cfg[h].rules| && cfg[h].rules[i] == rule
  }

  ghost predicate KeptEverywhere(rule: Rule) {
    forall cfg: Configs, calls: seq<Call>, h: string, i: nat ::
      Has(cfg, h, i, rule) && Clocked(calls) ==> KeepsTwice(Admissions(cfg, calls, h), rule)
  }

  /** No max_parallel, no counter raised, and a clock of this age. */
  predicate Plainly(cfg: Configs, calls: seq<Call>, h: string) {
    h in cfg && cfg[h].maxParallel == 0 && Unraised(calls, h) && Modern(calls)
  }

  ghost predicate KeptPlainly(rule: Rule) {
    forall cfg: Configs, calls: seq<Call>, h: string, i: nat ::
      Has(cfg, h, i, rule) && Plainly(cfg, calls, h) ==> KeepsTwice(Admissions(cfg, calls, h), rule)
  }

  lemma {:induction false} Broken(rule: Rule)
    requires FixedRule(rule) && rule.duration > DAY + 2
    ensures exists cfg: Configs, calls: seq<Call>, h: string, i: nat ::
      Has(cfg, h, i, rule) && Plainly(cfg, calls, h) && !KeepsTwice(Admissions(cfg, calls, h), rule)
  {
    var h := "";
    if rule.duration >= 2 * DAY + 3 {
      var calls := TwoRestarts(h, rule);
      assert Has(Only(h, rule), h, 0, rule) && Plainly(Only(h, rule), calls, h);
      assert !KeepsTwice(Admissions(Only(h, rule), calls, h), rule);
    } else {
      var cfg := Both(h, rule, Blocker(rule));
      var calls := BlockedStart(h, rule);
      assert Has(cfg, h, 0, rule) && Plainly(cfg, calls, h);
    }
  }

  /** Main result: whatever else limits the token, a fixed rule of N per d keeps every run within 2N per d exactly when
      d is at most a day and two nanoseconds; and no less is needed without max_parallel. */
  lemma {:induction false} FixedBoundEverywhere(rule: Rule)
    requires FixedRule(rule)
    ensures KeptEverywhere(rule) <==> rule.duration <= DAY + 2
    ensures KeptPlainly(rule) <==> rule.duration <= DAY + 2
  {
    if rule.duration <= DAY + 2 {
      forall cfg: Configs, calls: seq<Call>, h: string, i: nat | Has(cfg, h, i, rule) && Clocked(calls)
        ensures KeepsTwice(Admissions(cfg, calls, h), rule)
      {
        FixedWindowBound(cfg, calls, h, i);
      }
    } else {
      Broken(rule);
    }
  }
}
