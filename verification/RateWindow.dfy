/** One rate-limit window of one token, as a value: what counting and recording do to it.

    Times are nanoseconds since Go's zero `time.Time`, so 0 is the zero time; durations are
    nanoseconds held in a signed 64-bit integer, and `time.Time.Sub` saturates at its ends.
    Every function here is what one method of `WindowCounter` (WindowCounter.dfy) or one loop of
    `RateLimiter` (RateLimiter.dfy) is proved to compute. */
module RateWindow {
  const MAX_DURATION: int := 0x7fff_ffff_ffff_ffff
  const MIN_DURATION: int := -0x8000_0000_0000_0000

  /** `t.Sub(u)`. */
  function Sub(t: int, u: int): int {
    if t - u > MAX_DURATION then MAX_DURATION
    else if t - u < MIN_DURATION then MIN_DURATION
    else t - u
  }

  /** A rule together with its parsed window length. */
  datatype Rule = Rule(requests: int, tokens: int, strategy: string, duration: int) {
    predicate Fixed() { strategy == "fixed" }
    predicate Valid() { MIN_DURATION < duration <= MAX_DURATION }
  }

  datatype TokenEntry = TokenEntry(t: int, count: int)

  datatype Window = Window(
    requests: seq<int>,
    tokens: seq<TokenEntry>,
    fixedStart: int,
    fixedRequests: int,
    fixedTokens: int)

  /** What a new bucket holds for each rule. */
  const FRESH: Window := Window([], [], 0, 0, 0)

  // ---------- Counting ----------

  /** The entries strictly after `cutoff`, in order. */
  function Recent(log: seq<int>, cutoff: int): seq<int> {
    if log == [] then []
    else
      var front := Recent(log[..|log| - 1], cutoff);
      if log[|log| - 1] > cutoff then front + [log[|log| - 1]] else front
  }

  function RecentTokens(log: seq<TokenEntry>, cutoff: int): seq<TokenEntry> {
    if log == [] then []
    else
      var front := RecentTokens(log[..|log| - 1], cutoff);
      if log[|log| - 1].t > cutoff then front + [log[|log| - 1]] else front
  }

  function Total(log: seq<TokenEntry>): int {
    if log == [] then 0 else Total(log[..|log| - 1]) + log[|log| - 1].count
  }

  /** A fixed window that is over starts again at `now`; one that is not stays as it is. */
  function Roll(w: Window, rule: Rule, now: int): Window {
    if Sub(now, w.fixedStart) >= rule.duration
    then w.(fixedStart := now, fixedRequests := 0, fixedTokens := 0)
    else w
  }

  /** The window after a count was asked for: only a fixed window can change. */
  function Counted(w: Window, rule: Rule, now: int): Window {
    if rule.Fixed() then Roll(w, rule, now) else w
  }

  function RequestCount(w: Window, rule: Rule, now: int): int {
    if rule.Fixed() then Roll(w, rule, now).fixedRequests
    else |Recent(w.requests, now - rule.duration)|
  }

  function TokenCount(w: Window, rule: Rule, now: int): int {
    if rule.Fixed() then Roll(w, rule, now).fixedTokens
    else Total(RecentTokens(w.tokens, now - rule.duration))
  }

  // ---------- Recording ----------

  function AddRequest(w: Window, rule: Rule, now: int): Window {
    if rule.Fixed() then w.(fixedRequests := w.fixedRequests + 1)
    else w.(requests := Recent(w.requests + [now], now - rule.duration))
  }

  function AddTokens(w: Window, rule: Rule, now: int, n: int): Window {
    if rule.Fixed() then
      var r := Roll(w, rule, now);
      r.(fixedTokens := r.fixedTokens + n)
    else
      w.(tokens := RecentTokens(w.tokens + [TokenEntry(now, n)], now - rule.duration))
  }

  // ---------- One call over all the rules of a token ----------

  /** Does `w` leave room for one more request under `rule`? */
  predicate HasRoom(w: Window, rule: Rule, now: int) {
    && (rule.requests > 0 ==> RequestCount(w, rule, now) < rule.requests)
    && (rule.tokens > 0 ==> TokenCount(w, rule, now) < rule.tokens)
  }

  /** The window after it was checked: a rule that limits nothing is not even counted. */
  function Checked(w: Window, rule: Rule, now: int): Window {
    if rule.requests > 0 || rule.tokens > 0 then Counted(w, rule, now) else w
  }

  function Recorded(w: Window, rule: Rule, now: int): Window {
    if rule.requests > 0 then AddRequest(w, rule, now) else w
  }

  /** The number of leading rules that pass: the check stops at the first that does not. */
  function Passing(ws: seq<Window>, rules: seq<Rule>, now: int): (k: nat)
    requires |ws| == |rules|
    ensures k <= |ws|
    ensures forall i :: 0 <= i < k ==> HasRoom(ws[i], rules[i], now)
    ensures k < |ws| ==> !HasRoom(ws[k], rules[k], now)
  {
    if ws == [] || !HasRoom(ws[0], rules[0], now) then 0
    else 1 + Passing(ws[1..], rules[1..], now)
  }

  predicate Admits(ws: seq<Window>, rules: seq<Rule>, now: int)
    requires |ws| == |rules|
  {
    forall i :: 0 <= i < |ws| ==> HasRoom(ws[i], rules[i], now)
  }

  /** All windows after one `Allow`: the first failing rule is the last one that was counted,
      and a request is recorded for every rule or for none. */
  function AllowWindows(ws: seq<Window>, rules: seq<Rule>, now: int): (r: seq<Window>)
    requires |ws| == |rules|
    ensures |r| == |ws|
  {
    var k := Passing(ws, rules, now);
    seq(|ws|, i requires 0 <= i < |ws| =>
      if k == |ws| then Recorded(Checked(ws[i], rules[i], now), rules[i], now)
      else if i <= k then Checked(ws[i], rules[i], now)
      else ws[i])
  }

  function RecordWindows(ws: seq<Window>, rules: seq<Rule>, now: int, n: int): (r: seq<Window>)
    requires |ws| == |rules|
    ensures |r| == |ws|
  {
    seq(|ws|, i requires 0 <= i < |ws| =>
      if rules[i].tokens > 0 then AddTokens(ws[i], rules[i], now, n) else ws[i])
  }

  function FreshWindows(rules: seq<Rule>): (r: seq<Window>)
    ensures |r| == |rules|
  {
    seq(|rules|, i => FRESH)
  }

  // ---------- Facts about logs ----------

  lemma {:induction false} RecentLength(log: seq<int>, cutoff: int)
    ensures |Recent(log, cutoff)| <= |log|
    ensures forall t :: t in Recent(log, cutoff) ==> t in log && t > cutoff
  {
    if log != [] {
      RecentLength(log[..|log| - 1], cutoff);
    }
  }

  lemma {:induction false} RecentAppend(log: seq<int>, t: int, cutoff: int)
    ensures Recent(log + [t], cutoff) == Recent(log, cutoff) + (if t > cutoff then [t] else [])
  {
    assert (log + [t])[..|log + [t]| - 1] == log;
  }

  /** Pruning at an earlier cutoff is invisible at a later one. */
  lemma {:induction false} RecentTwice(log: seq<int>, c1: int, c2: int)
    requires c1 <= c2
    ensures Recent(Recent(log, c1), c2) == Recent(log, c2)
  {
    if log != [] {
      var front, t := log[..|log| - 1], log[|log| - 1];
      RecentTwice(front, c1, c2);
      RecentAppend(Recent(front, c1), t, c2);
    }
  }

  lemma {:induction false} RecentOld(log: seq<int>, cutoff: int)
    requires forall i :: 0 <= i < |log| ==> log[i] <= cutoff
    ensures Recent(log, cutoff) == []
  {
    if log != [] {
      RecentOld(log[..|log| - 1], cutoff);
    }
  }

  lemma {:induction false} RecentTokensAppend(log: seq<TokenEntry>, e: TokenEntry, cutoff: int)
    ensures RecentTokens(log + [e], cutoff) == RecentTokens(log, cutoff) + (if e.t > cutoff then [e] else [])
  {
    assert (log + [e])[..|log + [e]| - 1] == log;
  }

  lemma {:induction false} RecentTokensTwice(log: seq<TokenEntry>, c1: int, c2: int)
    requires c1 <= c2
    ensures RecentTokens(RecentTokens(log, c1), c2) == RecentTokens(log, c2)
  {
    if log != [] {
      var front, e := log[..|log| - 1], log[|log| - 1];
      RecentTokensTwice(front, c1, c2);
      RecentTokensAppend(RecentTokens(front, c1), e, c2);
    }
  }

  lemma {:induction false} RecentTokensOld(log: seq<TokenEntry>, cutoff: int)
    requires forall i :: 0 <= i < |log| ==> log[i].t <= cutoff
    ensures RecentTokens(log, cutoff) == []
  {
    if log != [] {
      RecentTokensOld(log[..|log| - 1], cutoff);
    }
  }

  lemma {:induction false} RecentTokensFrom(log: seq<TokenEntry>, cutoff: int)
    ensures forall e :: e in RecentTokens(log, cutoff) ==> e in log && e.t > cutoff
  {
    if log != [] {
      RecentTokensFrom(log[..|log| - 1], cutoff);
    }
  }

  // ---------- The unpruned reference ----------

  /** Recording that never prunes. */
  function AddRequestFull(w: Window, rule: Rule, now: int): Window {
    if rule.Fixed() then w.(fixedRequests := w.fixedRequests + 1)
    else w.(requests := w.requests + [now])
  }

  function AddTokensFull(w: Window, rule: Rule, now: int, n: int): Window {
    if rule.Fixed() then
      var r := Roll(w, rule, now);
      r.(fixedTokens := r.fixedTokens + n)
    else
      w.(tokens := w.tokens + [TokenEntry(now, n)])
  }

  function RecordedFull(w: Window, rule: Rule, now: int): Window {
    if rule.requests > 0 then AddRequestFull(w, rule, now) else w
  }

  function AllowWindowsFull(ws: seq<Window>, rules: seq<Rule>, now: int): (r: seq<Window>)
    requires |ws| == |rules|
    ensures |r| == |ws|
  {
    var k := Passing(ws, rules, now);
    seq(|ws|, i requires 0 <= i < |ws| =>
      if k == |ws| then RecordedFull(Checked(ws[i], rules[i], now), rules[i], now)
      else if i <= k then Checked(ws[i], rules[i], now)
      else ws[i])
  }

  function RecordWindowsFull(ws: seq<Window>, rules: seq<Rule>, now: int, n: int): (r: seq<Window>)
    requires |ws| == |rules|
    ensures |r| == |ws|
  {
    seq(|ws|, i requires 0 <= i < |ws| =>
      if rules[i].tokens > 0 then AddTokensFull(ws[i], rules[i], now, n) else ws[i])
  }

  predicate Over(w: Window, rule: Rule, now: int) {
    Sub(now, w.fixedStart) >= rule.duration
  }

  /** Two windows no count taken at `now` or later can tell apart. */
  predicate Alike(w: Window, v: Window, rule: Rule, now: int) {
    if rule.Fixed() then
      || (Over(w, rule, now) && Over(v, rule, now))
      || (w.fixedStart == v.fixedStart && w.fixedRequests == v.fixedRequests && w.fixedTokens == v.fixedTokens)
    else
      && Recent(w.requests, now - rule.duration) == Recent(v.requests, now - rule.duration)
      && RecentTokens(w.tokens, now - rule.duration) == RecentTokens(v.tokens, now - rule.duration)
  }

  lemma {:induction false} AlikeLater(w: Window, v: Window, rule: Rule, t: int, now: int)
    requires Alike(w, v, rule, t) && t <= now
    ensures Alike(w, v, rule, now)
  {
    if !rule.Fixed() {
      var c1, c2 := t - rule.duration, now - rule.duration;
      RecentTwice(w.requests, c1, c2);
      RecentTwice(v.requests, c1, c2);
      RecentTokensTwice(w.tokens, c1, c2);
      RecentTokensTwice(v.tokens, c1, c2);
    }
  }

  lemma {:induction false} AlikeSymmetric(w: Window, v: Window, rule: Rule, now: int)
    requires Alike(w, v, rule, now)
    ensures Alike(v, w, rule, now)
  {
  }

  lemma {:induction false} AlikeTransitive(u: Window, v: Window, w: Window, rule: Rule, now: int)
    requires Alike(u, v, rule, now) && Alike(v, w, rule, now)
    ensures Alike(u, w, rule, now)
  {
  }

  lemma {:induction false} AlikeDecides(w: Window, v: Window, rule: Rule, now: int)
    requires Alike(w, v, rule, now)
    ensures RequestCount(w, rule, now) == RequestCount(v, rule, now)
    ensures TokenCount(w, rule, now) == TokenCount(v, rule, now)
    ensures HasRoom(w, rule, now) == HasRoom(v, rule, now)
    ensures Alike(Checked(w, rule, now), Checked(v, rule, now), rule, now)
    ensures rule.requests > 0 && rule.Fixed() ==>
      var w', v' := Checked(w, rule, now), Checked(v, rule, now);
      w'.fixedStart == v'.fixedStart && w'.fixedRequests == v'.fixedRequests && w'.fixedTokens == v'.fixedTokens
  {
  }

  /** Appending then pruning one log, only appending to the other: still the same recent entries. */
  lemma {:induction false} PrunedAppend(log: seq<int>, full: seq<int>, t: int, cutoff: int)
    requires Recent(log, cutoff) == Recent(full, cutoff)
    ensures Recent(Recent(log + [t], cutoff), cutoff) == Recent(full + [t], cutoff)
  {
    RecentTwice(log + [t], cutoff, cutoff);
    RecentAppend(log, t, cutoff);
    RecentAppend(full, t, cutoff);
  }

  lemma {:induction false} AlikeRecorded(w: Window, v: Window, rule: Rule, now: int)
    requires Alike(w, v, rule, now)
    ensures Alike(Recorded(Checked(w, rule, now), rule, now), RecordedFull(Checked(v, rule, now), rule, now), rule, now)
  {
    AlikeDecides(w, v, rule, now);
    if !rule.Fixed() {
      assert Checked(w, rule, now) == w && Checked(v, rule, now) == v;
      PrunedAppend(w.requests, v.requests, now, now - rule.duration);
    } else if rule.requests > 0 {
      var w', v' := Checked(w, rule, now), Checked(v, rule, now);
      assert Alike(AddRequest(w', rule, now), AddRequestFull(v', rule, now), rule, now);
    }
  }

  lemma {:induction false} PrunedTokensAppend(log: seq<TokenEntry>, full: seq<TokenEntry>, e: TokenEntry, cutoff: int)
    requires RecentTokens(log, cutoff) == RecentTokens(full, cutoff)
    ensures RecentTokens(RecentTokens(log + [e], cutoff), cutoff) == RecentTokens(full + [e], cutoff)
  {
    RecentTokensTwice(log + [e], cutoff, cutoff);
    RecentTokensAppend(log, e, cutoff);
    RecentTokensAppend(full, e, cutoff);
  }

  lemma {:induction false} AlikeTokens(w: Window, v: Window, rule: Rule, now: int, n: int)
    requires Alike(w, v, rule, now)
    ensures Alike(AddTokens(w, rule, now, n), AddTokensFull(v, rule, now, n), rule, now)
  {
    if !rule.Fixed() {
      PrunedTokensAppend(w.tokens, v.tokens, TokenEntry(now, n), now - rule.duration);
    }
  }

  // ---------- All windows of a token at once ----------

  predicate AllAlike(ws: seq<Window>, vs: seq<Window>, rules: seq<Rule>, now: int) {
    && |ws| == |vs| == |rules|
    && forall i :: 0 <= i < |ws| ==> Alike(ws[i], vs[i], rules[i], now)
  }

  lemma {:induction false} PassingIsAdmits(ws: seq<Window>, rules: seq<Rule>, now: int)
    requires |ws| == |rules|
    ensures Passing(ws, rules, now) == |ws| <==> Admits(ws, rules, now)
  {
  }

  lemma {:induction false} AllAlikeLater(ws: seq<Window>, vs: seq<Window>, rules: seq<Rule>, t: int, now: int)
    requires AllAlike(ws, vs, rules, t) && t <= now
    ensures AllAlike(ws, vs, rules, now)
  {
    forall i | 0 <= i < |ws| ensures Alike(ws[i], vs[i], rules[i], now) {
      AlikeLater(ws[i], vs[i], rules[i], t, now);
    }
  }

  /** A call decides alike on both, and leaves both alike: pruned and compacted logs on one side,
      full logs on the other. */
  lemma {:induction false} AllAlikeAllow(ws: seq<Window>, vs: seq<Window>, rules: seq<Rule>, now: int)
    requires AllAlike(ws, vs, rules, now)
    ensures Admits(ws, rules, now) == Admits(vs, rules, now)
    ensures Passing(ws, rules, now) == Passing(vs, rules, now)
    ensures AllAlike(AllowWindows(ws, rules, now), AllowWindowsFull(vs, rules, now), rules, now)
  {
    forall i | 0 <= i < |ws| ensures HasRoom(ws[i], rules[i], now) == HasRoom(vs[i], rules[i], now) {
      AlikeDecides(ws[i], vs[i], rules[i], now);
    }
    var k := Passing(ws, rules, now);
    assert k == Passing(vs, rules, now);
    forall i | 0 <= i < |ws|
      ensures Alike(AllowWindows(ws, rules, now)[i], AllowWindowsFull(vs, rules, now)[i], rules[i], now)
    {
      AlikeDecides(ws[i], vs[i], rules[i], now);
      AlikeRecorded(ws[i], vs[i], rules[i], now);
    }
  }

  lemma {:induction false} AllAlikeRecord(ws: seq<Window>, vs: seq<Window>, rules: seq<Rule>, now: int, n: int)
    requires AllAlike(ws, vs, rules, now)
    ensures AllAlike(RecordWindows(ws, rules, now, n), RecordWindowsFull(vs, rules, now, n), rules, now)
  {
    forall i | 0 <= i < |ws|
      ensures Alike(RecordWindows(ws, rules, now, n)[i], RecordWindowsFull(vs, rules, now, n)[i], rules[i], now)
    {
      AlikeTokens(ws[i], vs[i], rules[i], now, n);
    }
  }
}
