/** What a summary says of its requests, counted and summed over them directly. */
module LedgerMeaning {
  import opened Basics
  import opened Ledgers

  function SumOf(es: seq<RequestEntry>, f: RequestEntry -> int): int {
    if es == [] then 0 else f(es[0]) + SumOf(es[1..], f)
  }

  function Where(es: seq<RequestEntry>, p: RequestEntry -> bool): set<int> {
    set i | 0 <= i < |es| && p(es[i])
  }

  lemma {:induction false} SumOfSnoc(es: seq<RequestEntry>, f: RequestEntry -> int)
    requires es != []
    ensures SumOf(es, f) == SumOf(es[..|es| - 1], f) + f(es[|es| - 1])
  {
    if |es| > 1 {
      SumOfSnoc(es[1..], f);
      assert es[1..][..|es| - 2] == es[..|es| - 1][1..];
    }
  }

  lemma {:induction false} WhereSnoc(es: seq<RequestEntry>, p: RequestEntry -> bool)
    requires es != []
    ensures |Where(es, p)| == |Where(es[..|es| - 1], p)| + if p(es[|es| - 1]) then 1 else 0
  {
    var n := |es| - 1;
    assert Where(es, p) == Where(es[..n], p) + if p(es[n]) then {n} else {};
  }

  /** How often the rules of a request failed it. */
  function Violations(e: RequestEntry): int {
    |set i | 0 <= i < |e.actions| && e.actions[i] == "fail"|
  }

  lemma {:induction false} FailsAre(actions: seq<string>)
    ensures Fails(actions) == |set i | 0 <= i < |actions| && actions[i] == "fail"|
  {
    if actions != [] {
      var n := |actions| - 1;
      FailsAre(actions[..n]);
      assert (set i | 0 <= i < |actions| && actions[i] == "fail")
          == (set i | 0 <= i < |actions[..n]| && actions[..n][i] == "fail") + if actions[n] == "fail" then {n} else {};
    }
  }

  function Cached(e: RequestEntry): int { if e.meta == None then 0 else e.meta.value.cached }
  function CacheCreated(e: RequestEntry): int { if e.meta == None then 0 else e.meta.value.cacheCreation }
  function Reasoned(e: RequestEntry): int { if e.meta == None then 0 else e.meta.value.reasoning }

  /** The totals of some requests, each counter from its definition: an error is a status of 400 or more, a rate limit
      one of 429, and a violation a rule that says "fail". */
  ghost predicate AreTotals(t: Totals, es: seq<RequestEntry>) {
    && t.errors == |Where(es, (e: RequestEntry) => e.statusCode >= 400)|
    && t.rateLimits == |Where(es, (e: RequestEntry) => e.statusCode == 429)|
    && t.violations == SumOf(es, e => Violations(e))
    && t.retries == SumOf(es, (e: RequestEntry) => e.retryCount)
  }

  /** The usage of the requests that are selected; details are the counts the provider reports. */
  ghost predicate IsUsage(u: Usage, es: seq<RequestEntry>, p: RequestEntry -> bool, details: bool) {
    && u.requests == |Where(es, p)|
    && u.input == SumOf(es, (e: RequestEntry) => if p(e) then e.input else 0)
    && u.output == SumOf(es, (e: RequestEntry) => if p(e) then e.output else 0)
    && u.total == SumOf(es, (e: RequestEntry) => if p(e) then e.input + e.output else 0)
    && u.cached == SumOf(es, (e: RequestEntry) => if p(e) && details then Cached(e) else 0)
    && u.cacheCreation == SumOf(es, (e: RequestEntry) => if p(e) && details then CacheCreated(e) else 0)
    && u.reasoning == SumOf(es, (e: RequestEntry) => if p(e) && details then Reasoned(e) else 0)
  }

  function All(): RequestEntry -> bool {
    (e: RequestEntry) => true
  }

  function One(e: RequestEntry, details: bool): Usage {
    Usage(1, e.input, e.output, e.input + e.output, if details then Cached(e) else 0,
          if details then CacheCreated(e) else 0, if details then Reasoned(e) else 0)
  }

  lemma {:induction false} UsageSnoc(u: Usage, es: seq<RequestEntry>, p: RequestEntry -> bool, details: bool, v: Usage)
    requires es != [] && IsUsage(u, es[..|es| - 1], p, details)
    requires v == Plus(u, if p(es[|es| - 1]) then One(es[|es| - 1], details) else NONE)
    ensures IsUsage(v, es, p, details)
  {
    WhereSnoc(es, p);
    SumOfSnoc(es, (e: RequestEntry) => if p(e) then e.input else 0);
    SumOfSnoc(es, (e: RequestEntry) => if p(e) then e.output else 0);
    SumOfSnoc(es, (e: RequestEntry) => if p(e) then e.input + e.output else 0);
    SumOfSnoc(es, (e: RequestEntry) => if p(e) && details then Cached(e) else 0);
    SumOfSnoc(es, (e: RequestEntry) => if p(e) && details then CacheCreated(e) else 0);
    SumOfSnoc(es, (e: RequestEntry) => if p(e) && details then Reasoned(e) else 0);
  }

  /** Main result: the totals of a summary are what counting and summing over its requests gives. */
  lemma {:induction false} TotalsExactly(es: seq<RequestEntry>)
    ensures AreTotals(SumTotals(es), es) && IsUsage(SumTotals(es).usage, es, All(), true)
  {
    if es != [] {
      var n := |es| - 1;
      TotalsExactly(es[..n]);
      WhereSnoc(es, (e: RequestEntry) => e.statusCode >= 400);
      WhereSnoc(es, (e: RequestEntry) => e.statusCode == 429);
      SumOfSnoc(es, e => Violations(e));
      SumOfSnoc(es, (e: RequestEntry) => e.retryCount);
      FailsAre(es[n].actions);
      UsageSnoc(SumTotals(es[..n]).usage, es, All(), true, SumTotals(es).usage);
    }
  }

  /** Which requests a rollup files under a key: those of the model, of the token, or of the provider, if it has a
      name. */
  function Selects(d: Dimension, k: string): RequestEntry -> bool {
    match d
    case ByModel => (e: RequestEntry) => e.model == k
    case ByToken => (e: RequestEntry) => e.tokenHash == k
    case ByProvider => (e: RequestEntry) => e.provider == k && k != ""
  }

  lemma {:induction false} SelectedShare(e: RequestEntry, d: Dimension, k: string)
    ensures Under(e, d, k) <==> Selects(d, k)(e)
    ensures ShareOf(e, d) == One(e, d != ByToken)
  {
  }

  lemma {:induction false} SumWhereExactly(es: seq<RequestEntry>, d: Dimension, k: string)
    ensures IsUsage(SumWhere(es, d, k), es, Selects(d, k), d != ByToken)
  {
    if es != [] {
      var n := |es| - 1;
      SumWhereExactly(es[..n], d, k);
      SelectedShare(es[n], d, k);
      UsageSnoc(SumWhere(es[..n], d, k), es, Selects(d, k), d != ByToken, SumWhere(es, d, k));
    }
  }

  /** Main result: a rollup has a key exactly if some request is filed under it, and under it the usage of those
      requests; tokens keep no details. */
  lemma {:induction false} RollupExactly(es: seq<RequestEntry>, d: Dimension, k: string)
    ensures k in Rollup(es, d) <==> exists i :: 0 <= i < |es| && Selects(d, k)(es[i])
    ensures k in Rollup(es, d) ==> IsUsage(Rollup(es, d)[k], es, Selects(d, k), d != ByToken)
  {
    SumWhereExactly(es, d, k);
    forall i | 0 <= i < |es| ensures Selects(d, k)(es[i]) <==> KeyOf(es[i], d) == Some(k) {
      SelectedShare(es[i], d, k);
    }
    if k in Rollup(es, d) {
      var i :| 0 <= i < |es| && KeyOf(es[i], d) == Some(k);
      assert Selects(d, k)(es[i]);
    }
    if i :| 0 <= i < |es| && Selects(d, k)(es[i]) {
      assert KeyOf(es[i], d) == Some(k);
    }
  }

  predicate Used(e: RequestEntry, h: string, m: string) {
    e.tokenHash == h && e.model == m
  }

  /** Main result: a token's models are listed in the order of their first use. */
  lemma {:induction false} ModelsInOrder(es: seq<RequestEntry>, h: string, i: nat, j: nat, q: nat)
    requires i < j < |Models(es, h)| && q < |es| && Used(es[q], h, Models(es, h)[j])
    ensures exists p :: 0 <= p < q && Used(es[p], h, Models(es, h)[i])
  {
    var n := |es| - 1;
    var before := Models(es[..n], h);
    ModelsExact(es[..n], h, Models(es, h)[i]);
    ModelsExact(es[..n], h, Models(es, h)[j]);
    if j < |before| && q < n {
      ModelsInOrder(es[..n], h, i, j, q);
      var p :| 0 <= p < q && Used(es[..n][p], h, before[i]);
      assert Used(es[p], h, Models(es, h)[i]);
    } else {
      var e :| e in es[..n] && e.tokenHash == h && e.model == Models(es, h)[i];
      var p :| 0 <= p < n && es[..n][p] == e;
      assert Used(es[p], h, Models(es, h)[i]);
    }
  }

  /** The requests of all sessions are those of each, one session after another. */
  lemma {:induction false} FlatExactly(lists: seq<seq<RequestEntry>>, more: seq<RequestEntry>)
    ensures Flat([]) == [] && Flat(lists + [more]) == Flat(lists) + more
  {
    assert (lists + [more])[..|lists|] == lists;
  }
}
