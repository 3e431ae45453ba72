/** Session summaries: totals and rollups of the recorded requests, and their aggregation over sessions. */
module Ledgers {
  import opened Basics
  import opened MapSums

  datatype ProviderMeta = ProviderMeta(cached: int, cacheCreation: int, reasoning: int)

  /** What of a request enters the summary; `actions` are those of its rule matches. */
  datatype RequestEntry = RequestEntry(
    timestamp: string, tokenHash: string, model: string, provider: string, input: int, output: int,
    statusCode: int, retryCount: int, actions: seq<string>, meta: Option<ProviderMeta>)

  datatype Usage = Usage(requests: int, input: int, output: int, total: int,
                         cached: int, cacheCreation: int, reasoning: int)

  datatype Totals = Totals(usage: Usage, errors: int, retries: int, violations: int, rateLimits: int)

  datatype TokenRollup = TokenRollup(usage: Usage, modelsUsed: seq<string>, firstSeen: string, lastSeen: string)

  datatype Summary = Summary(totals: Totals, byModel: map<string, Usage>, byProvider: map<string, Usage>,
                             byToken: map<string, TokenRollup>)

  const NONE := Usage(0, 0, 0, 0, 0, 0, 0)
  const NO_TOTALS := Totals(NONE, 0, 0, 0, 0)

  function Plus(a: Usage, b: Usage): Usage {
    Usage(a.requests + b.requests, a.input + b.input, a.output + b.output, a.total + b.total,
          a.cached + b.cached, a.cacheCreation + b.cacheCreation, a.reasoning + b.reasoning)
  }

  function PlusTotals(a: Totals, b: Totals): Totals {
    Totals(Plus(a.usage, b.usage), a.errors + b.errors, a.retries + b.retries,
           a.violations + b.violations, a.rateLimits + b.rateLimits)
  }

  // ---------- What a summary should say ----------

  function Fails(actions: seq<string>): nat {
    if actions == [] then 0
    else Fails(actions[..|actions| - 1]) + if actions[|actions| - 1] == "fail" then 1 else 0
  }

  /** One request's part in the totals. */
  function UsageOf(e: RequestEntry): Usage {
    var meta := if e.meta.Some? then e.meta.value else ProviderMeta(0, 0, 0);
    Usage(1, e.input, e.output, e.input + e.output, meta.cached, meta.cacheCreation, meta.reasoning)
  }

  function TotalsOf(e: RequestEntry): Totals {
    Totals(UsageOf(e), if e.statusCode >= 400 then 1 else 0, e.retryCount, Fails(e.actions),
           if e.statusCode == 429 then 1 else 0)
  }

  function SumTotals(es: seq<RequestEntry>): Totals {
    if es == [] then NO_TOTALS else PlusTotals(SumTotals(es[..|es| - 1]), TotalsOf(es[|es| - 1]))
  }

  datatype Dimension = ByModel | ByProvider | ByToken

  predicate Named(e: RequestEntry) {
    e.provider != ""
  }

  /** Where a request is filed; one without a provider is filed under no provider. */
  function KeyOf(e: RequestEntry, d: Dimension): Option<string> {
    match d
    case ByModel => Some(e.model)
    case ByProvider => if Named(e) then Some(e.provider) else None
    case ByToken => Some(e.tokenHash)
  }

  predicate Under(e: RequestEntry, d: Dimension, k: string) {
    KeyOf(e, d) == Some(k)
  }

  /** What is filed: tokens keep no detail counts. */
  function ShareOf(e: RequestEntry, d: Dimension): Usage {
    if d == ByToken then UsageOf(e).(cached := 0, cacheCreation := 0, reasoning := 0) else UsageOf(e)
  }

  function SumWhere(es: seq<RequestEntry>, d: Dimension, k: string): Usage {
    if es == [] then NONE
    else
      var e := es[|es| - 1];
      Plus(SumWhere(es[..|es| - 1], d, k), if Under(e, d, k) then ShareOf(e, d) else NONE)
  }

  function Keys(es: seq<RequestEntry>, d: Dimension): set<string> {
    set i | 0 <= i < |es| && KeyOf(es[i], d).Some? :: KeyOf(es[i], d).value
  }

  function Rollup(es: seq<RequestEntry>, d: Dimension): map<string, Usage> {
    map k | k in Keys(es, d) :: SumWhere(es, d, k)
  }

  /** A token's models, each once, in the order of first use. */
  function Models(es: seq<RequestEntry>, h: string): seq<string> {
    if es == [] then []
    else
      var before, e := Models(es[..|es| - 1], h), es[|es| - 1];
      if e.tokenHash == h && e.model !in before then before + [e.model] else before
  }

  predicate Uses(es: seq<RequestEntry>, h: string) {
    exists i :: 0 <= i < |es| && es[i].tokenHash == h
  }

  function First(es: seq<RequestEntry>, h: string): (i: nat)
    requires Uses(es, h)
    ensures i < |es| && es[i].tokenHash == h && forall j :: 0 <= j < i ==> es[j].tokenHash != h
  {
    if es[0].tokenHash == h then 0
    else
      assert Uses(es[1..], h) by {
        var i :| 0 <= i < |es| && es[i].tokenHash == h;
        assert es[1..][i - 1] == es[i];
      }
      var i := First(es[1..], h);
      assert forall j :: 0 < j <= i ==> es[j] == es[1..][j - 1];
      i + 1
  }

  function Last(es: seq<RequestEntry>, h: string): (i: nat)
    requires Uses(es, h)
    ensures i < |es| && es[i].tokenHash == h && forall j :: i < j < |es| ==> es[j].tokenHash != h
  {
    var n := |es| - 1;
    if es[n].tokenHash == h then n
    else
      assert Uses(es[..n], h) by {
        var i :| 0 <= i < |es| && es[i].tokenHash == h;
        assert es[..n][i] == es[i];
      }
      Last(es[..n], h)
  }

  function TokenRollupOf(es: seq<RequestEntry>, h: string): TokenRollup
    requires Uses(es, h)
  {
    TokenRollup(SumWhere(es, ByToken, h), Models(es, h), es[First(es, h)].timestamp, es[Last(es, h)].timestamp)
  }

  ghost predicate Summarizes(s: Summary, es: seq<RequestEntry>) {
    && s.totals == SumTotals(es)
    && s.byModel == Rollup(es, ByModel)
    && s.byProvider == Rollup(es, ByProvider)
    && s.byToken.Keys == Keys(es, ByToken)
    && forall h :: h in s.byToken ==> Uses(es, h) && s.byToken[h] == TokenRollupOf(es, h)
  }

  // ---------- One more request ----------

  lemma {:induction false} Snoc<T>(a: seq<T>, b: seq<T>)
    requires b != []
    ensures b == b[..|b| - 1] + [b[|b| - 1]] && a + b == (a + b[..|b| - 1]) + [b[|b| - 1]]
  {
  }

  function Filed(m: map<string, Usage>, k: string, u: Usage): map<string, Usage> {
    m[k := Plus(At(m, k), u)]
  }

  lemma {:induction false} KeysSnoc(es: seq<RequestEntry>, e: RequestEntry, all: seq<RequestEntry>, d: Dimension)
    requires all == es + [e]
    ensures Keys(all, d) == Keys(es, d) + if KeyOf(e, d).Some? then {KeyOf(e, d).value} else {}
  {
    assert forall i :: 0 <= i < |es| ==> all[i] == es[i];
    assert all[|es|] == e;
    forall k | k in Keys(es, d) ensures k in Keys(all, d) {
      var i :| 0 <= i < |es| && KeyOf(es[i], d) == Some(k);
      assert all[i] == es[i];
    }
    if KeyOf(e, d).Some? {
      assert KeyOf(all[|es|], d).Some?;
    }
  }

  lemma {:induction false} SumWhereSnoc(es: seq<RequestEntry>, e: RequestEntry, all: seq<RequestEntry>, d: Dimension, k: string)
    requires all == es + [e]
    ensures SumWhere(all, d, k) == Plus(SumWhere(es, d, k), if Under(e, d, k) then ShareOf(e, d) else NONE)
  {
    assert all[..|es|] == es;
  }

  lemma {:induction false} NotFiled(es: seq<RequestEntry>, d: Dimension, k: string)
    requires forall e :: e in es ==> !Under(e, d, k)
    ensures SumWhere(es, d, k) == NONE
  {
    if es != [] {
      NotFiled(es[..|es| - 1], d, k);
      assert es[|es| - 1] in es;
    }
  }

  function At(m: map<string, Usage>, k: string): Usage {
    if k in m then m[k] else NONE
  }

  lemma {:induction false} RollupAt(es: seq<RequestEntry>, d: Dimension, k: string)
    ensures At(Rollup(es, d), k) == SumWhere(es, d, k)
  {
    if k !in Keys(es, d) {
      forall e | e in es ensures !Under(e, d, k) {
        var i :| 0 <= i < |es| && es[i] == e;
        assert KeyOf(es[i], d).Some? ==> KeyOf(es[i], d).value in Keys(es, d);
      }
      NotFiled(es, d, k);
    }
  }

  function FiledIf(m: map<string, Usage>, k: Option<string>, u: Usage): map<string, Usage> {
    match k
    case None => m
    case Some(k) => Filed(m, k, u)
  }

  lemma {:induction false} AtFiledIf(m: map<string, Usage>, j: Option<string>, u: Usage, k: string)
    ensures At(FiledIf(m, j, u), k) == Plus(At(m, k), if j == Some(k) then u else NONE)
  {
  }

  lemma {:induction false} FiledAt(es: seq<RequestEntry>, e: RequestEntry, all: seq<RequestEntry>, d: Dimension, k: string)
    requires all == es + [e]
    ensures SumWhere(all, d, k) == At(FiledIf(Rollup(es, d), KeyOf(e, d), ShareOf(e, d)), k)
  {
    AtFiledIf(Rollup(es, d), KeyOf(e, d), ShareOf(e, d), k);
    RollupAt(es, d, k);
    SumWhereSnoc(es, e, all, d, k);
  }

  lemma {:induction false} RollupSnoc(es: seq<RequestEntry>, e: RequestEntry, all: seq<RequestEntry>, d: Dimension)
    requires all == es + [e]
    ensures Rollup(all, d) == FiledIf(Rollup(es, d), KeyOf(e, d), ShareOf(e, d))
  {
    var after := FiledIf(Rollup(es, d), KeyOf(e, d), ShareOf(e, d));
    KeysSnoc(es, e, all, d);
    assert after.Keys == Keys(all, d);
    forall k | k in after ensures SumWhere(all, d, k) == after[k] {
      FiledAt(es, e, all, d, k);
    }
  }

  // ---------- Building a summary ----------

  lemma {:induction false} UsesSnoc(es: seq<RequestEntry>, e: RequestEntry, h: string)
    ensures Uses(es + [e], h) <==> Uses(es, h) || e.tokenHash == h
  {
    var all := es + [e];
    assert forall i :: 0 <= i < |es| ==> all[i] == es[i];
    assert all[|es|] == e;
    if Uses(es, h) {
      var i :| 0 <= i < |es| && es[i].tokenHash == h;
      assert all[i].tokenHash == h;
    } else if e.tokenHash == h {
      assert all[|es|].tokenHash == h;
    }
  }

  lemma {:induction false} EndsSnoc(es: seq<RequestEntry>, e: RequestEntry, h: string)
    requires Uses(es + [e], h)
    ensures First(es + [e], h) == if Uses(es, h) then First(es, h) else |es|
    ensures e.tokenHash == h ==> Last(es + [e], h) == |es|
    ensures e.tokenHash != h ==> Uses(es, h) && Last(es + [e], h) == Last(es, h)
  {
    UsesSnoc(es, e, h);
    var all := es + [e];
    assert forall i :: 0 <= i < |es| ==> all[i] == es[i];
    assert all[|es|] == e;
    if Uses(es, h) {
      assert all[First(es, h)] == es[First(es, h)] && all[Last(es, h)] == es[Last(es, h)];
    }
  }

  /** A token's rollup with one more request of its own. */
  function Extended(m: map<string, TokenRollup>, e: RequestEntry): TokenRollup {
    var r := if e.tokenHash in m then m[e.tokenHash] else TokenRollup(NONE, [], e.timestamp, e.timestamp);
    TokenRollup(Plus(r.usage, ShareOf(e, ByToken)),
                if e.model in r.modelsUsed then r.modelsUsed else r.modelsUsed + [e.model],
                r.firstSeen, e.timestamp)
  }

  ghost predicate TokensRight(m: map<string, TokenRollup>, es: seq<RequestEntry>) {
    m.Keys == Keys(es, ByToken) && forall h :: h in m ==> TokenRight(m[h], es, h)
  }

  predicate TokenRight(r: TokenRollup, es: seq<RequestEntry>, h: string) {
    Uses(es, h) && r == TokenRollupOf(es, h)
  }

  lemma {:induction false} UsesIsKey(es: seq<RequestEntry>, h: string)
    ensures Uses(es, h) <==> h in Keys(es, ByToken)
  {
    if Uses(es, h) {
      var i :| 0 <= i < |es| && es[i].tokenHash == h;
      assert KeyOf(es[i], ByToken).Some?;
    }
  }

  lemma {:induction false} NoModels(es: seq<RequestEntry>, h: string)
    requires !Uses(es, h)
    ensures Models(es, h) == []
  {
    if es != [] {
      var n := |es| - 1;
      Snoc([], es);
      UsesSnoc(es[..n], es[n], h);
      NoModels(es[..n], h);
    }
  }

  lemma {:induction false} ModelsSnoc(es: seq<RequestEntry>, e: RequestEntry, h: string)
    ensures Models(es + [e], h)
         == if e.tokenHash == h && e.model !in Models(es, h) then Models(es, h) + [e.model] else Models(es, h)
  {
    assert (es + [e])[..|es|] == es;
  }

  lemma {:induction false} OwnTokenSnoc(m: map<string, TokenRollup>, es: seq<RequestEntry>, e: RequestEntry)
    requires TokensRight(m, es)
    ensures TokenRight(Extended(m, e), es + [e], e.tokenHash)
  {
    var h := e.tokenHash;
    UsesSnoc(es, e, h);
    UsesIsKey(es, h);
    EndsSnoc(es, e, h);
    SumWhereSnoc(es, e, es + [e], ByToken, h);
    RollupAt(es, ByToken, h);
    ModelsSnoc(es, e, h);
    if h in m {
      assert TokenRight(m[h], es, h);
    } else {
      NoModels(es, h);
    }
  }

  lemma {:induction false} OtherTokenSnoc(r: TokenRollup, es: seq<RequestEntry>, e: RequestEntry, h: string)
    requires TokenRight(r, es, h) && e.tokenHash != h
    ensures TokenRight(r, es + [e], h)
  {
    UsesSnoc(es, e, h);
    EndsSnoc(es, e, h);
    SumWhereSnoc(es, e, es + [e], ByToken, h);
    ModelsSnoc(es, e, h);
  }

  lemma {:induction false} TokensSnoc(m: map<string, TokenRollup>, es: seq<RequestEntry>, e: RequestEntry)
    requires TokensRight(m, es)
    ensures TokensRight(m[e.tokenHash := Extended(m, e)], es + [e])
  {
    var after := m[e.tokenHash := Extended(m, e)];
    KeysSnoc(es, e, es + [e], ByToken);
    forall h | h in after ensures TokenRight(after[h], es + [e], h) {
      if h == e.tokenHash {
        OwnTokenSnoc(m, es, e);
      } else {
        OtherTokenSnoc(m[h], es, e, h);
      }
    }
  }

  /** The summary with one more request. */
  function Grown(s: Summary, e: RequestEntry): Summary {
    Summary(PlusTotals(s.totals, TotalsOf(e)),
            FiledIf(s.byModel, KeyOf(e, ByModel), UsageOf(e)),
            FiledIf(s.byProvider, KeyOf(e, ByProvider), UsageOf(e)),
            s.byToken[e.tokenHash := Extended(s.byToken, e)])
  }

  lemma {:induction false} GrownSummarizes(s: Summary, es: seq<RequestEntry>, e: RequestEntry, all: seq<RequestEntry>)
    requires Summarizes(s, es) && all == es + [e]
    ensures Summarizes(Grown(s, e), all)
  {
    assert all[..|es|] == es;
    RollupSnoc(es, e, all, ByModel);
    RollupSnoc(es, e, all, ByProvider);
    TokensSnoc(s.byToken, es, e);
  }

  method AddToRollup(m: map<string, Usage>, key: string, input: int, output: int, cached: int, cacheCreation: int,
                     reasoning: int) returns (r: map<string, Usage>)
    ensures r == Filed(m, key, Usage(1, input, output, input + output, cached, cacheCreation, reasoning))
  {
    var u := NONE;
    if key in m {
      u := m[key];
    }
    u := u.(requests := u.requests + 1);
    u := u.(input := u.input + input);
    u := u.(output := u.output + output);
    u := u.(total := u.total + input + output);
    u := u.(cached := u.cached + cached);
    u := u.(cacheCreation := u.cacheCreation + cacheCreation);
    u := u.(reasoning := u.reasoning + reasoning);
    r := m[key := u];
  }

  method ContainsStr(ss: seq<string>, s: string) returns (found: bool)
    ensures found <==> s in ss
  {
    for i := 0 to |ss|
      invariant s !in ss[..i]
    {
      if ss[i] == s {
        return true;
      }
    }
    return false;
  }

  method CountFails(actions: seq<string>) returns (n: nat)
    ensures n == Fails(actions)
  {
    n := 0;
    for i := 0 to |actions|
      invariant n == Fails(actions[..i])
    {
      assert actions[..i + 1][..i] == actions[..i];
      if actions[i] == "fail" {
        n := n + 1;
      }
    }
    assert actions[..|actions|] == actions;
  }

  method AddToToken(m: map<string, TokenRollup>, req: RequestEntry) returns (r: map<string, TokenRollup>)
    ensures r == m[req.tokenHash := Extended(m, req)]
  {
    var tr := TokenRollup(NONE, [], req.timestamp, "");
    if req.tokenHash in m {
      tr := m[req.tokenHash];
    }
    var u := tr.usage;
    u := u.(requests := u.requests + 1, input := u.input + req.input, output := u.output + req.output);
    u := u.(total := u.total + (req.input + req.output));
    tr := tr.(usage := u, lastSeen := req.timestamp);
    var known := ContainsStr(tr.modelsUsed, req.model);
    if !known {
      tr := tr.(modelsUsed := tr.modelsUsed + [req.model]);
    }
    r := m[req.tokenHash := tr];
  }

  method AddToTotals(totals: Totals, req: RequestEntry, cached: int, cacheCreation: int, reasoning: int)
    returns (t: Totals)
    requires UsageOf(req)
          == Usage(1, req.input, req.output, req.input + req.output, cached, cacheCreation, reasoning)
    ensures t == PlusTotals(totals, TotalsOf(req))
  {
    var u := totals.usage;
    u := u.(requests := u.requests + 1, input := u.input + req.input, output := u.output + req.output);
    u := u.(total := u.total + (req.input + req.output));
    u := u.(cached := u.cached + cached, cacheCreation := u.cacheCreation + cacheCreation);
    u := u.(reasoning := u.reasoning + reasoning);
    t := totals.(usage := u, retries := totals.retries + req.retryCount);
    if req.statusCode >= 400 {
      t := t.(errors := t.errors + 1);
    }
    if req.statusCode == 429 {
      t := t.(rateLimits := t.rateLimits + 1);
    }
    var fails := CountFails(req.actions);
    t := t.(violations := t.violations + fails);
  }

  method AddRequest(s: Summary, req: RequestEntry) returns (r: Summary)
    ensures r == Grown(s, req)
  {
    var cached, cacheCreation, reasoning := 0, 0, 0;
    if req.meta.Some? {
      cached, cacheCreation, reasoning := req.meta.value.cached, req.meta.value.cacheCreation, req.meta.value.reasoning;
    }
    var totals := AddToTotals(s.totals, req, cached, cacheCreation, reasoning);
    var byModel := AddToRollup(s.byModel, req.model, req.input, req.output, cached, cacheCreation, reasoning);
    var byProvider := s.byProvider;
    if req.provider != "" {
      byProvider := AddToRollup(byProvider, req.provider, req.input, req.output, cached, cacheCreation, reasoning);
    }
    var byToken := AddToToken(s.byToken, req);
    r := Summary(totals, byModel, byProvider, byToken);
  }

  class Ledger {
    var requests: seq<RequestEntry>

    constructor ()
      ensures requests == []
    {
      requests := [];
    }

    method RecordRequest(entry: RequestEntry)
      modifies this
      ensures requests == old(requests) + [entry]
    {
      requests := requests + [entry];
    }

    /** What `Close` writes. */
    method Close() returns (summary: Summary)
      ensures Summarizes(summary, requests)
    {
      summary := BuildSummary(requests);
    }
  }

  method BuildSummary(requests: seq<RequestEntry>) returns (summary: Summary)
    ensures Summarizes(summary, requests)
  {
    summary := Summary(NO_TOTALS, map[], map[], map[]);
    for i := 0 to |requests|
      invariant Summarizes(summary, requests[..i])
    {
      GrownSummarizes(summary, requests[..i], requests[i], requests[..i + 1]);
      summary := AddRequest(summary, requests[i]);
    }
    assert requests[..|requests|] == requests;
  }

  /** A token's models are those of its requests, each listed once. */
  lemma {:induction false} ModelsExact(es: seq<RequestEntry>, h: string, m: string)
    ensures m in Models(es, h) <==> exists e :: e in es && e.tokenHash == h && e.model == m
    ensures forall i, j :: 0 <= i < j < |Models(es, h)| ==> Models(es, h)[i] != Models(es, h)[j]
  {
    if es != [] {
      ModelsExact(es[..|es| - 1], h, m);
    }
  }

  // ---------- Merging summaries ----------

  /** Rollups merged key by key. */
  function Merged(a: map<string, Usage>, b: map<string, Usage>): map<string, Usage> {
    map k | k in a.Keys + b.Keys :: Plus(At(a, k), At(b, k))
  }

  lemma {:induction false} SumWhereConcat(a: seq<RequestEntry>, b: seq<RequestEntry>, d: Dimension, k: string)
    ensures SumWhere(a + b, d, k) == Plus(SumWhere(a, d, k), SumWhere(b, d, k))
  {
    if b == [] {
      assert a + b == a;
    } else {
      var n := |b| - 1;
      Snoc(a, b);
      SumWhereConcat(a, b[..n], d, k);
      SumWhereSnoc(a + b[..n], b[n], a + b, d, k);
    }
  }

  lemma {:induction false} KeysConcat(a: seq<RequestEntry>, b: seq<RequestEntry>, d: Dimension)
    ensures Keys(a + b, d) == Keys(a, d) + Keys(b, d)
  {
    if b == [] {
      assert a + b == a;
    } else {
      var n := |b| - 1;
      Snoc(a, b);
      KeysConcat(a, b[..n], d);
      KeysSnoc(a + b[..n], b[n], a + b, d);
      KeysSnoc(b[..n], b[n], b, d);
    }
  }

  /** Main result: the rollup of two lists of requests is the merge of their rollups, in every dimension. */
  lemma {:induction false} RollupConcat(a: seq<RequestEntry>, b: seq<RequestEntry>, d: Dimension)
    ensures Rollup(a + b, d) == Merged(Rollup(a, d), Rollup(b, d))
  {
    KeysConcat(a, b, d);
    forall k | k in Keys(a + b, d)
      ensures SumWhere(a + b, d, k) == Plus(At(Rollup(a, d), k), At(Rollup(b, d), k))
    {
      SumWhereConcat(a, b, d, k);
      RollupAt(a, d, k);
      RollupAt(b, d, k);
    }
  }

  lemma {:induction false} TotalsSnoc(es: seq<RequestEntry>, e: RequestEntry, all: seq<RequestEntry>)
    requires all == es + [e]
    ensures SumTotals(all) == PlusTotals(SumTotals(es), TotalsOf(e))
  {
    assert all[..|es|] == es;
  }

  lemma {:induction false} PlusAssociative(x: Totals, y: Totals, z: Totals)
    ensures PlusTotals(PlusTotals(x, y), z) == PlusTotals(x, PlusTotals(y, z))
  {
  }

  /** Main result: so are the totals, in all eleven counters. */
  lemma {:induction false} TotalsConcat(a: seq<RequestEntry>, b: seq<RequestEntry>)
    ensures SumTotals(a + b) == PlusTotals(SumTotals(a), SumTotals(b))
  {
    if b == [] {
      assert a + b == a;
    } else {
      var n := |b| - 1;
      Snoc(a, b);
      TotalsConcat(a, b[..n]);
      TotalsSnoc(a + b[..n], b[n], a + b);
      TotalsSnoc(b[..n], b[n], b);
      PlusAssociative(SumTotals(a), SumTotals(b[..n]), TotalsOf(b[n]));
    }
  }

  /** The rollup of the tokens as the command reads it. */
  function Usages(m: map<string, TokenRollup>): map<string, Usage> {
    map h | h in m :: m[h].usage
  }

  datatype Aggregate = Aggregate(totals: Totals, byModel: map<string, Usage>, byProvider: map<string, Usage>,
                                 byToken: map<string, Usage>)

  function AggregateOf(es: seq<RequestEntry>): Aggregate {
    Aggregate(SumTotals(es), Rollup(es, ByModel), Rollup(es, ByProvider), Rollup(es, ByToken))
  }

  lemma {:induction false} SummaryUsages(s: Summary, es: seq<RequestEntry>)
    requires Summarizes(s, es)
    ensures Usages(s.byToken) == Rollup(es, ByToken)
  {
  }

  function Joined(a: Aggregate, s: Summary): Aggregate {
    Aggregate(PlusTotals(a.totals, s.totals), Merged(a.byModel, s.byModel), Merged(a.byProvider, s.byProvider),
              Merged(a.byToken, Usages(s.byToken)))
  }

  lemma {:induction false} JoinedIsWhole(a: seq<RequestEntry>, b: seq<RequestEntry>, s: Summary)
    requires Summarizes(s, b)
    ensures Joined(AggregateOf(a), s) == AggregateOf(a + b)
  {
    TotalsConcat(a, b);
    RollupConcat(a, b, ByModel);
    RollupConcat(a, b, ByProvider);
    RollupConcat(a, b, ByToken);
    SummaryUsages(s, b);
  }

  method MergeRollup(dst: map<string, Usage>, key: string, src: Usage) returns (r: map<string, Usage>)
    ensures r == Filed(dst, key, src)
  {
    var u := NONE;
    if key in dst {
      u := dst[key];
    }
    u := u.(requests := u.requests + src.requests);
    u := u.(input := u.input + src.input);
    u := u.(output := u.output + src.output);
    u := u.(total := u.total + src.total);
    u := u.(cached := u.cached + src.cached);
    u := u.(cacheCreation := u.cacheCreation + src.cacheCreation);
    u := u.(reasoning := u.reasoning + src.reasoning);
    r := dst[key := u];
  }

  /** All keys of `src` but those in `keys` are merged into `dst`. */
  ghost predicate PartlyMerged(dst: map<string, Usage>, src: map<string, Usage>, keys: set<string>,
                               r: map<string, Usage>) {
    && keys <= src.Keys
    && r.Keys == dst.Keys + (src.Keys - keys)
    && forall k :: k in r ==> At(r, k) == Plus(At(dst, k), if k in keys then NONE else At(src, k))
  }

  lemma {:induction false} MergeOne(dst: map<string, Usage>, src: map<string, Usage>, keys: set<string>, r: map<string, Usage>, k: string)
    requires PartlyMerged(dst, src, keys, r) && k in keys
    ensures PartlyMerged(dst, src, keys - {k}, Filed(r, k, src[k]))
  {
    var after := Filed(r, k, src[k]);
    assert after.Keys == dst.Keys + (src.Keys - (keys - {k}));
    forall j | j in after ensures At(after, j) == Plus(At(dst, j), if j in keys - {k} then NONE else At(src, j)) {
      if j == k {
        assert k in r ==> At(r, k) == Plus(At(dst, k), NONE);
      } else {
        assert At(after, j) == At(r, j);
      }
    }
  }

  lemma {:induction false} MergedAll(dst: map<string, Usage>, src: map<string, Usage>, r: map<string, Usage>)
    requires PartlyMerged(dst, src, {}, r)
    ensures r == Merged(dst, src)
  {
    forall k | k in r ensures r[k] == Plus(At(dst, k), At(src, k)) {
      assert At(r, k) == r[k];
    }
  }

  /** The keys of the source are visited in any order. */
  method MergeRollups(dst: map<string, Usage>, src: map<string, Usage>) returns (r: map<string, Usage>)
    ensures r == Merged(dst, src)
  {
    r := dst;
    var keys := src.Keys;
    while keys != {}
      invariant PartlyMerged(dst, src, keys, r)
      decreases |keys|
    {
      var k :| k in keys;
      MergeOne(dst, src, keys, r, k);
      keys := keys - {k};
      r := MergeRollup(r, k, src[k]);
    }
    MergedAll(dst, src, r);
  }

  function Flat(lists: seq<seq<RequestEntry>>): seq<RequestEntry> {
    if lists == [] then [] else Flat(lists[..|lists| - 1]) + lists[|lists| - 1]
  }

  /** Main result: what `ledger summary` aggregates over the session files is what one summary of all their
      requests would say. */
  method AggregateSessions(sessions: seq<Summary>, ghost lists: seq<seq<RequestEntry>>) returns (a: Aggregate)
    requires |lists| == |sessions| && forall i :: 0 <= i < |sessions| ==> Summarizes(sessions[i], lists[i])
    ensures a == AggregateOf(Flat(lists))
  {
    a := Aggregate(NO_TOTALS, map[], map[], map[]);
    for i := 0 to |sessions|
      invariant a == AggregateOf(Flat(lists[..i]))
    {
      var s := sessions[i];
      JoinedIsWhole(Flat(lists[..i]), lists[i], s);
      assert lists[..i + 1][..i] == lists[..i];
      var byModel := MergeRollups(a.byModel, s.byModel);
      var byProvider := MergeRollups(a.byProvider, s.byProvider);
      var byToken := MergeRollups(a.byToken, Usages(s.byToken));
      a := Aggregate(PlusTotals(a.totals, s.totals), byModel, byProvider, byToken);
    }
    assert lists[..|lists|] == lists;
  }

  // ---------- What rollups sum to ----------

  datatype Field = Requests | Input | Output | Total | Cached | CacheCreation | Reasoning

  function Get(u: Usage, f: Field): int {
    match f
    case Requests => u.requests
    case Input => u.input
    case Output => u.output
    case Total => u.total
    case Cached => u.cached
    case CacheCreation => u.cacheCreation
    case Reasoning => u.reasoning
  }

  function Column(m: map<string, Usage>, f: Field): map<string, int> {
    map k | k in m :: Get(m[k], f)
  }

  lemma {:induction false} FiledColumn(m: map<string, Usage>, k: string, u: Usage, f: Field)
    ensures Sum(Column(Filed(m, k, u), f)) == Sum(Column(m, f)) + Get(u, f)
  {
    assert Column(Filed(m, k, u), f) == Column(m, f)[k := Get(At(m, k), f) + Get(u, f)];
    Put(Column(m, f), k, Get(At(m, k), f) + Get(u, f));
  }

  /** The sum over the requests that are filed at all. */
  function FiledSum(es: seq<RequestEntry>, d: Dimension, f: Field): int {
    if es == [] then 0
    else
      var e := es[|es| - 1];
      FiledSum(es[..|es| - 1], d, f) + if KeyOf(e, d).Some? then Get(ShareOf(e, d), f) else 0
  }

  lemma {:induction false} RollupSums(es: seq<RequestEntry>, d: Dimension, f: Field)
    ensures Sum(Column(Rollup(es, d), f)) == FiledSum(es, d, f)
  {
    if es == [] {
      assert Column(Rollup(es, d), f) == map[];
    } else {
      var n := |es| - 1;
      Snoc([], es);
      RollupSums(es[..n], d, f);
      RollupSnoc(es[..n], es[n], es, d);
      if KeyOf(es[n], d).Some? {
        FiledColumn(Rollup(es[..n], d), KeyOf(es[n], d).value, ShareOf(es[n], d), f);
      }
    }
  }

  lemma {:induction false} FieldPlus(a: Totals, b: Totals, f: Field)
    ensures Get(PlusTotals(a, b).usage, f) == Get(a.usage, f) + Get(b.usage, f)
  {
  }

  lemma {:induction false} FiledByModel(es: seq<RequestEntry>, f: Field)
    ensures FiledSum(es, ByModel, f) == Get(SumTotals(es).usage, f)
  {
    if es != [] {
      FiledByModel(es[..|es| - 1], f);
    }
  }

  lemma {:induction false} FiledByToken(es: seq<RequestEntry>, f: Field)
    ensures FiledSum(es, ByToken, f)
         == if f in {Requests, Input, Output, Total} then Get(SumTotals(es).usage, f) else 0
  {
    if es != [] {
      FiledByToken(es[..|es| - 1], f);
    }
  }

  function WithProvider(es: seq<RequestEntry>): seq<RequestEntry> {
    if es == [] then []
    else
      var e := es[|es| - 1];
      var before := WithProvider(es[..|es| - 1]);
      if Named(e) then before + [e] else before
  }

  lemma {:induction false} FiledByProvider(es: seq<RequestEntry>, f: Field)
    ensures FiledSum(es, ByProvider, f) == Get(SumTotals(WithProvider(es)).usage, f)
  {
    if es != [] {
      var before, e := es[..|es| - 1], es[|es| - 1];
      FiledByProvider(before, f);
      if Named(e) {
        TotalsSnoc(WithProvider(before), e, WithProvider(es));
        FieldPlus(SumTotals(WithProvider(before)), TotalsOf(e), f);
      }
    }
  }

  /** Main result: the rollups by model sum to the totals in all seven counters; those by token in requests, input,
      output and total, while their detail counts are always zero; those by provider sum to the totals of the
      requests that name one. */
  lemma {:induction false} RollupsSumToTotals(es: seq<RequestEntry>, f: Field)
    ensures Sum(Column(Rollup(es, ByModel), f)) == Get(SumTotals(es).usage, f)
    ensures Sum(Column(Rollup(es, ByToken), f))
         == if f in {Requests, Input, Output, Total} then Get(SumTotals(es).usage, f) else 0
    ensures Sum(Column(Rollup(es, ByProvider), f)) == Get(SumTotals(WithProvider(es)).usage, f)
  {
    RollupSums(es, ByModel, f);
    RollupSums(es, ByToken, f);
    RollupSums(es, ByProvider, f);
    FiledByModel(es, f);
    FiledByToken(es, f);
    FiledByProvider(es, f);
  }
}
