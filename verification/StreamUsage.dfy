/** Streaming a completion to the client while counting its output tokens: deltas are counted as they pass,
    but usage reported by the provider, the largest per message, takes precedence.

    A line is what the scanner delivers, without its newline. JSON decoding and the tokenizer are
    parameters. */
module StreamUsage {
  import opened Basics
  import opened MapSums
  import opened SessionUsage

  const DATA: bytes := [100, 97, 116, 97, 58, 32]      // data: and a space
  const DONE: bytes := [91, 68, 79, 78, 69, 93]        // [DONE]
  const NEWLINE: bytes := [10]
  const MAX_CONTENT: nat := 512 * 1024

  datatype Usage = Usage(output: Option<int>, completion: Option<int>)

  datatype Chunk = Chunk(id: Option<bytes>, responseId: Option<bytes>, deltas: seq<bytes>, usage: Option<Usage>)

  datatype Library = Library(decode: bytes -> Option<Chunk>, count: bytes -> Option<nat>)

  // ---------- What one line says ----------

  function ChunkOf(lib: Library, line: bytes): Option<Chunk> {
    if DATA <= line && line[|DATA|..] != DONE then lib.decode(line[|DATA|..]) else None
  }

  /** A chunk's own id, if it has one that is not empty. */
  function OwnId(c: Chunk): Option<bytes> {
    if c.id.Some? && c.id.value != [] then c.id
    else if c.responseId.Some? && c.responseId.value != [] then c.responseId
    else None
  }

  /** The id of the stream after a chunk: kept once it is not empty. */
  function UpstreamId(known: bytes, c: Chunk): bytes {
    if known != [] then known
    else if c.id.Some? then c.id.value
    else if c.responseId.Some? then c.responseId.value
    else known
  }

  function Reported(u: Usage): Option<int> {
    if u.output.Some? then u.output else u.completion
  }

  datatype Report = Report(id: bytes, amount: int)

  /** The usage report of a chunk, under the stream's id `upstream` if it has none of its own. */
  function ReportOf(c: Chunk, upstream: bytes): seq<Report> {
    if c.usage.Some? && Reported(c.usage.value).Some? then
      var own := OwnId(c);
      [Report(if own.Some? then own.value else upstream, Reported(c.usage.value).value)]
    else []
  }

  // ---------- What a whole stream says ----------

  function Id(lib: Library, lines: seq<bytes>): bytes {
    if lines == [] then []
    else
      var c, before := ChunkOf(lib, lines[|lines| - 1]), Id(lib, lines[..|lines| - 1]);
      if c.Some? then UpstreamId(before, c.value) else before
  }

  function Reports(lib: Library, lines: seq<bytes>): seq<Report> {
    if lines == [] then []
    else
      var c := ChunkOf(lib, lines[|lines| - 1]);
      Reports(lib, lines[..|lines| - 1]) + (if c.Some? then ReportOf(c.value, Id(lib, lines)) else [])
  }

  /** All deltas that are not empty, in order. */
  function Deltas(lib: Library, lines: seq<bytes>): seq<bytes> {
    if lines == [] then []
    else
      var c := ChunkOf(lib, lines[|lines| - 1]);
      Deltas(lib, lines[..|lines| - 1]) + (if c.Some? then NonEmpty(c.value.deltas) else [])
  }

  function NonEmpty(ds: seq<bytes>): seq<bytes> {
    if ds == [] then []
    else NonEmpty(ds[..|ds| - 1]) + (if ds[|ds| - 1] != [] then [ds[|ds| - 1]] else [])
  }

  function Counted(lib: Library, parts: seq<bytes>): nat {
    if parts == [] then 0
    else
      var n := lib.count(parts[|parts| - 1]);
      Counted(lib, parts[..|parts| - 1]) + (if n.Some? then n.value else 0)
  }

  /** The largest amount reported for a message, or 0. */
  function Largest(rs: seq<Report>, id: bytes): nat {
    if rs == [] then 0
    else
      var n, last := Largest(rs[..|rs| - 1], id), rs[|rs| - 1];
      if last.id == id && last.amount > n then last.amount else n
  }

  /** It is reported, and no report of the message is larger. */
  lemma {:induction false} LargestIsMaximum(rs: seq<Report>, id: bytes)
    ensures Largest(rs, id) > 0 ==> Report(id, Largest(rs, id)) in rs
    ensures forall r :: r in rs && r.id == id ==> r.amount <= Largest(rs, id)
  {
    if rs != [] {
      var front, last := rs[..|rs| - 1], rs[|rs| - 1];
      LargestIsMaximum(front, id);
      assert forall r :: r in rs <==> r in front || r == last;
    }
  }

  function Ids(rs: seq<Report>): set<bytes> {
    set r | r in rs :: r.id
  }

  /** Per message with a positive report, the largest one. */
  function Best(rs: seq<Report>): map<bytes, int> {
    map id | id in Ids(rs) && Largest(rs, id) > 0 :: Largest(rs, id)
  }

  lemma {:induction false} BestIs(rs: seq<Report>, id: bytes)
    ensures id in Best(rs) <==> Largest(rs, id) > 0
    ensures id in Best(rs) ==> Best(rs)[id] == Largest(rs, id)
  {
    LargestIsMaximum(rs, id);
  }

  /** The output count of a stream. */
  ghost function OutputTokens(lib: Library, lines: seq<bytes>): int {
    var best := Best(Reports(lib, lines));
    if best != map[] then Sum(best) else Counted(lib, Deltas(lib, lines))
  }

  // ---------- Appending ----------

  lemma {:induction false} CountedSnoc(lib: Library, parts: seq<bytes>, p: bytes)
    ensures Counted(lib, parts + [p]) == Counted(lib, parts) + (if lib.count(p).Some? then lib.count(p).value else 0)
  {
    assert (parts + [p])[..|parts + [p]| - 1] == parts;
  }

  lemma {:induction false} LargestSnoc(rs: seq<Report>, r: Report, id: bytes)
    ensures Largest(rs + [r], id) == if r.id == id && r.amount > Largest(rs, id) then r.amount else Largest(rs, id)
  {
    assert (rs + [r])[..|rs + [r]| - 1] == rs;
  }

  lemma {:induction false} BestSnoc(rs: seq<Report>, r: Report)
    ensures Best(rs + [r]) == if r.amount > Largest(rs, r.id) then Best(rs)[r.id := r.amount] else Best(rs)
  {
    var m := Best(rs + [r]);
    var n := if r.amount > Largest(rs, r.id) then Best(rs)[r.id := r.amount] else Best(rs);
    forall id ensures (id in m <==> id in n) && (id in m ==> m[id] == n[id]) {
      LargestSnoc(rs, r, id);
      BestIs(rs, id);
      BestIs(rs + [r], id);
    }
    assert m.Keys == n.Keys;
  }

  function Prefix(s: bytes, n: nat): bytes {
    if |s| <= n then s else s[..n]
  }

  // ---------- The handler ----------

  /** The deltas of one chunk: captured up to the cap, and counted. */
  method TakeDeltas(lib: Library, deltas: seq<bytes>, ghost seen: seq<bytes>, content: bytes, truncated: bool, total: nat)
    returns (content': bytes, truncated': bool, total': nat)
    requires content == Prefix(Concat(seen), MAX_CONTENT) && total == Counted(lib, seen)
    requires truncated <==> |Concat(seen)| > MAX_CONTENT
    ensures content' == Prefix(Concat(seen + NonEmpty(deltas)), MAX_CONTENT) && total' == Counted(lib, seen + NonEmpty(deltas))
    ensures truncated' <==> |Concat(seen + NonEmpty(deltas))| > MAX_CONTENT
  {
    content', truncated', total' := content, truncated, total;
    ghost var all := seen;
    for i := 0 to |deltas|
      invariant all == seen + NonEmpty(deltas[..i])
      invariant content' == Prefix(Concat(all), MAX_CONTENT) && total' == Counted(lib, all)
      invariant truncated' <==> |Concat(all)| > MAX_CONTENT
    {
      assert deltas[..i + 1][..i] == deltas[..i];
      var d := deltas[i];
      if d != [] {
        var remaining := MAX_CONTENT - |content'|;
        if remaining > 0 {
          if |d| > remaining {
            content' := content' + d[..remaining];
            truncated' := true;
          } else {
            content' := content' + d;
          }
        } else {
          truncated' := true;
        }
        var n := lib.count(d);
        if n.Some? {
          total' := total' + n.value;
        }
        ConcatSnoc(all, d);
        CountedSnoc(lib, all, d);
        all := all + [d];
      }
    }
    assert deltas[..|deltas|] == deltas;
  }

  method TakeUsage(c: Chunk, upstream: bytes, usage: map<bytes, int>, ghost rs: seq<Report>) returns (usage': map<bytes, int>)
    requires usage == Best(rs)
    ensures usage' == Best(rs + ReportOf(c, upstream))
  {
    usage' := usage;
    if c.usage.Some? {
      var messageId := upstream;
      if c.id.Some? && c.id.value != [] {
        messageId := c.id.value;
      } else if c.responseId.Some? && c.responseId.value != [] {
        messageId := c.responseId.value;
      }
      var known := if messageId in usage then usage[messageId] else 0;
      BestIs(rs, messageId);
      if c.usage.value.output.Some? {
        BestSnoc(rs, Report(messageId, c.usage.value.output.value));
        if c.usage.value.output.value > known {
          usage' := usage[messageId := c.usage.value.output.value];
        }
        return;
      } else if c.usage.value.completion.Some? {
        BestSnoc(rs, Report(messageId, c.usage.value.completion.value));
        if c.usage.value.completion.value > known {
          usage' := usage[messageId := c.usage.value.completion.value];
        }
        return;
      }
    }
    assert rs + ReportOf(c, upstream) == rs;
  }

  /** Adds up a map in an order of its own choosing. */
  method Total(usage: map<bytes, int>) returns (total: int)
    ensures total == Sum(usage)
  {
    total := 0;
    var left := usage;
    while left != map[]
      invariant total + Sum(left) == Sum(usage)
      decreases |left|
    {
      var k :| k in left;
      TakeAny(left, k);
      total := total + left[k];
      left := left - {k};
    }
  }

  lemma {:induction false} SumPositive(m: map<bytes, int>)
    requires forall k :: k in m ==> m[k] > 0
    ensures Sum(m) >= 0 && (m != map[] ==> Sum(m) > 0)
    decreases |m|
  {
    if m != map[] {
      var k :| k in m;
      TakeAny(m, k);
      SumPositive(m - {k});
    }
  }

  /** Everything gathered so far is what the lines so far say. */
  ghost predicate Progress(lib: Library, lines: seq<bytes>, upstream: bytes, usage: map<bytes, int>, counted: nat, content: bytes, truncated: bool) {
    && upstream == Id(lib, lines) && usage == Best(Reports(lib, lines))
    && counted == Counted(lib, Deltas(lib, lines))
    && content == Prefix(Concat(Deltas(lib, lines)), MAX_CONTENT)
    && (truncated <==> |Concat(Deltas(lib, lines))| > MAX_CONTENT)
  }

  /** What the client is sent: every line, each with a newline. */
  function Echo(lines: seq<bytes>): bytes {
    if lines == [] then [] else Echo(lines[..|lines| - 1]) + (lines[|lines| - 1] + NEWLINE)
  }

  /** The body of the loop, after the line was passed on. */
  method TakeLine(lib: Library, lines: seq<bytes>, i: nat, upstream: bytes, usage: map<bytes, int>, counted: nat, content: bytes, truncated: bool)
    returns (upstream': bytes, usage': map<bytes, int>, counted': nat, content': bytes, truncated': bool)
    requires i < |lines| && Progress(lib, lines[..i], upstream, usage, counted, content, truncated)
    ensures Progress(lib, lines[..i + 1], upstream', usage', counted', content', truncated')
  {
    upstream', usage', counted', content', truncated' := upstream, usage, counted, content, truncated;
    var line := lines[i];
    OneMoreLine(lib, lines, i);
    if DATA <= line {
      var data := line[|DATA|..];
      if data == DONE {
        return;
      }
      var chunk := lib.decode(data);
      if chunk.None? {
        return;
      }
      if upstream == [] {
        if chunk.value.id.Some? {
          upstream' := chunk.value.id.value;
        } else if chunk.value.responseId.Some? {
          upstream' := chunk.value.responseId.value;
        }
      }
      content', truncated', counted' := TakeDeltas(lib, chunk.value.deltas, Deltas(lib, lines[..i]), content, truncated, counted);
      usage' := TakeUsage(chunk.value, upstream', usage, Reports(lib, lines[..i]));
    }
  }

  method StreamLines(lib: Library, lines: seq<bytes>)
    returns (upstream: bytes, usage: map<bytes, int>, counted: nat, content: bytes, truncated: bool, client: bytes)
    ensures Progress(lib, lines, upstream, usage, counted, content, truncated)
    ensures client == Echo(lines)
  {
    upstream, usage, counted, content, truncated, client := [], map[], 0, [], false, [];
    assert Best([]) == map[];
    for i := 0 to |lines|
      invariant Progress(lib, lines[..i], upstream, usage, counted, content, truncated)
      invariant client == Echo(lines[..i])
    {
      var line := lines[i];
      assert lines[..i + 1][..i] == lines[..i];
      client := client + (line + NEWLINE);
      upstream, usage, counted, content, truncated := TakeLine(lib, lines, i, upstream, usage, counted, content, truncated);
    }
    assert lines[..|lines|] == lines;
  }

  lemma {:induction false} BestPositive(rs: seq<Report>)
    ensures Sum(Best(rs)) >= 0 && (Best(rs) != map[] ==> Sum(Best(rs)) > 0)
  {
    SumPositive(Best(rs));
  }

  method HandleStreamingResponse(lib: Library, canFlush: bool, lines: seq<bytes>, sessions: MemoryStore, hash: string)
    returns (total: int, content: bytes, upstream: bytes, truncated: bool, client: bytes)
    modifies sessions
    ensures canFlush ==> total == OutputTokens(lib, lines) && upstream == Id(lib, lines) && client == Echo(lines)
    ensures canFlush ==> content == Prefix(Concat(Deltas(lib, lines)), MAX_CONTENT)
    ensures canFlush ==> (truncated <==> |Concat(Deltas(lib, lines))| > 524_288)
    ensures canFlush ==>
      content <= Concat(Deltas(lib, lines)) && (truncated ==> |content| == 524_288)
      && (!truncated ==> content == Concat(Deltas(lib, lines)))
    ensures !canFlush ==> total == 0 && content == [] && upstream == [] && !truncated && client == []
    ensures total >= 0
    ensures forall k :: sessions.Of(k) == old(sessions.Of(k)) + (if k == hash then total else 0)
  {
    if !canFlush {
      return 0, [], [], false, [];
    }
    var usage, counted;
    upstream, usage, counted, content, truncated, client := StreamLines(lib, lines);
    total := counted;
    BestPositive(Reports(lib, lines));
    if |usage| > 0 {
      total := Total(usage);
    }
    if total > 0 {
      var n := sessions.AddUsage(hash, total);
    }
  }

  /** A body that is not streamed: its usage report is returned as it stands, but only a positive one is counted. */
  method CountResponseTokens(usage: Option<Usage>, sessions: MemoryStore, hash: string) returns (output: int)
    modifies sessions
    ensures output == if usage.Some? && Reported(usage.value).Some? then Reported(usage.value).value else 0
    ensures forall k :: sessions.Of(k) == old(sessions.Of(k)) + (if k == hash && output > 0 then output else 0)
  {
    if usage.None? {
      return 0;
    }
    if usage.value.output.Some? {
      output := usage.value.output.value;
    } else if usage.value.completion.Some? {
      output := usage.value.completion.value;
    } else {
      return 0;
    }
    if output > 0 {
      var n := sessions.AddUsage(hash, output);
    }
  }

  lemma {:induction false} OneMoreLine(lib: Library, lines: seq<bytes>, i: nat)
    requires i < |lines|
    ensures
      var c, next, before := ChunkOf(lib, lines[i]), lines[..i + 1], lines[..i];
      if c.None? then
        Id(lib, next) == Id(lib, before) && Reports(lib, next) == Reports(lib, before) && Deltas(lib, next) == Deltas(lib, before)
      else
        var id := UpstreamId(Id(lib, before), c.value);
        && Id(lib, next) == id
        && Reports(lib, next) == Reports(lib, before) + ReportOf(c.value, id)
        && Deltas(lib, next) == Deltas(lib, before) + NonEmpty(c.value.deltas)
  {
    assert lines[..i + 1][..i] == lines[..i];
  }

  // ---------- What the count depends on ----------

  ghost predicate SameReports(rs: seq<Report>, other: seq<Report>) {
    forall r: Report :: r in rs <==> r in other
  }

  /** Only which reports were made matters, not how often or in which order. */
  lemma {:induction false} OnlyWhichReports(rs: seq<Report>, other: seq<Report>)
    requires SameReports(rs, other)
    ensures Best(rs) == Best(other)
  {
    forall id ensures Largest(rs, id) == Largest(other, id) {
      LargestIsMaximum(rs, id);
      LargestIsMaximum(other, id);
    }
    forall id ensures id in Best(rs) <==> id in Best(other) {
      BestIs(rs, id);
      BestIs(other, id);
    }
  }

  /** Usage takes precedence exactly when a positive amount was reported. */
  lemma {:induction false} UsageKnown(rs: seq<Report>)
    ensures Best(rs) != map[] <==> exists r :: r in rs && r.amount > 0
  {
    if r :| r in rs && r.amount > 0 {
      LargestIsMaximum(rs, r.id);
      BestIs(rs, r.id);
    } else {
      forall id ensures id !in Best(rs) {
        LargestIsMaximum(rs, id);
        BestIs(rs, id);
      }
      assert Best(rs) == map[];
    }
  }

  /** Every usage report carries an id of its own. */
  predicate Labelled(lib: Library, lines: seq<bytes>) {
    forall line :: line in lines && ChunkOf(lib, line).Some? && ChunkOf(lib, line).value.usage.Some? ==>
      OwnId(ChunkOf(lib, line).value).Some?
  }

  predicate Says(lib: Library, line: bytes, r: Report) {
    ChunkOf(lib, line).Some? && r in ReportOf(ChunkOf(lib, line).value, [])
  }

  lemma {:induction false} LabelledReports(lib: Library, lines: seq<bytes>, r: Report)
    requires Labelled(lib, lines)
    ensures r in Reports(lib, lines) <==> exists line :: line in lines && Says(lib, line, r)
  {
    if lines != [] {
      var front, last := lines[..|lines| - 1], lines[|lines| - 1];
      assert forall line :: line in lines <==> line in front || line == last;
      LabelledReports(lib, front, r);
      var c := ChunkOf(lib, last);
      if c.Some? {
        assert last in lines;
        assert ReportOf(c.value, Id(lib, lines)) == ReportOf(c.value, []);
        assert r in Reports(lib, lines) <==> r in Reports(lib, front) || r in ReportOf(c.value, []);
      }
    }
  }

  /** Main result: when usage reports carry their own ids, repeating and reordering the lines of a stream,
      in any way at all, does not change its output count, given any positive report. */
  lemma {:induction false} OrderAndRepetitionInvisible(lib: Library, lines: seq<bytes>, other: seq<bytes>)
    requires Labelled(lib, lines) && forall line: bytes :: line in lines <==> line in other
    requires Best(Reports(lib, lines)) != map[]
    ensures OutputTokens(lib, lines) == OutputTokens(lib, other)
  {
    forall r: Report ensures r in Reports(lib, lines) <==> r in Reports(lib, other) {
      LabelledReports(lib, lines, r);
      LabelledReports(lib, other, r);
    }
    OnlyWhichReports(Reports(lib, lines), Reports(lib, other));
  }

  lemma {:induction false} Snoc(x: seq<bytes>, more: seq<bytes>)
    requires more != []
    ensures x + more == (x + more[..|more| - 1]) + [more[|more| - 1]]
  {
  }

  /** Streams with the same id and reports so far stay alike as they go on alike. */
  lemma {:induction false} GoOnAlike(lib: Library, x: seq<bytes>, y: seq<bytes>, more: seq<bytes>)
    requires Id(lib, x) == Id(lib, y) && SameReports(Reports(lib, x), Reports(lib, y))
    ensures Id(lib, x + more) == Id(lib, y + more) && SameReports(Reports(lib, x + more), Reports(lib, y + more))
  {
    if more == [] {
      assert x + more == x && y + more == y;
    } else {
      var front, last := more[..|more| - 1], more[|more| - 1];
      GoOnAlike(lib, x, y, front);
      Snoc(x, more);
      Snoc(y, more);
      AppendAlike(lib, x + front, y + front, last);
    }
  }

  lemma {:induction false} AppendAlike(lib: Library, x: seq<bytes>, y: seq<bytes>, line: bytes)
    requires Id(lib, x) == Id(lib, y) && SameReports(Reports(lib, x), Reports(lib, y))
    ensures Id(lib, x + [line]) == Id(lib, y + [line]) && SameReports(Reports(lib, x + [line]), Reports(lib, y + [line]))
  {
    assert (x + [line])[..|x + [line]| - 1] == x && (y + [line])[..|y + [line]| - 1] == y;
  }

  lemma {:induction false} AppendTwice(lib: Library, x: seq<bytes>, line: bytes)
    ensures Id(lib, x + [line]) == Id(lib, x + [line] + [line])
    ensures SameReports(Reports(lib, x + [line]), Reports(lib, x + [line] + [line]))
  {
    var once := x + [line];
    assert once[..|once| - 1] == x;
    assert (once + [line])[..|once + [line]| - 1] == once;
  }

  /** Main result: a line sent twice in a row counts once, whether or not it carries an id, given any
      positive report. */
  lemma {:induction false} RepeatedLineInvisible(lib: Library, before: seq<bytes>, line: bytes, after: seq<bytes>)
    requires Best(Reports(lib, before + [line] + after)) != map[]
    ensures OutputTokens(lib, before + [line] + [line] + after) == OutputTokens(lib, before + [line] + after)
  {
    AppendTwice(lib, before, line);
    GoOnAlike(lib, before + [line], before + [line] + [line], after);
    OnlyWhichReports(Reports(lib, before + [line] + after), Reports(lib, before + [line] + [line] + after));
  }

  // ---------- A line repeated later ----------

  /** The stream's id has settled as far as a line that was seen is concerned. */
  lemma {:induction false} IdSettled(lib: Library, x: seq<bytes>, line: bytes, c: Chunk)
    requires line in x && ChunkOf(lib, line) == Some(c)
    ensures UpstreamId(Id(lib, x), c) == Id(lib, x)
  {
    var front, last := x[..|x| - 1], x[|x| - 1];
    if line != last {
      assert line in front;
      IdSettled(lib, front, line, c);
    }
  }

  lemma {:induction false} AppendLine(lib: Library, x: seq<bytes>, line: bytes, more: seq<bytes>)
    requires more == x + [line]
    ensures
      var c := ChunkOf(lib, line);
      if c.None? then Id(lib, more) == Id(lib, x) && Reports(lib, more) == Reports(lib, x)
      else Id(lib, more) == UpstreamId(Id(lib, x), c.value)
           && Reports(lib, more) == Reports(lib, x) + ReportOf(c.value, UpstreamId(Id(lib, x), c.value))
  {
    assert more[..|more| - 1] == x;
  }

  /** What the line reports when the stream's id is `id`. */
  function Filed(lib: Library, line: bytes, id: bytes): seq<Report> {
    var c := ChunkOf(lib, line);
    if c.Some? then ReportOf(c.value, id) else []
  }

  /** Going on after the repeated line: the id is the same, and its reports are added to the others. */
  lemma {:induction false} GoOnAfterRepeat(lib: Library, x: seq<bytes>, line: bytes, after: seq<bytes>)
    requires line in x
    ensures Id(lib, x + [line] + after) == Id(lib, x + after)
    ensures SameReports(Reports(lib, x + [line] + after), Reports(lib, x + after) + Filed(lib, line, Id(lib, x)))
  {
    if after == [] {
      assert x + [line] + after == x + [line] && x + after == x;
      AppendLine(lib, x, line, x + [line]);
      if ChunkOf(lib, line).Some? {
        IdSettled(lib, x, line, ChunkOf(lib, line).value);
      }
    } else {
      var front, last := after[..|after| - 1], after[|after| - 1];
      GoOnAfterRepeat(lib, x, line, front);
      Snoc(x + [line], after);
      Snoc(x, after);
      AppendLine(lib, x + [line] + front, last, x + [line] + after);
      AppendLine(lib, x + front, last, x + after);
    }
  }

  /** By how much a report exceeds what its message has already. */
  function Excess(rs: seq<Report>, r: Report): nat {
    if r.amount > Largest(rs, r.id) then r.amount - Largest(rs, r.id) else 0
  }

  lemma {:induction false} BestSum(rs: seq<Report>, r: Report)
    ensures Sum(Best(rs + [r])) == Sum(Best(rs)) + Excess(rs, r)
    ensures Best(rs) != map[] ==> Best(rs + [r]) != map[]
  {
    BestSnoc(rs, r);
    BestIs(rs, r.id);
    Put(Best(rs), r.id, r.amount);
  }

  function ExcessAll(rs: seq<Report>, more: seq<Report>): nat {
    if |more| == 1 then Excess(rs, more[0]) else 0
  }

  /** Main result: a line repeated later adds exactly what its report, filed under the stream's id by then, exceeds
      the largest report of that id anywhere in the stream; so it changes nothing if and only if it does not. */
  lemma {:induction false} LaterRepeatAdds(lib: Library, x: seq<bytes>, line: bytes, after: seq<bytes>)
    requires line in x && Best(Reports(lib, x + after)) != map[]
    ensures OutputTokens(lib, x + [line] + after)
         == OutputTokens(lib, x + after) + ExcessAll(Reports(lib, x + after), Filed(lib, line, Id(lib, x)))
    ensures OutputTokens(lib, x + [line] + after) == OutputTokens(lib, x + after)
       <==> forall r :: r in Filed(lib, line, Id(lib, x)) ==> r.amount <= Largest(Reports(lib, x + after), r.id)
  {
    var rs, more := Reports(lib, x + after), Filed(lib, line, Id(lib, x));
    GoOnAfterRepeat(lib, x, line, after);
    OnlyWhichReports(Reports(lib, x + [line] + after), rs + more);
    if more == [] {
      assert rs + more == rs;
    } else {
      assert more == [more[0]];
      BestSum(rs, more[0]);
    }
  }

  lemma {:induction false} ReportsGrow(lib: Library, x: seq<bytes>, y: seq<bytes>, r: Report)
    requires r in Reports(lib, x)
    ensures r in Reports(lib, x + y)
  {
    if y == [] {
      assert x + y == x;
    } else {
      ReportsGrow(lib, x, y[..|y| - 1], r);
      Snoc(x, y);
      AppendLine(lib, x + y[..|y| - 1], y[|y| - 1], x + y);
    }
  }

  /** In particular it changes nothing if the line has an id of its own, or the stream's id is what it was. */
  lemma {:induction false} RepeatUnderSameId(lib: Library, before: seq<bytes>, line: bytes, middle: seq<bytes>, after: seq<bytes>)
    requires
      var x := before + [line] + middle;
      && Best(Reports(lib, x + after)) != map[]
      && Filed(lib, line, Id(lib, x)) == Filed(lib, line, Id(lib, before + [line]))
    ensures
      var x := before + [line] + middle;
      OutputTokens(lib, x + [line] + after) == OutputTokens(lib, x + after)
  {
    var x := before + [line] + middle;
    assert line in x;
    LaterRepeatAdds(lib, x, line, after);
    AppendLine(lib, before, line, before + [line]);
    forall r | r in Filed(lib, line, Id(lib, x)) ensures r.amount <= Largest(Reports(lib, x + after), r.id) {
      assert r in Reports(lib, before + [line]);
      ReportsGrow(lib, before + [line], middle, r);
      ReportsGrow(lib, x, after, r);
      LargestIsMaximum(Reports(lib, x + after), r.id);
    }
  }

  lemma {:induction false} FiledOnce(lib: Library, usage: bytes, id: bytes, x: bytes)
    requires ChunkOf(lib, usage) == Some(Chunk(None, None, [], Some(Usage(Some(5), None))))
    requires ChunkOf(lib, id) == Some(Chunk(Some(x), None, [], None)) && x != []
    ensures Reports(lib, [usage, id]) == [Report([], 5)] && Id(lib, [usage, id]) == x
  {
    var none: seq<bytes> := [];
    assert none + [usage] == [usage] && [usage] + [id] == [usage, id];
    AppendLine(lib, none, usage, [usage]);
    AppendLine(lib, [usage], id, [usage, id]);
  }

  lemma {:induction false} OneReport(lib: Library, lines: seq<bytes>, r: Report)
    requires Reports(lib, lines) == [r] && r.amount > 0
    ensures OutputTokens(lib, lines) == r.amount && Best(Reports(lib, lines)) != map[]
  {
    var none: seq<Report> := [];
    assert Best(none) == map[] && none + [r] == [r];
    BestSum(none, r);
    LargestSnoc(none, r, r.id);
    BestIs([r], r.id);
  }

  /** A report without an id, the stream's id, and the report again: filed under no id first, then under that id. */
  lemma {:induction false} FiledTwice(lib: Library, usage: bytes, id: bytes, x: bytes)
    requires ChunkOf(lib, usage) == Some(Chunk(None, None, [], Some(Usage(Some(5), None))))
    requires ChunkOf(lib, id) == Some(Chunk(Some(x), None, [], None)) && x != []
    ensures OutputTokens(lib, [usage, id]) == 5 && OutputTokens(lib, [usage, id, usage]) == 10
  {
    FiledOnce(lib, usage, id, x);
    OneReport(lib, [usage, id], Report([], 5));
    assert [usage, id] + [] == [usage, id] && [usage, id] + [usage] + [] == [usage, id, usage];
    assert usage in [usage, id];
    LaterRepeatAdds(lib, [usage, id], usage, []);
    OtherMessage(Report([], 5), x);
  }

  lemma {:induction false} OtherMessage(r: Report, id: bytes)
    requires r.id != id
    ensures Largest([r], id) == 0
  {
    var none: seq<Report> := [];
    assert none + [r] == [r];
    LargestSnoc(none, r, id);
  }

  // ---------- Reordering without a positive report ----------

  /** What one line adds to the count of deltas. */
  function Worth(lib: Library, line: bytes): nat {
    var c := ChunkOf(lib, line);
    if c.Some? then Counted(lib, NonEmpty(c.value.deltas)) else 0
  }

  lemma {:induction false} CountedConcat(lib: Library, a: seq<bytes>, b: seq<bytes>)
    ensures Counted(lib, a + b) == Counted(lib, a) + Counted(lib, b)
  {
    if b == [] {
      assert a + b == a;
    } else {
      Snoc(a, b);
      CountedConcat(lib, a, b[..|b| - 1]);
      CountedSnoc(lib, a + b[..|b| - 1], b[|b| - 1]);
    }
  }

  function Worths(lib: Library, lines: seq<bytes>): nat {
    if lines == [] then 0 else Worths(lib, lines[..|lines| - 1]) + Worth(lib, lines[|lines| - 1])
  }

  lemma {:induction false} CountedIsWorths(lib: Library, lines: seq<bytes>)
    ensures Counted(lib, Deltas(lib, lines)) == Worths(lib, lines)
  {
    if lines != [] {
      var front, c := lines[..|lines| - 1], ChunkOf(lib, lines[|lines| - 1]);
      CountedIsWorths(lib, front);
      if c.Some? {
        CountedConcat(lib, Deltas(lib, front), NonEmpty(c.value.deltas));
      } else {
        assert Deltas(lib, front) + [] == Deltas(lib, front);
      }
    }
  }

  lemma {:induction false} WorthsSnoc(lib: Library, a: seq<bytes>, line: bytes)
    ensures Worths(lib, a + [line]) == Worths(lib, a) + Worth(lib, line)
  {
    assert (a + [line])[..|a + [line]| - 1] == a;
  }

  lemma {:induction false} WorthsConcat(lib: Library, a: seq<bytes>, b: seq<bytes>)
    ensures Worths(lib, a + b) == Worths(lib, a) + Worths(lib, b)
  {
    if b == [] {
      assert a + b == a;
    } else {
      Snoc(a, b);
      WorthsConcat(lib, a, b[..|b| - 1]);
      WorthsSnoc(lib, a + b[..|b| - 1], b[|b| - 1]);
    }
  }

  lemma {:induction false} TakenOut(b: seq<bytes>, i: nat)
    requires i < |b|
    ensures multiset(b) == multiset(b[..i] + b[i + 1..]) + multiset{b[i]}
  {
    assert b == b[..i] + [b[i]] + b[i + 1..];
  }

  lemma {:induction false} Cancel(m: multiset<bytes>, n: multiset<bytes>, x: bytes)
    requires m + multiset{x} == n + multiset{x}
    ensures m == n
  {
    assert m == (m + multiset{x}) - multiset{x} && n == (n + multiset{x}) - multiset{x};
  }

  lemma {:induction false} WorthsReordered(lib: Library, a: seq<bytes>, b: seq<bytes>)
    requires multiset(a) == multiset(b)
    ensures Worths(lib, a) == Worths(lib, b)
  {
    if a == [] {
      assert |b| == |multiset(b)| == 0;
    } else {
      var front, last := a[..|a| - 1], a[|a| - 1];
      assert a == front + [last];
      assert last in multiset(a);
      var i :| 0 <= i < |b| && b[i] == last;
      assert b == b[..i] + [last] + b[i + 1..];
      TakenOut(b, i);
      assert multiset(a) == multiset(front) + multiset{last};
      Cancel(multiset(front), multiset(b[..i] + b[i + 1..]), last);
      WorthsReordered(lib, front, b[..i] + b[i + 1..]);
      WorthsConcat(lib, b[..i], b[i + 1..]);
      WorthsConcat(lib, b[..i] + [last], b[i + 1..]);
      WorthsSnoc(lib, b[..i], last);
    }
  }

  /** Main result: with labelled reports, reordering the lines leaves the count as it is, whether it comes from the
      reports or from the deltas. */
  lemma {:induction false} ReorderingInvisible(lib: Library, lines: seq<bytes>, other: seq<bytes>)
    requires Labelled(lib, lines) && multiset(lines) == multiset(other)
    ensures OutputTokens(lib, lines) == OutputTokens(lib, other)
  {
    forall line: bytes ensures line in lines <==> line in other {
      assert line in lines <==> line in multiset(lines);
      assert line in other <==> line in multiset(other);
    }
    forall r: Report ensures r in Reports(lib, lines) <==> r in Reports(lib, other) {
      LabelledReports(lib, lines, r);
      LabelledReports(lib, other, r);
    }
    OnlyWhichReports(Reports(lib, lines), Reports(lib, other));
    CountedIsWorths(lib, lines);
    CountedIsWorths(lib, other);
    WorthsReordered(lib, lines, other);
  }
}
