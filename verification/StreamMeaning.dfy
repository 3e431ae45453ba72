/** What the output count of a stream means, said without the functions that compute it: from the chunks its lines
    carry, what they report, and under which id. */
module StreamMeaning {
  import opened Basics
  import opened MapSums
  import opened StreamUsage

  /** The line is "data: ", and what follows is not "[DONE]" and decodes to the chunk. */
  ghost predicate Carries(lib: Library, line: bytes, c: Chunk) {
    exists rest: bytes ::
      && line == [100, 97, 116, 97, 58, 32] + rest
      && rest != [91, 68, 79, 78, 69, 93]
      && lib.decode(rest) == Some(c)
  }

  lemma {:induction false} CarriesExactly(lib: Library, line: bytes, c: Chunk)
    ensures Carries(lib, line, c) <==> ChunkOf(lib, line) == Some(c)
  {
    if DATA <= line {
      assert line == [100, 97, 116, 97, 58, 32] + line[|DATA|..];
    }
    forall rest: bytes | line == [100, 97, 116, 97, 58, 32] + rest ensures DATA <= line && line[|DATA|..] == rest {
    }
  }

  // ---------- The stream's id ----------

  /** What a chunk calls the stream: its id, even an empty one, or else its responseId. */
  ghost predicate Calls(c: Chunk, id: bytes) {
    c.id == Some(id) || (c.id == None && c.responseId == Some(id))
  }

  ghost predicate NeverCalled(lib: Library, lines: seq<bytes>, k: nat)
    requires k <= |lines|
  {
    forall j, c: Chunk, id: bytes :: 0 <= j < k && Carries(lib, lines[j], c) && Calls(c, id) ==> id == []
  }

  ghost predicate FirstCalled(lib: Library, lines: seq<bytes>, k: nat, id: bytes)
    requires k < |lines|
  {
    NeverCalled(lib, lines, k) && exists c: Chunk :: Carries(lib, lines[k], c) && Calls(c, id)
  }

  /** The stream's id is the first that is not empty. */
  lemma {:induction false} IdExactly(lib: Library, lines: seq<bytes>)
    ensures Id(lib, lines) == [] ==> NeverCalled(lib, lines, |lines|)
    ensures Id(lib, lines) != [] ==> exists k :: 0 <= k < |lines| && FirstCalled(lib, lines, k, Id(lib, lines))
  {
    if lines != [] {
      var n := |lines| - 1;
      IdExactly(lib, lines[..n]);
      forall c: Chunk ensures Carries(lib, lines[n], c) <==> ChunkOf(lib, lines[n]) == Some(c) {
        CarriesExactly(lib, lines[n], c);
      }
      NeverCalledPrefix(lib, lines, n, n);
      if Id(lib, lines[..n]) != [] {
        var k :| 0 <= k < n && FirstCalled(lib, lines[..n], k, Id(lib, lines[..n]));
        NeverCalledPrefix(lib, lines, n, k);
        assert FirstCalled(lib, lines, k, Id(lib, lines));
      } else if Id(lib, lines) != [] {
        assert FirstCalled(lib, lines, n, Id(lib, lines));
      }
    }
  }

  lemma {:induction false} NeverCalledPrefix(lib: Library, lines: seq<bytes>, n: nat, k: nat)
    requires k <= n <= |lines|
    ensures NeverCalled(lib, lines[..n], k) <==> NeverCalled(lib, lines, k)
  {
    assert forall j :: 0 <= j < k ==> lines[..n][j] == lines[j];
  }

  // ---------- The reports ----------

  /** A usage amounts to its output_tokens, or to its completion_tokens if there are none. */
  ghost predicate Amounts(u: Usage, n: int) {
    u.output == Some(n) || (u.output == None && u.completion == Some(n))
  }

  /** It is filed under the chunk's id, or else its responseId, or else the stream's id; empty ones do not count. */
  ghost predicate FiledAs(c: Chunk, stream: bytes, id: bytes) {
    || (id != [] && c.id == Some(id))
    || (id != [] && c.id in {None, Some([])} && c.responseId == Some(id))
    || (id == stream && c.id in {None, Some([])} && c.responseId in {None, Some([])})
  }

  /** Line i reports r. */
  ghost predicate Reporting(lib: Library, lines: seq<bytes>, i: nat, r: Report)
    requires i < |lines|
  {
    exists c: Chunk ::
      && Carries(lib, lines[i], c) && c.usage.Some? && Amounts(c.usage.value, r.amount)
      && FiledAs(c, Id(lib, lines[..i + 1]), r.id)
  }

  lemma {:induction false} ReportOfExactly(c: Chunk, stream: bytes, r: Report)
    ensures r in ReportOf(c, stream) <==> c.usage.Some? && Amounts(c.usage.value, r.amount) && FiledAs(c, stream, r.id)
  {
    if c.usage.Some? && Reported(c.usage.value).Some? {
      var own := OwnId(c);
      var id := if own.Some? then own.value else stream;
      assert ReportOf(c, stream) == [Report(id, Reported(c.usage.value).value)];
      assert FiledAs(c, stream, r.id) <==> r.id == id;
      assert r == Report(r.id, r.amount);
    }
  }

  lemma {:induction false} ReportingLast(lib: Library, lines: seq<bytes>, r: Report)
    requires lines != []
    ensures
      var n := |lines| - 1;
      var c := ChunkOf(lib, lines[n]);
      Reporting(lib, lines, n, r) <==> c.Some? && r in ReportOf(c.value, Id(lib, lines))
  {
    var n := |lines| - 1;
    assert lines[..n + 1] == lines;
    forall c: Chunk ensures Carries(lib, lines[n], c) <==> ChunkOf(lib, lines[n]) == Some(c) {
      CarriesExactly(lib, lines[n], c);
    }
    forall c: Chunk
      ensures r in ReportOf(c, Id(lib, lines))
         <==> c.usage.Some? && Amounts(c.usage.value, r.amount) && FiledAs(c, Id(lib, lines), r.id)
    {
      ReportOfExactly(c, Id(lib, lines), r);
    }
  }

  /** Main result: the reports of a stream are exactly those of the usages its lines carry, output_tokens first, each
      filed under the chunk's own id or the stream's so far. */
  lemma {:induction false} ReportsExactly(lib: Library, lines: seq<bytes>, r: Report)
    ensures r in Reports(lib, lines) <==> exists i :: 0 <= i < |lines| && Reporting(lib, lines, i, r)
  {
    if lines != [] {
      var n := |lines| - 1;
      ReportsExactly(lib, lines[..n], r);
      ReportingLast(lib, lines, r);
      forall i | 0 <= i < n ensures Reporting(lib, lines[..n], i, r) <==> Reporting(lib, lines, i, r) {
        assert lines[..n][..i + 1] == lines[..i + 1];
      }
      if exists i :: 0 <= i < |lines| && Reporting(lib, lines, i, r) {
        var i :| 0 <= i < |lines| && Reporting(lib, lines, i, r);
        if i < n {
          assert Reporting(lib, lines[..n], i, r);
        }
      }
    }
  }

  // ---------- The count ----------

  /** Per message with a positive report, the largest amount reported. */
  ghost predicate LargestOf(lib: Library, lines: seq<bytes>, m: map<bytes, int>) {
    && (forall id :: id in m ==> m[id] > 0 && Report(id, m[id]) in Reports(lib, lines))
    && (forall r :: r in Reports(lib, lines) && r.amount > 0 ==> r.id in m && r.amount <= m[r.id])
  }

  lemma {:induction false} LargestOfIsBest(lib: Library, lines: seq<bytes>, m: map<bytes, int>)
    requires LargestOf(lib, lines, m)
    ensures Best(Reports(lib, lines)) == m
  {
    var rs := Reports(lib, lines);
    forall id: bytes ensures (id in Best(rs) <==> id in m) && (id in m ==> Best(rs)[id] == m[id]) {
      LargestIsMaximum(rs, id);
      BestIs(rs, id);
    }
    assert Best(rs).Keys == m.Keys;
  }

  /** Main result: given any positive report, the count is the sum over the messages of the largest amount reported. */
  lemma {:induction false} CountIsSumOfLargest(lib: Library, lines: seq<bytes>, m: map<bytes, int>)
    requires LargestOf(lib, lines, m) && m != map[]
    ensures OutputTokens(lib, lines) == Sum(m)
  {
    LargestOfIsBest(lib, lines, m);
  }

  /** Main result: a stream whose only positive amount is one line's completion_tokens counts exactly that. */
  lemma {:induction false} CompletionCounts(lib: Library, lines: seq<bytes>, i: nat, c: Chunk, n: int)
    requires i < |lines| && Carries(lib, lines[i], c) && c.usage == Some(Usage(None, Some(n))) && n > 0
    requires forall j, r: Report :: 0 <= j < |lines| && Reporting(lib, lines, j, r) && r.amount > 0 ==> j == i
    ensures OutputTokens(lib, lines) == n
  {
    var stream := Id(lib, lines[..i + 1]);
    var id := if OwnId(c).Some? then OwnId(c).value else stream;
    ReportOfExactly(c, stream, Report(id, n));
    assert Reporting(lib, lines, i, Report(id, n));
    var m := map[id := n];
    forall r: Report ensures r in Reports(lib, lines) && r.amount > 0 <==> r == Report(id, n) {
      ReportsExactly(lib, lines, r);
      if r in Reports(lib, lines) && r.amount > 0 {
        OnlyReport(lib, lines, i, c, r);
      }
    }
    CountIsSumOfLargest(lib, lines, m);
    TakeAny(m, id);
    assert m - {id} == map[];
  }

  lemma {:induction false} OnlyReport(lib: Library, lines: seq<bytes>, i: nat, c: Chunk, r: Report)
    requires i < |lines| && Carries(lib, lines[i], c) && Reporting(lib, lines, i, r)
    ensures r in ReportOf(c, Id(lib, lines[..i + 1]))
  {
    forall d: Chunk ensures Carries(lib, lines[i], d) <==> d == c {
      CarriesExactly(lib, lines[i], d);
      CarriesExactly(lib, lines[i], c);
    }
    ReportOfExactly(c, Id(lib, lines[..i + 1]), r);
  }

  /** Main result: without a positive amount the count is that of the deltas. */
  lemma {:induction false} CountIsOfDeltas(lib: Library, lines: seq<bytes>)
    requires forall i, r: Report :: 0 <= i < |lines| && Reporting(lib, lines, i, r) ==> r.amount <= 0
    ensures OutputTokens(lib, lines) == Counted(lib, Deltas(lib, lines))
  {
    forall r: Report | r in Reports(lib, lines) ensures r.amount <= 0 {
      ReportsExactly(lib, lines, r);
    }
    UsageKnown(Reports(lib, lines));
  }

  // ---------- The deltas ----------

  /** What the tokenizer makes of all pieces that are not empty; one it fails on counts nothing. */
  function Tokens(lib: Library, pieces: seq<bytes>): nat {
    if pieces == [] then 0
    else
      (match if pieces[0] == [] then None else lib.count(pieces[0]) case None => 0 case Some(n) => n)
        + Tokens(lib, pieces[1..])
  }

  lemma {:induction false} TokensSnoc(lib: Library, pieces: seq<bytes>, p: bytes)
    ensures Tokens(lib, pieces + [p]) == Tokens(lib, pieces) + Tokens(lib, [p])
  {
    if pieces != [] {
      assert (pieces + [p])[1..] == pieces[1..] + [p];
      TokensSnoc(lib, pieces[1..], p);
    }
  }

  lemma {:induction false} NonEmptyMeans(lib: Library, ds: seq<bytes>)
    ensures Concat(NonEmpty(ds)) == Concat(ds) && Counted(lib, NonEmpty(ds)) == Tokens(lib, ds)
  {
    if ds != [] {
      var n := |ds| - 1;
      NonEmptyMeans(lib, ds[..n]);
      assert ds == ds[..n] + [ds[n]];
      TokensSnoc(lib, ds[..n], ds[n]);
      if ds[n] != [] {
        ConcatSnoc(NonEmpty(ds[..n]), ds[n]);
        CountedSnoc(lib, NonEmpty(ds[..n]), ds[n]);
      } else {
        assert NonEmpty(ds) == NonEmpty(ds[..n]);
      }
    }
  }

  /** Main result: line by line, the text gains all pieces a chunk carries, in order, and the count of deltas what they
      are worth to the tokenizer; other lines add nothing. */
  lemma {:induction false} DeltasExactly(lib: Library, lines: seq<bytes>, line: bytes)
    ensures
      var was, now := Deltas(lib, lines), Deltas(lib, lines + [line]);
      && (forall c: Chunk :: Carries(lib, line, c) ==>
            && Concat(now) == Concat(was) + Concat(c.deltas)
            && Counted(lib, now) == Counted(lib, was) + Tokens(lib, c.deltas))
      && ((forall c: Chunk :: !Carries(lib, line, c)) ==> now == was)
      && Deltas(lib, []) == []
  {
    assert (lines + [line])[..|lines|] == lines;
    var c := ChunkOf(lib, line);
    forall d: Chunk ensures Carries(lib, line, d) <==> c == Some(d) {
      CarriesExactly(lib, line, d);
    }
    if c.Some? {
      NonEmptyMeans(lib, c.value.deltas);
      ConcatConcat(Deltas(lib, lines), NonEmpty(c.value.deltas));
      CountedConcat(lib, Deltas(lib, lines), NonEmpty(c.value.deltas));
    }
  }

  /** The client is sent every line, each ended by a newline. */
  lemma {:induction false} EchoExactly(lines: seq<bytes>, line: bytes)
    ensures Echo([]) == [] && Echo(lines + [line]) == Echo(lines) + line + [10]
  {
    assert (lines + [line])[..|lines|] == lines;
    assert Echo(lines) + (line + NEWLINE) == Echo(lines) + line + [10];
  }
}
