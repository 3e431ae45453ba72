/** Capturing a response as it streams through: a capped raw copy, and the assistant text and token counts
    of its server-sent events, taken line by line however the bytes are cut into writes.

    `strings.TrimSpace` and JSON decoding are parameters: an event is what the code reads off a decoded
    line, in the order in which it reads it. */
module SseCapture {
  import opened Basics

  const NEWLINE: byte := 10
  const DATA: bytes := [100, 97, 116, 97, 58]   // data:
  const MAX_BODY: nat := 32 * 1024 * 1024

  datatype Typed =
    | Untyped
    | ContentBlockDelta(text: Option<bytes>)             // the text of a text_delta
    | MessageDelta(output: Option<int>)
    | MessageStart(input: Option<int>, output: Option<int>)

  datatype Event = Event(input: int, output: int, deltas: seq<bytes>, typed: Typed)

  datatype Library = Library(trim: bytes -> bytes, decode: bytes -> Option<Event>)

  // ---------- What one line adds ----------

  datatype Tally = Tally(text: bytes, input: int, output: int)

  const EMPTY: Tally := Tally([], 0, 0)

  lemma {:induction false} ConcatNext(chunks: seq<bytes>, i: nat)
    requires i < |chunks|
    ensures Concat(chunks[..i + 1]) == Concat(chunks[..i]) + chunks[i]
  {
    assert chunks[..i + 1][..i] == chunks[..i];
  }

  /** The larger-than-zero value replaces what was known. */
  function Newer(known: int, read: Option<int>): int {
    if read.Some? && read.value > 0 then read.value else known
  }

  function OnEvent(t: Tally, e: Event): Tally {
    var t1 := Tally(t.text + Concat(e.deltas), Newer(t.input, Some(e.input)), Newer(t.output, Some(e.output)));
    match e.typed
    case Untyped => t1
    case ContentBlockDelta(text) => if text.Some? then t1.(text := t1.text + text.value) else t1
    case MessageDelta(output) => t1.(output := Newer(t1.output, output))
    case MessageStart(input, output) => t1.(input := Newer(t1.input, input), output := Newer(t1.output, output))
  }

  /** The payload of a data line. */
  function Payload(lib: Library, line: bytes): Option<bytes> {
    var l := lib.trim(line);
    if DATA <= l then Some(lib.trim(l[|DATA|..])) else None
  }

  function OnLine(lib: Library, t: Tally, line: bytes): Tally {
    var p := Payload(lib, line);
    if p.None? then t
    else
      var e := lib.decode(p.value);
      if e.None? then t else OnEvent(t, e.value)
  }

  function Fold(lib: Library, t: Tally, lines: seq<bytes>): Tally
    decreases |lines|
  {
    if lines == [] then t else Fold(lib, OnLine(lib, t, lines[0]), lines[1..])
  }

  lemma {:induction false} FoldConcat(lib: Library, t: Tally, a: seq<bytes>, b: seq<bytes>)
    ensures Fold(lib, t, a + b) == Fold(lib, Fold(lib, t, a), b)
    decreases |a|
  {
    if a == [] {
      assert a + b == b;
    } else {
      assert (a + b)[1..] == a[1..] + b;
      FoldConcat(lib, OnLine(lib, t, a[0]), a[1..], b);
    }
  }

  // ---------- What a stream says ----------

  /** The events of a stream's lines: a line that starts with data:, white space aside, and whose rest decodes. */
  function Events(lib: Library, lines: seq<bytes>): seq<Event> {
    if lines == [] then []
    else
      var n := |lines| - 1;
      Events(lib, lines[..n])
        + if Payload(lib, lines[n]).Some? && lib.decode(Payload(lib, lines[n]).value).Some?
          then [lib.decode(Payload(lib, lines[n]).value).value] else []
  }

  /** The line gives this event. */
  ghost predicate Gives(lib: Library, line: bytes, e: Event) {
    exists rest: bytes :: lib.trim(line) == [100, 97, 116, 97, 58] + rest && lib.decode(lib.trim(rest)) == Some(e)
  }

  lemma {:induction false} EventsExactly(lib: Library, lines: seq<bytes>, line: bytes)
    ensures forall e: Event :: Gives(lib, line, e) ==> Events(lib, lines + [line]) == Events(lib, lines) + [e]
    ensures (forall e: Event :: !Gives(lib, line, e)) ==> Events(lib, lines + [line]) == Events(lib, lines)
    ensures Events(lib, []) == []
  {
    assert (lines + [line])[..|lines|] == lines;
    var l := lib.trim(line);
    forall e: Event, rest: bytes | l == [100, 97, 116, 97, 58] + rest && lib.decode(lib.trim(rest)) == Some(e)
      ensures DATA <= l && l[|DATA|..] == rest
    {
    }
    if DATA <= l {
      assert l == [100, 97, 116, 97, 58] + l[|DATA|..];
      if lib.decode(lib.trim(l[|DATA|..])).Some? {
        assert Gives(lib, line, lib.decode(lib.trim(l[|DATA|..])).value);
      }
    }
  }

  /** The input figures of an event in reading order: its own, then that of a message_start. */
  function InputFigures(e: Event): seq<int> {
    match e.typed
    case MessageStart(Some(input), _) => [e.input, input]
    case _ => [e.input]
  }

  /** The output figures: its own, then that of a message_delta or a message_start. */
  function OutputFigures(e: Event): seq<int> {
    match e.typed
    case MessageDelta(Some(output)) => [e.output, output]
    case MessageStart(_, Some(output)) => [e.output, output]
    case _ => [e.output]
  }

  /** The pieces of text: the deltas of the choices, then that of a content block. */
  function Texts(e: Event): seq<bytes> {
    match e.typed
    case ContentBlockDelta(Some(text)) => e.deltas + [text]
    case _ => e.deltas
  }

  function Inputs(es: seq<Event>): seq<int> {
    if es == [] then [] else Inputs(es[..|es| - 1]) + InputFigures(es[|es| - 1])
  }

  function Outputs(es: seq<Event>): seq<int> {
    if es == [] then [] else Outputs(es[..|es| - 1]) + OutputFigures(es[|es| - 1])
  }

  function AllTexts(es: seq<Event>): seq<bytes> {
    if es == [] then [] else AllTexts(es[..|es| - 1]) + Texts(es[|es| - 1])
  }

  /** `n` is the last positive figure, or `known` if there is none. */
  ghost predicate Latest(n: int, known: int, figures: seq<int>) {
    || (n == known && forall i :: 0 <= i < |figures| ==> figures[i] <= 0)
    || (exists k :: 0 <= k < |figures| && n == figures[k] > 0 && forall i :: k < i < |figures| ==> figures[i] <= 0)
  }

  lemma {:induction false} LatestSnoc(n: int, known: int, figures: seq<int>, x: int)
    requires Latest(n, known, figures)
    ensures Latest(if x > 0 then x else n, known, figures + [x])
  {
    var more := figures + [x];
    if x > 0 {
      assert more[|figures|] == x;
    } else if !(n == known && forall i :: 0 <= i < |figures| ==> figures[i] <= 0) {
      var k :| 0 <= k < |figures| && n == figures[k] > 0 && forall i :: k < i < |figures| ==> figures[i] <= 0;
      assert more[k] == n;
    }
  }

  lemma {:induction false} LatestPair(n: int, known: int, figures: seq<int>, x: int, y: int)
    requires Latest(n, known, figures)
    ensures Latest(if y > 0 then y else if x > 0 then x else n, known, figures + [x, y])
  {
    LatestSnoc(n, known, figures, x);
    LatestSnoc(if x > 0 then x else n, known, figures + [x], y);
    assert figures + [x] + [y] == figures + [x, y];
  }

  /** What the events say, added to what was known. */
  ghost predicate Adds(was: Tally, t: Tally, es: seq<Event>) {
    && t.text == was.text + Concat(AllTexts(es))
    && Latest(t.input, was.input, Inputs(es)) && Latest(t.output, was.output, Outputs(es))
  }

  ghost predicate Says(lib: Library, was: Tally, t: Tally, lines: seq<bytes>) {
    Adds(was, t, Events(lib, lines))
  }

  lemma {:induction false} OnEventInput(t: Tally, e: Event, known: int, figures: seq<int>)
    requires Latest(t.input, known, figures)
    ensures Latest(OnEvent(t, e).input, known, figures + InputFigures(e))
  {
    match e.typed
    case MessageStart(Some(input), _) => LatestPair(t.input, known, figures, e.input, input);
    case _ => LatestSnoc(t.input, known, figures, e.input);
  }

  lemma {:induction false} OnEventOutput(t: Tally, e: Event, known: int, figures: seq<int>)
    requires Latest(t.output, known, figures)
    ensures Latest(OnEvent(t, e).output, known, figures + OutputFigures(e))
  {
    match e.typed
    case MessageDelta(Some(output)) => LatestPair(t.output, known, figures, e.output, output);
    case MessageStart(_, Some(output)) => LatestPair(t.output, known, figures, e.output, output);
    case _ => LatestSnoc(t.output, known, figures, e.output);
  }

  lemma {:induction false} OnEventText(t: Tally, e: Event, was: bytes, texts: seq<bytes>)
    requires t.text == was + Concat(texts)
    ensures OnEvent(t, e).text == was + Concat(texts + Texts(e))
  {
    ConcatConcat(texts, Texts(e));
    match e.typed
    case ContentBlockDelta(Some(text)) => ConcatSnoc(e.deltas, text);
    case _ =>
  }

  lemma {:induction false} FoldSnoc(lib: Library, t: Tally, lines: seq<bytes>)
    requires lines != []
    ensures Fold(lib, t, lines) == OnLine(lib, Fold(lib, t, lines[..|lines| - 1]), lines[|lines| - 1])
  {
    var n := |lines| - 1;
    assert lines == lines[..n] + [lines[n]];
    FoldConcat(lib, t, lines[..n], [lines[n]]);
  }

  lemma {:induction false} AddsOne(was: Tally, t: Tally, es: seq<Event>, e: Event, more: seq<Event>)
    requires Adds(was, t, es) && more == es + [e]
    ensures Adds(was, OnEvent(t, e), more)
  {
    OnEventInput(t, e, was.input, Inputs(es));
    OnEventOutput(t, e, was.output, Outputs(es));
    OnEventText(t, e, was.text, AllTexts(es));
    assert more[..|es|] == es;
  }

  lemma {:induction false} OnLineSays(lib: Library, was: Tally, t: Tally, lines: seq<bytes>, line: bytes,
                                      more: seq<bytes>)
    requires Says(lib, was, t, lines) && more == lines + [line]
    ensures Says(lib, was, OnLine(lib, t, line), more)
  {
    assert more[..|lines|] == lines;
    var p := Payload(lib, line);
    if p.Some? && lib.decode(p.value).Some? {
      AddsOne(was, t, Events(lib, lines), lib.decode(p.value).value, Events(lib, more));
    } else {
      assert Events(lib, more) == Events(lib, lines);
    }
  }

  /** Main result: over every list of lines, the text is the pieces of all events in order, and each count the last
      positive of its figures in reading order, or what was known before if there is none. */
  lemma {:induction false} FoldSays(lib: Library, t: Tally, lines: seq<bytes>)
    ensures Says(lib, t, Fold(lib, t, lines), lines)
  {
    if lines == [] {
      assert t.text + Concat([]) == t.text;
    } else {
      var n := |lines| - 1;
      FoldSays(lib, t, lines[..n]);
      FoldSnoc(lib, t, lines);
      OnLineSays(lib, t, Fold(lib, t, lines[..n]), lines[..n], lines[n], lines);
    }
  }

  // ---------- Lines ----------

  /** Where the first newline is, or the length if there is none. */
  function FirstNewline(s: bytes): (i: nat)
    ensures i <= |s|
    ensures NEWLINE !in s[..i]
    ensures i < |s| ==> s[i] == NEWLINE
  {
    if s == [] || s[0] == NEWLINE then 0 else 1 + FirstNewline(s[1..])
  }

  /** The complete lines, each with its newline. */
  function Lines(s: bytes): seq<bytes> {
    if s == [] then []
    else
      var front, c := s[..|s| - 1], s[|s| - 1];
      if c == NEWLINE then Lines(front) + [Rest(front) + [c]] else Lines(front)
  }

  /** What follows the last newline. */
  function Rest(s: bytes): bytes {
    if s == [] || s[|s| - 1] == NEWLINE then [] else Rest(s[..|s| - 1]) + [s[|s| - 1]]
  }

  /** Lines and rest are all of the stream ... */
  lemma {:induction false} Recombine(s: bytes)
    ensures Concat(Lines(s)) + Rest(s) == s
  {
    if s != [] {
      var front, c := s[..|s| - 1], s[|s| - 1];
      Recombine(front);
      assert s == front + [c];
      if c == NEWLINE {
        assert Lines(s)[..|Lines(s)| - 1] == Lines(front);
      }
    }
  }

  /** ... cut after each newline and nowhere else. */
  lemma {:induction false} CutAtNewlines(s: bytes)
    ensures 10 !in Rest(s)
    ensures forall i :: 0 <= i < |Lines(s)| ==> IsLine(Lines(s)[i])
    ensures forall i, j :: 0 <= i < |Lines(s)| && 0 <= j < |Lines(s)[i]| ==>
              (Lines(s)[i][j] == 10 <==> j == |Lines(s)[i]| - 1)
  {
    if s != [] {
      var front, c := s[..|s| - 1], s[|s| - 1];
      CutAtNewlines(front);
      assert (Rest(front) + [c])[..|Rest(front)|] == Rest(front);
    }
  }

  predicate IsLine(line: bytes) {
    line != [] && line[|line| - 1] == NEWLINE && NEWLINE !in line[..|line| - 1]
  }

  lemma {:induction false} TakeSnoc(a: bytes, b: bytes)
    requires b != []
    ensures (a + b)[..|a + b| - 1] == a + b[..|b| - 1] && (a + b)[|a + b| - 1] == b[|b| - 1]
  {
  }

  lemma {:induction false} LinesConcatAt(ab: bytes, rb: bytes, a: bytes, r: bytes, b: bytes)
    requires ab == a + b && rb == r + b && r == Rest(a)
    ensures Lines(ab) == Lines(a) + Lines(rb) && Rest(ab) == Rest(rb)
    decreases |b|
  {
    if b == [] {
      CutAtNewlines(a);
      NoLine(r);
      assert ab == a && rb == r;
    } else {
      TakeSnoc(a, b);
      TakeSnoc(r, b);
      LinesConcatAt(ab[..|ab| - 1], rb[..|rb| - 1], a, r, b[..|b| - 1]);
    }
  }

  /** Lines do not depend on where the stream was cut: what is left of the first part goes before the second. */
  lemma {:induction false} LinesConcat(a: bytes, b: bytes)
    ensures Lines(a + b) == Lines(a) + Lines(Rest(a) + b)
    ensures Rest(a + b) == Rest(Rest(a) + b)
  {
    LinesConcatAt(a + b, Rest(a) + b, a, Rest(a), b);
  }

  lemma {:induction false} NoLine(s: bytes)
    requires NEWLINE !in s
    ensures Lines(s) == [] && Rest(s) == s
  {
    if s != [] {
      NoLine(s[..|s| - 1]);
    }
  }

  /** Taking the first line off the front. */
  lemma {:induction false} TakeLine(line: bytes, after: bytes)
    requires IsLine(line)
    ensures Lines(line + after) == [line] + Lines(after) && Rest(line + after) == Rest(after)
  {
    NoLine(line[..|line| - 1]);
    assert line[..|line| - 1] + [NEWLINE] == line;
    LinesConcat(line, after);
    assert Rest(line) + after == after;
  }

  // ---------- One write ----------

  datatype Capture = Capture(
    sseBuffer: bytes, rawResponse: bytes, tally: Tally, chunkCount: nat,
    isStreaming: bool, contentSize: nat, isTruncated: bool, client: bytes)

  const FIRST: Capture := Capture([], [], EMPTY, 0, false, 0, false, [])

  /** `bytes.Contains(b, "data:")`. */
  predicate ContainsData(b: bytes) {
    exists i :: 0 <= i <= |b| && DataAt(b, i)
  }

  predicate DataAt(b: bytes, i: nat)
    requires i <= |b|
  {
    DATA <= b[i..]
  }

  function Written(lib: Library, c: Capture, b: bytes): Capture {
    var streaming := if c.chunkCount == 0 && |b| > 0 then ContainsData(b) else c.isStreaming;
    var room := if c.contentSize < MAX_BODY then MAX_BODY - c.contentSize else 0;
    var kept := if |b| > room then b[..room] else b;
    var raw := if c.contentSize < MAX_BODY then c.rawResponse + kept else c.rawResponse;
    var size := if c.contentSize < MAX_BODY then c.contentSize + |kept| else c.contentSize;
    var truncated := c.isTruncated || c.contentSize >= MAX_BODY || |b| > room;
    Capture(
      if streaming then Rest(c.sseBuffer + b) else c.sseBuffer,
      raw,
      if streaming then Fold(lib, c.tally, Lines(c.sseBuffer + b)) else c.tally,
      c.chunkCount + 1, streaming, size, truncated, c.client + b)
  }

  class StreamingResponseWriter {
    const lib: Library
    var sseBuffer: bytes
    var rawResponse: bytes
    var assistantText: bytes
    var chunkCount: nat
    var isStreaming: bool
    var contentSize: nat
    var isTruncated: bool
    var inputTokens: int
    var outputTokens: int
    var client: bytes             // what the wrapped writer was given

    function View(): Capture
      reads this
    {
      Capture(sseBuffer, rawResponse, Tally(assistantText, inputTokens, outputTokens),
              chunkCount, isStreaming, contentSize, isTruncated, client)
    }

    constructor (lib: Library)
      ensures View() == FIRST && this.lib == lib
    {
      this.lib := lib;
      sseBuffer, rawResponse, assistantText, client := [], [], [], [];
      chunkCount, contentSize, inputTokens, outputTokens := 0, 0, 0, 0;
      isStreaming, isTruncated := false, false;
    }

    method Write(b: bytes)
      modifies this
      ensures View() == Written(lib, old(View()), b)
    {
      if chunkCount == 0 && |b| > 0 {
        isStreaming := ContainsData(b);
      }
      CaptureRaw(b);
      if isStreaming {
        ParseAndAccumulate(b);
      }
      chunkCount := chunkCount + 1;
      client := client + b;
    }

    /** The raw copy, with its hard cap. */
    method CaptureRaw(b: bytes)
      modifies this`rawResponse, this`contentSize, this`isTruncated
      ensures
        var room := if old(contentSize) < MAX_BODY then MAX_BODY - old(contentSize) else 0;
        var kept := if |b| > room then b[..room] else b;
        && rawResponse == (if old(contentSize) < MAX_BODY then old(rawResponse) + kept else old(rawResponse))
        && contentSize == (if old(contentSize) < MAX_BODY then old(contentSize) + |kept| else old(contentSize))
        && isTruncated == (old(isTruncated) || old(contentSize) >= MAX_BODY || |b| > room)
    {
      if contentSize < MAX_BODY {
        var remaining := MAX_BODY - contentSize;
        var toWrite := b;
        if |toWrite| > remaining {
          toWrite := toWrite[..remaining];
          isTruncated := true;
        }
        rawResponse := rawResponse + toWrite;
        contentSize := contentSize + |toWrite|;
      } else {
        isTruncated := true;
      }
    }

    /** `ReadBytes('\n')`: takes a complete line out of the buffer, or, when there is none, all of it. */
    method ReadLine() returns (line: bytes, complete: bool)
      modifies this`sseBuffer
      ensures line + sseBuffer == old(sseBuffer)
      ensures complete ==> IsLine(line)
      ensures !complete ==> line == old(sseBuffer) && NEWLINE !in line && sseBuffer == []
    {
      var i := FirstNewline(sseBuffer);
      if i == |sseBuffer| {
        line, complete := sseBuffer, false;
        assert sseBuffer[..i] == sseBuffer;
        sseBuffer := [];
      } else {
        line, complete := sseBuffer[..i + 1], true;
        assert line[..|line| - 1] == sseBuffer[..i];
        sseBuffer := sseBuffer[i + 1..];
      }
    }

    /** What the fold comes to is said by FoldSays. */
    method ParseAndAccumulate(data: bytes)
      modifies this`sseBuffer, this`assistantText, this`inputTokens, this`outputTokens
      ensures sseBuffer == Rest(old(sseBuffer) + data)
      ensures Tally(assistantText, inputTokens, outputTokens)
           == Fold(lib, old(Tally(assistantText, inputTokens, outputTokens)), Lines(old(sseBuffer) + data))
    {
      sseBuffer := sseBuffer + data;
      ghost var full := sseBuffer;
      while true
        invariant Rest(sseBuffer) == Rest(full)
        invariant Fold(lib, Tally(assistantText, inputTokens, outputTokens), Lines(sseBuffer))
               == Fold(lib, old(Tally(assistantText, inputTokens, outputTokens)), Lines(full))
        decreases |sseBuffer|
      {
        ghost var before := sseBuffer;
        var line, complete := ReadLine();
        if !complete {
          if |line| > 0 {
            sseBuffer := sseBuffer + line;
          }
          NoLine(line);
          break;
        }
        TakeLine(line, sseBuffer);
        assert ([line] + Lines(sseBuffer))[1..] == Lines(sseBuffer);
        var trimmed := lib.trim(line);
        if !(DATA <= trimmed) {
          continue;
        }
        var payload := lib.trim(trimmed[|DATA|..]);
        var event := lib.decode(payload);
        if event.None? {
          continue;
        }
        Accumulate(event.value);
      }
    }

    method AppendDeltas(deltas: seq<bytes>)
      modifies this`assistantText
      ensures assistantText == old(assistantText) + Concat(deltas)
    {
      for i := 0 to |deltas|
        invariant assistantText == old(assistantText) + Concat(deltas[..i])
      {
        ConcatNext(deltas, i);
        if deltas[i] != [] {
          assistantText := assistantText + deltas[i];
        }
      }
      assert deltas[..|deltas|] == deltas;
    }

    method Accumulate(e: Event)
      modifies this`assistantText, this`inputTokens, this`outputTokens
      ensures Tally(assistantText, inputTokens, outputTokens)
           == OnEvent(old(Tally(assistantText, inputTokens, outputTokens)), e)
    {
      if e.input > 0 {
        inputTokens := e.input;
      }
      if e.output > 0 {
        outputTokens := e.output;
      }
      AppendDeltas(e.deltas);
      match e.typed
      case Untyped =>
      case ContentBlockDelta(text) =>
        if text.Some? {
          assistantText := assistantText + text.value;
        }
      case MessageDelta(output) =>
        if output.Some? && output.value > 0 {
          outputTokens := output.value;
        }
      case MessageStart(input, output) =>
        if input.Some? && input.value > 0 {
          inputTokens := input.value;
        }
        if output.Some? && output.value > 0 {
          outputTokens := output.value;
        }
    }
  }

  // ---------- A whole stream, cut anywhere ----------

  function Stream(lib: Library, chunks: seq<bytes>): Capture {
    if chunks == [] then FIRST
    else Written(lib, Stream(lib, chunks[..|chunks| - 1]), chunks[|chunks| - 1])
  }

  /** Streaming mode is decided by the first write alone, and stays; an empty first write settles it against. */
  lemma {:induction false} ModeIsFirstWrite(lib: Library, chunks: seq<bytes>)
    ensures Stream(lib, chunks).chunkCount == |chunks|
    ensures Stream(lib, chunks).isStreaming <==> chunks != [] && ContainsData(chunks[0])
    ensures chunks != [] ==> (ContainsData(chunks[0]) <==> Within(DATA, chunks[0]))
  {
    if chunks != [] {
      ModeIsFirstWrite(lib, chunks[..|chunks| - 1]);
      ContainsIsWithin(chunks[0]);
    }
  }

  /** The text occurs in `b`, somewhere. */
  ghost predicate Within(text: bytes, b: bytes) {
    exists before: bytes, after: bytes :: b == before + text + after
  }

  lemma {:induction false} ContainsIsWithin(b: bytes)
    ensures ContainsData(b) <==> Within(DATA, b)
  {
    if ContainsData(b) {
      var i :| 0 <= i <= |b| && DataAt(b, i);
      assert b == b[..i] + DATA + b[i + |DATA|..];
    }
    forall before: bytes, after: bytes | b == before + DATA + after ensures ContainsData(b) {
      assert b[|before|..] == DATA + after;
      assert DataAt(b, |before|);
    }
  }

  lemma {:induction false} StreamTally(lib: Library, chunks: seq<bytes>)
    ensures Stream(lib, chunks).client == Concat(chunks)
    ensures
      var c := Stream(lib, chunks);
      if c.isStreaming then c.tally == Fold(lib, EMPTY, Lines(Concat(chunks))) && c.sseBuffer == Rest(Concat(chunks))
      else c.tally == EMPTY && c.sseBuffer == []
  {
    if chunks != [] {
      var front, b := chunks[..|chunks| - 1], chunks[|chunks| - 1];
      StreamTally(lib, front);
      ModeIsFirstWrite(lib, front);
      var c, all := Stream(lib, front), Concat(front);
      if c.isStreaming {
        LinesConcat(all, b);
        FoldConcat(lib, EMPTY, Lines(all), Lines(Rest(all) + b));
      } else if front == [] {
        assert c.sseBuffer + b == b && all + b == b;
      }
    }
  }

  /** Main result: once the first write has set streaming mode, assistant text, token counts and left-over
      buffer are those of folding over the complete lines of the whole stream, so any two ways of cutting
      it agree; and the client gets the stream unchanged. */
  lemma {:induction false} ChunkIndependence(lib: Library, chunks: seq<bytes>, other: seq<bytes>)
    requires chunks != [] && ContainsData(chunks[0]) && other != [] && ContainsData(other[0])
    requires Concat(chunks) == Concat(other)
    ensures Stream(lib, chunks).tally == Stream(lib, other).tally == Fold(lib, EMPTY, Lines(Concat(chunks)))
    ensures Stream(lib, chunks).sseBuffer == Stream(lib, other).sseBuffer == Rest(Concat(chunks))
    ensures Stream(lib, chunks).client == Stream(lib, other).client == Concat(chunks)
    ensures Concat(Lines(Concat(chunks))) + Stream(lib, chunks).sseBuffer == Concat(chunks)
  {
    Recombine(Concat(chunks));
    ModeIsFirstWrite(lib, chunks);
    ModeIsFirstWrite(lib, other);
    StreamTally(lib, chunks);
    StreamTally(lib, other);
  }

  /** Main result: and that is the text of all its events in order, with the last positive figures, or 0. */
  lemma {:induction false} StreamSays(lib: Library, chunks: seq<bytes>)
    requires chunks != [] && ContainsData(chunks[0])
    ensures
      var t, es := Stream(lib, chunks).tally, Events(lib, Lines(Concat(chunks)));
      t.text == Concat(AllTexts(es)) && Latest(t.input, 0, Inputs(es)) && Latest(t.output, 0, Outputs(es))
  {
    ModeIsFirstWrite(lib, chunks);
    StreamTally(lib, chunks);
    FoldSays(lib, EMPTY, Lines(Concat(chunks)));
  }

  /** A cut is faithful, for a stream that has something to count, exactly when the first write shows
      streaming mode; cutting "data:" itself in two, or writing nothing first, loses the whole stream. */
  lemma {:induction false} FaithfulExactlyWhenShown(lib: Library, chunks: seq<bytes>)
    requires Fold(lib, EMPTY, Lines(Concat(chunks))) != EMPTY
    ensures Stream(lib, chunks).tally == Fold(lib, EMPTY, Lines(Concat(chunks)))
       <==> chunks != [] && ContainsData(chunks[0])
  {
    ModeIsFirstWrite(lib, chunks);
    StreamTally(lib, chunks);
  }

  /** An empty write first, and a stream that has something to count is not counted at all. */
  lemma {:induction false} EmptyFirstWrite(lib: Library, s: bytes)
    requires Fold(lib, EMPTY, Lines(s)) != EMPTY
    ensures Concat([[], s]) == s && Stream(lib, [[], s]).tally != Fold(lib, EMPTY, Lines(s))
  {
    var none: bytes := [];
    assert [none, s][..1] == [none] && Concat([none]) == none && none + s == s;
    FaithfulExactlyWhenShown(lib, [none, s]);
  }

  function Min(a: nat, b: nat): nat {
    if a < b then a else b
  }

  /** Was something written, perhaps nothing, when the raw capture was already full? */
  predicate LateWrite(chunks: seq<bytes>) {
    exists i :: 0 <= i < |chunks| && chunks[i] == [] && |Concat(chunks[..i])| >= MAX_BODY
  }

  lemma {:induction false} LateWriteLast(chunks: seq<bytes>)
    requires chunks != []
    ensures LateWrite(chunks) <==>
      || LateWrite(chunks[..|chunks| - 1])
      || (chunks[|chunks| - 1] == [] && |Concat(chunks[..|chunks| - 1])| >= MAX_BODY)
  {
    var front := chunks[..|chunks| - 1];
    forall i | 0 <= i < |front| ensures front[..i] == chunks[..i] {
    }
  }

  /** Main result: the raw capture is the first 32 MB of the stream; it is marked truncated exactly
      when the stream is longer, or an empty write came when the capture was full. */
  lemma {:induction false} RawCapture(lib: Library, chunks: seq<bytes>)
    ensures
      var c, all := Stream(lib, chunks), Concat(chunks);
      && c.rawResponse == all[..Min(|all|, 33_554_432)] && c.contentSize == |c.rawResponse|
      && (c.isTruncated <==> |all| > 33_554_432 || LateWrite(chunks))
  {
    if chunks != [] {
      var front, b := chunks[..|chunks| - 1], chunks[|chunks| - 1];
      RawCapture(lib, front);
      LateWriteLast(chunks);
      var all := Concat(front);
      assert (all + b)[..Min(|all + b|, MAX_BODY)] == Stream(lib, chunks).rawResponse;
    }
  }

  /** With no empty write, the mark says exactly whether the stream outgrew the capture. */
  lemma {:induction false} RawCaptureOfNonEmptyWrites(lib: Library, chunks: seq<bytes>)
    requires forall i :: 0 <= i < |chunks| ==> chunks[i] != []
    ensures Stream(lib, chunks).isTruncated <==> |Concat(chunks)| > 33_554_432
  {
    RawCapture(lib, chunks);
  }
}
