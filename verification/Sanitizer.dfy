/** Making memory entries readable: bytes that are not UTF-8 become question marks, control characters
    become spaces, and everything else stays. */
module Sanitizer {
  import opened Basics
  import opened Utf8

  const QUESTION: byte := 63
  const SPACE: byte := 32

  predicate DisallowedControl(r: int) {
    r !in {9, 10, 13} && (0 <= r < 0x20 || r == 0x7F)
  }

  /** What replaces a decoded character. */
  function Replacement(r: Rune): bytes {
    if r == Rune(RUNE_ERROR, 1) then [QUESTION]
    else if DisallowedControl(r.value) then [SPACE]
    else Encode(r.value)
  }

  function Piece(s: bytes): bytes
    requires s != []
  {
    Replacement(Decode(s))
  }

  /** What the rewriting loop makes of `s`. */
  function Sanitized(s: bytes): bytes
    decreases |s|
  {
    if s == [] then [] else Piece(s) + Sanitized(s[Decode(s).size..])
  }

  /** Readable: well-formed UTF-8 without a disallowed control character. Characters of several bytes have no
      byte below 0x80, so this can be said of bytes. */
  predicate Readable(s: bytes) {
    WellFormed(s) && forall i :: 0 <= i < |s| ==> !DisallowedControl(s[i])
  }

  method NeedsSanitization(content: bytes) returns (needed: bool)
    ensures needed <==> !Readable(content)
    ensures needed <==> Sanitized(content) != content
  {
    FixedExactlyWhenReadable(content);
    var i := 0;
    while i < |content|
      invariant 0 <= i <= |content|
      invariant SoFarReadable(content, i)
      decreases |content| - i
    {
      var r := Decode(content[i..]);
      ReadableAdvance(content, i, r, i + r.size);
      if r.value == RUNE_ERROR && r.size == 1 {
        return true;
      }
      if DisallowedControl(r.value) {
        return true;
      }
      i := i + r.size;
    }
    return false;
  }

  /** Nothing to replace was found before `i`. */
  predicate SoFarReadable(content: bytes, i: nat)
    requires i <= |content|
  {
    Readable(content) <==> Readable(content[i..])
  }

  lemma {:induction false} ReadableAdvance(content: bytes, i: nat, r: Rune, next: nat)
    requires i < |content| && SoFarReadable(content, i) && r == Decode(content[i..]) && next == i + r.size
    ensures r == Rune(RUNE_ERROR, 1) || DisallowedControl(r.value) ==> !Readable(content)
    ensures !(r == Rune(RUNE_ERROR, 1) || DisallowedControl(r.value)) ==> SoFarReadable(content, next)
  {
    ReadableStep(content[i..]);
    assert content[i..][r.size..] == content[next..];
  }

  method SanitizeMemoryContent(content: bytes) returns (out: bytes)
    ensures out == Sanitized(content)
  {
    if content == [] {
      return [];
    }
    var needed := NeedsSanitization(content);
    if !needed {
      return content;
    }
    out := [];
    var i := 0;
    while i < |content|
      invariant 0 <= i <= |content|
      invariant Partly(content, i, out)
      decreases |content| - i
    {
      var r := Decode(content[i..]);
      ghost var start, before := i, out;
      if r.value == RUNE_ERROR && r.size == 1 {
        out := out + [QUESTION];
        i := i + 1;
      } else if DisallowedControl(r.value) {
        out := out + [SPACE];
        i := i + r.size;
      } else {
        out := out + Encode(r.value);
        i := i + r.size;
      }
      Advance(content, start, before, r, i, out);
    }
    Finished(content, out);
  }

  /** `out` is what the loop has written when it stands at `i`. */
  predicate Partly(content: bytes, i: nat, out: bytes)
    requires i <= |content|
  {
    out + Sanitized(content[i..]) == Sanitized(content)
  }

  lemma {:induction false} Finished(content: bytes, out: bytes)
    requires Partly(content, |content|, out)
    ensures out == Sanitized(content)
  {
    assert content[|content|..] == [];
  }

  lemma {:induction false} Advance(content: bytes, i: nat, out: bytes, r: Rune, next: nat, longer: bytes)
    requires i < |content| && Partly(content, i, out) && r == Decode(content[i..])
    requires next == i + r.size && longer == out + Replacement(r)
    ensures Partly(content, next, longer)
  {
    var rest := content[i..];
    assert rest[r.size..] == content[next..];
    Rebracket(out, Replacement(r), Sanitized(content[next..]), longer, Sanitized(rest));
  }

  lemma {:induction false} Rebracket(a: bytes, b: bytes, c: bytes, ab: bytes, bc: bytes)
    requires ab == a + b && bc == b + c
    ensures ab + c == a + bc
  {
  }

  // ---------- One character ----------

  lemma {:induction false} CharBytes(c: bytes)
    requires Utf8Char(c)
    ensures |c| > 1 ==> forall i :: 0 <= i < |c| ==> c[i] >= 0x80
    ensures Decode(c) == Rune(Decode(c).value, |c|) && !Invalid(c)
    ensures |c| == 1 ==> Decode(c).value == c[0]
    ensures |c| > 1 ==> Decode(c).value >= 0x80
  {
    assert c[..|c|] == c;
    DecodeIsGrammar(c, |c|);
  }

  lemma {:induction false} DecodePrefix(s: bytes)
    requires s != [] && !Invalid(s)
    ensures Utf8Char(s[..Decode(s).size]) && Decode(s[..Decode(s).size]).value == Decode(s).value
  {
    DecodeIsGrammar(s, Decode(s).size);
  }

  /** Readable, character by character. */
  lemma {:induction false} ReadableStep(s: bytes)
    requires s != []
    ensures Readable(s) <==> !Invalid(s) && !DisallowedControl(Decode(s).value) && Readable(s[Decode(s).size..])
  {
    WellFormedStep(s);
    var n := Decode(s).size;
    if !Invalid(s) {
      DecodePrefix(s);
      CharBytes(s[..n]);
      assert forall i :: n <= i < |s| ==> s[i] == s[n..][i - n];
      assert forall i :: 0 <= i < n ==> s[i] == s[..n][i];
    }
  }

  // ---------- What the loop guarantees ----------

  /** The replacement is as long as what it replaces, and readable. */
  lemma {:induction false} PieceReadable(s: bytes)
    requires s != []
    ensures |Piece(s)| == Decode(s).size && Utf8Char(Piece(s)) && !DisallowedControl(Decode(Piece(s)).value)
    ensures Piece(s) == s[..Decode(s).size]
         || (Piece(s) == [QUESTION] && s[0] >= 0x80)
         || (Piece(s) == [SPACE] && DisallowedControl(s[0]))
  {
    if !Invalid(s) {
      DecodePrefix(s);
      CharBytes(s[..Decode(s).size]);
      EncodeDecode(s);
    }
  }

  /** Main result: the output is readable and exactly as long as the input. */
  lemma {:induction false} SanitizedReadable(s: bytes)
    ensures Readable(Sanitized(s)) && |Sanitized(s)| == |s|
    decreases |s|
  {
    if s != [] {
      var rest := s[Decode(s).size..];
      SanitizedReadable(rest);
      PieceReadable(s);
      ReadablePrepend(Piece(s), Sanitized(rest));
    }
  }

  /** Main result: a byte is replaced only where it was 0x80 or more, by a question mark, or a disallowed
      control character, by a space; all others stay in place. */
  lemma {:induction false} SanitizedKeeps(s: bytes, i: nat)
    requires i < |s|
    ensures |Sanitized(s)| == |s|
    ensures Sanitized(s)[i] == s[i]
         || (Sanitized(s)[i] == QUESTION && s[i] >= 0x80)
         || (Sanitized(s)[i] == SPACE && DisallowedControl(s[i]))
    decreases |s|
  {
    SanitizedReadable(s);
    PieceReadable(s);
    var n := Decode(s).size;
    var p, q := Piece(s), Sanitized(s[n..]);
    IndexConcat(p, q, p + q, i);
    if i >= n {
      SanitizedKeeps(s[n..], i - n);
      assert s[n..][i - n] == s[i];
    } else {
      assert s[..n][i] == s[i];
    }
  }

  /** The control characters that are replaced: all but tab, newline and carriage return. */
  predicate Replaced(b: int) {
    0 <= b <= 8 || b == 11 || b == 12 || 14 <= b <= 31 || b == 127
  }

  lemma {:induction false} ReplacedExactly(r: int)
    ensures DisallowedControl(r) <==> Replaced(r)
  {
  }

  lemma {:induction false} WellFormedIsReadable(s: bytes, i: nat)
    requires Readable(s) && i < |s|
    ensures !Replaced(s[i])
  {
    ReplacedExactly(s[i]);
  }

  /** Main result: every byte below 0x80 comes out as a space if it is a control character but tab, newline or carriage
      return, and as itself if not, whatever surrounds it; any other byte as itself or as a question mark. */
  lemma {:induction false} BytesExactly(s: bytes, i: nat)
    requires i < |s|
    ensures |Sanitized(s)| == |s|
    ensures s[i] < 0x80 ==> Sanitized(s)[i] == if Replaced(s[i]) then 32 else s[i]
    ensures s[i] >= 0x80 ==> Sanitized(s)[i] in {s[i], 63}
  {
    SanitizedReadable(s);
    SanitizedKeeps(s, i);
    WellFormedIsReadable(Sanitized(s), i);
    ReplacedExactly(s[i]);
  }

  lemma {:induction false} IndexConcat(p: bytes, q: bytes, pq: bytes, i: nat)
    requires pq == p + q && i < |pq|
    ensures pq[i] == if i < |p| then p[i] else q[i - |p|]
  {
  }

  /** No character straddles a boundary after which a character starts. */
  lemma {:induction false} DecodeBefore(u: bytes, v: bytes, uv: bytes)
    requires uv == u + v && u != [] && (v == [] || !Tail(v[0]))
    ensures Decode(uv) == Decode(u)
  {
    if !Invalid(u) {
      DecodePrefix(u);
      assert uv[..Decode(u).size] == u[..Decode(u).size];
    } else if !Invalid(uv) {
      DecodePrefix(uv);
    }
  }

  lemma {:induction false} SanitizedSplit(u: bytes, v: bytes, uv: bytes)
    requires uv == u + v && (v == [] || !Tail(v[0]))
    ensures Sanitized(uv) == Sanitized(u) + Sanitized(v)
    decreases |u|
  {
    if u == [] {
      assert uv == v;
    } else {
      DecodeBefore(u, v, uv);
      var n := Decode(u).size;
      assert uv[n..] == u[n..] + v;
      SanitizedSplit(u[n..], v, uv[n..]);
      Rebracket(Piece(u), Sanitized(u[n..]), Sanitized(v), Sanitized(u), Sanitized(uv[n..]));
    }
  }

  /** The first character of a readable text, with something behind it. */
  lemma {:induction false} FirstSurvives(w: bytes, v: bytes, n: nat, wv: bytes)
    requires wv == w + v && Readable(w) && w != [] && n == Decode(w).size
    ensures 1 <= n <= |w| && Readable(w[n..]) && wv[n..] == w[n..] + v
    ensures Decode(wv) == Decode(w) && Replacement(Decode(w)) == w[..n]
  {
    ReadableStep(w);
    PieceFixed(w);
    DecodePrefix(w);
    assert wv == w[..n] + (w[n..] + v);
    DecodeLonger(w[..n], w[n..] + v);
    assert w == w[..n] + w[n..];
    DecodeLonger(w[..n], w[n..]);
  }

  /** After readable text decoding is at a character boundary, whatever follows. */
  lemma {:induction false} SanitizedAfterReadable(w: bytes, v: bytes, wv: bytes)
    requires wv == w + v && Readable(w)
    ensures Sanitized(wv) == w + Sanitized(v)
    decreases |w|
  {
    if w == [] {
      assert wv == v;
    } else {
      var n := Decode(w).size;
      FirstSurvives(w, v, n, wv);
      SanitizedAfterReadable(w[n..], v, wv[n..]);
      Rejoin(w, n, Sanitized(v), Sanitized(wv[n..]));
    }
  }

  lemma {:induction false} Rejoin(w: bytes, n: nat, v: bytes, tail: bytes)
    requires n <= |w| && tail == w[n..] + v
    ensures w[..n] + tail == w + v
  {
  }

  lemma {:induction false} ReadableStarts(w: bytes)
    requires Readable(w) && w != []
    ensures !Tail(w[0])
  {
    ReadableStep(w);
    DecodePrefix(w);
  }

  /** Main result: every readable stretch survives, wherever it stands and whatever stands around it. */
  lemma {:induction false} ReadablePartsSurvive(u: bytes, w: bytes, v: bytes)
    requires Readable(w) && w != []
    ensures Sanitized(u + (w + v)) == Sanitized(u) + (w + Sanitized(v))
  {
    ReadableStarts(w);
    SanitizedSplit(u, w + v, u + (w + v));
    SanitizedAfterReadable(w, v, w + v);
  }

  lemma {:induction false} ReadablePrepend(c: bytes, s: bytes)
    requires Utf8Char(c) && !DisallowedControl(Decode(c).value) && Readable(s)
    ensures Readable(c + s)
  {
    CharBytes(c);
    DecodeLonger(c, s);
    assert (c + s)[|c|..] == s;
    ReadableStep(c + s);
  }

  lemma {:induction false} DecodeLonger(c: bytes, s: bytes)
    requires Utf8Char(c)
    ensures Decode(c + s) == Decode(c) && !Invalid(c + s)
  {
    assert (c + s)[..|c|] == c;
    DecodeIsGrammar(c + s, |c|);
  }

  /** Main result: the loop returns its input unchanged exactly when the input is readable, so the fast path,
      which looks for the first character to replace, skips the loop exactly when it can. */
  lemma {:induction false} FixedExactlyWhenReadable(s: bytes)
    ensures Sanitized(s) == s <==> Readable(s)
    decreases |s|
  {
    if s != [] {
      var n := Decode(s).size;
      FixedExactlyWhenReadable(s[n..]);
      ReadableStep(s);
      PieceReadable(s);
      SanitizedReadable(s[n..]);
      PieceFixed(s);
      SplitEqual(s, n, Piece(s), Sanitized(s[n..]));
    }
  }

  lemma {:induction false} SplitEqual(s: bytes, n: nat, p: bytes, q: bytes)
    requires |p| == n <= |s|
    ensures p + q == s <==> p == s[..n] && q == s[n..]
  {
    assert (p + q)[..n] == p && (p + q)[n..] == q;
    assert s == s[..n] + s[n..];
  }

  lemma {:induction false} PieceFixed(s: bytes)
    requires s != []
    ensures Piece(s) == s[..Decode(s).size] <==> !Invalid(s) && !DisallowedControl(Decode(s).value)
  {
    if !Invalid(s) {
      EncodeDecode(s);
      DecodePrefix(s);
      CharBytes(s[..Decode(s).size]);
    }
  }

  /** Main result: sanitizing twice is sanitizing once. */
  lemma {:induction false} SanitizeTwice(s: bytes)
    ensures Sanitized(Sanitized(s)) == Sanitized(s)
  {
    SanitizedReadable(s);
    FixedExactlyWhenReadable(Sanitized(s));
  }
}
