/** UTF-8 as in sections 3 and 4 of RFC 3629: the grammar of well-formed byte sequences, the encoder, and
    the decoder with Go's convention that an invalid byte decodes to U+FFFD with size 1. */
module Utf8 {
  import opened Basics

  const RUNE_ERROR: int := 0xFFFD

  predicate Tail(b: byte) { 0x80 <= b <= 0xBF }

  /** One character, by the grammar of section 4. */
  predicate Utf8Char(c: bytes) {
    || (|c| == 1 && c[0] <= 0x7F)
    || (|c| == 2 && 0xC2 <= c[0] <= 0xDF && Tail(c[1]))
    || (|c| == 3 && Tail(c[2])
        && (|| (c[0] == 0xE0 && 0xA0 <= c[1] <= 0xBF)
            || (0xE1 <= c[0] <= 0xEC && Tail(c[1]))
            || (c[0] == 0xED && 0x80 <= c[1] <= 0x9F)
            || (0xEE <= c[0] <= 0xEF && Tail(c[1]))))
    || (|c| == 4 && Tail(c[2]) && Tail(c[3])
        && (|| (c[0] == 0xF0 && 0x90 <= c[1] <= 0xBF)
            || (0xF1 <= c[0] <= 0xF3 && Tail(c[1]))
            || (c[0] == 0xF4 && 0x80 <= c[1] <= 0x8F)))
  }

  /** A string of characters. */
  predicate WellFormed(s: bytes)
    decreases |s|
  {
    s == [] || exists n :: 1 <= n <= 4 && n <= |s| && Utf8Char(s[..n]) && WellFormed(s[n..])
  }

  /** A code point that is not a surrogate. */
  predicate Scalar(r: int) {
    0 <= r <= 0xD7FF || 0xE000 <= r <= 0x10FFFF
  }

  /** Section 3: one to four octets; what is not a scalar value is written as U+FFFD. */
  function Encode(r: int): bytes {
    if 0 <= r <= 0x7F then [r]
    else if 0x80 <= r <= 0x7FF then [0xC0 + r / 64, 0x80 + r % 64]
    else if !Scalar(r) then [0xEF, 0xBF, 0xBD]
    else if r <= 0xFFFF then [0xE0 + r / 4096, 0x80 + r / 64 % 64, 0x80 + r % 64]
    else [0xF0 + r / 262144, 0x80 + r / 4096 % 64, 0x80 + r / 64 % 64, 0x80 + r % 64]
  }

  datatype Rune = Rune(value: int, size: nat)

  /** A byte without its marker bits. */
  function Bits(b: byte, marker: int): int {
    b as int - marker
  }

  /** `utf8.DecodeRuneInString`: the first byte fixes the length and the range of the second. */
  function Decode(s: bytes): (r: Rune)
    ensures r.size <= |s| && (s != [] ==> r.size >= 1)
  {
    if s == [] then Rune(RUNE_ERROR, 0)
    else
      var b0 := s[0];
      if b0 <= 0x7F then Rune(b0, 1)
      else if b0 < 0xC2 || b0 > 0xF4 then Rune(RUNE_ERROR, 1)
      else
        var size := if b0 <= 0xDF then 2 else if b0 <= 0xEF then 3 else 4;
        var lo := if b0 == 0xE0 then 0xA0 else if b0 == 0xF0 then 0x90 else 0x80;
        var hi := if b0 == 0xED then 0x9F else if b0 == 0xF4 then 0x8F else 0xBF;
        if |s| < size || !(lo <= s[1] <= hi) then Rune(RUNE_ERROR, 1)
        else if size == 2 then Rune(Bits(b0, 0xC0) * 64 + Bits(s[1], 0x80), 2)
        else if !Tail(s[2]) then Rune(RUNE_ERROR, 1)
        else if size == 3 then Rune(Bits(b0, 0xE0) * 4096 + Bits(s[1], 0x80) * 64 + Bits(s[2], 0x80), 3)
        else if !Tail(s[3]) then Rune(RUNE_ERROR, 1)
        else Rune(Bits(b0, 0xF0) * 262144 + Bits(s[1], 0x80) * 4096 + Bits(s[2], 0x80) * 64 + Bits(s[3], 0x80), 4)
  }

  predicate Invalid(s: bytes) {
    Decode(s) == Rune(RUNE_ERROR, 1)
  }

  /** The decoder accepts exactly the characters of the grammar, at their length. */
  lemma {:induction false} DecodeIsGrammar(s: bytes, n: nat)
    requires s != [] && n <= |s|
    ensures Utf8Char(s[..n]) <==> !Invalid(s) && Decode(s).size == n
  {
  }

  /** What was decoded encodes back to the very bytes it was decoded from. */
  lemma {:induction false} EncodeDecode(s: bytes)
    requires s != [] && !Invalid(s)
    ensures Scalar(Decode(s).value) && Encode(Decode(s).value) == s[..Decode(s).size]
  {
    var r := Decode(s);
    match r.size
    case 1 =>
    case 2 => Digits2(Bits(s[0], 0xC0), Bits(s[1], 0x80));
    case 3 => Digits3(Bits(s[0], 0xE0), Bits(s[1], 0x80), Bits(s[2], 0x80));
    case _ => Digits4(Bits(s[0], 0xF0), Bits(s[1], 0x80), Bits(s[2], 0x80), Bits(s[3], 0x80));
  }

  lemma {:induction false} Digits2(a: int, b: int)
    requires 0 <= b < 64
    ensures (a * 64 + b) / 64 == a && (a * 64 + b) % 64 == b
  {
  }

  lemma {:induction false} Digits3(a: int, b: int, c: int)
    requires 0 <= b < 64 && 0 <= c < 64
    ensures var v := a * 4096 + b * 64 + c; v / 4096 == a && v / 64 % 64 == b && v % 64 == c
  {
    Digits2(a * 64 + b, c);
  }

  lemma {:induction false} Digits4(a: int, b: int, c: int, d: int)
    requires 0 <= b < 64 && 0 <= c < 64 && 0 <= d < 64
    ensures
      var v := a * 262144 + b * 4096 + c * 64 + d;
      v / 262144 == a && v / 4096 % 64 == b && v / 64 % 64 == c && v % 64 == d
  {
    Digits3(a * 64 + b, c, d);
  }

  lemma {:induction false} Recompose(r: int)
    requires r >= 0
    ensures r == r / 4096 * 4096 + r / 64 % 64 * 64 + r % 64
    ensures r / 4096 == r / 262144 * 64 + r / 4096 % 64
  {
    assert r / 64 / 64 == r / 4096 && r / 4096 / 64 == r / 262144;
  }

  lemma {:induction false} DecodeThree(r: int, s: bytes)
    requires Scalar(r) && 0x800 <= r <= 0xFFFF && |s| >= 3
    requires s[0] == 0xE0 + r / 4096 && s[1] == 0x80 + r / 64 % 64 && s[2] == 0x80 + r % 64
    ensures Decode(s) == Rune(r, 3)
  {
    Recompose(r);
  }

  lemma {:induction false} DecodeFour(r: int, s: bytes)
    requires 0x10000 <= r <= 0x10FFFF && |s| >= 4
    requires s[0] == 0xF0 + r / 262144 && s[1] == 0x80 + r / 4096 % 64 && s[2] == 0x80 + r / 64 % 64 && s[3] == 0x80 + r % 64
    ensures Decode(s) == Rune(r, 4)
  {
    Recompose(r);
  }

  /** What was encoded decodes to the scalar value it was encoded from, whatever follows. */
  lemma {:induction false} DecodeEncode(r: int, rest: bytes)
    requires Scalar(r)
    ensures Decode(Encode(r) + rest) == Rune(r, |Encode(r)|) && Utf8Char(Encode(r))
  {
    var e := Encode(r);
    var s := e + rest;
    if r > 0xFFFF {
      DecodeFour(r, s);
    } else if r > 0x7FF {
      DecodeThree(r, s);
    }
    assert s[..|e|] == e;
    DecodeIsGrammar(s, |e|);
    assert r == RUNE_ERROR ==> |e| == 3;
  }

  /** Character by character, as the decoder goes. */
  lemma {:induction false} WellFormedStep(s: bytes)
    requires s != []
    ensures WellFormed(s) <==> !Invalid(s) && WellFormed(s[Decode(s).size..])
  {
    var n := Decode(s).size;
    if !Invalid(s) {
      DecodeIsGrammar(s, n);
    }
    forall k | 1 <= k <= 4 && k <= |s| && Utf8Char(s[..k]) ensures k == n && !Invalid(s) {
      DecodeIsGrammar(s, k);
    }
  }
}
