/** UTF-8 as both scanners read it: the well-formed sequences of section 4 of RFC 3629, Go's
    `utf8.DecodeRune`, and Python's `bytes.decode("utf-8", errors="surrogateescape")`. */
module Utf8 {

  type Byte = b: int | 0 <= b < 256

  const INVALID := -2          // an invalid byte in either scanner
  const RUNE_ERROR := 0xFFFD

  predicate Tail(s: seq<Byte>, i: nat) { i < |s| && 0x80 <= s[i] <= 0xBF }

  /** The second byte of a three- or four-byte sequence has a narrower range for some leads. */
  predicate SecondOk(s: seq<Byte>)
    requires s != [] && 0xE0 <= s[0] <= 0xF4
  {
    && Tail(s, 1)
    && (s[0] == 0xE0 ==> s[1] >= 0xA0)
    && (s[0] == 0xED ==> s[1] <= 0x9F)
    && (s[0] == 0xF0 ==> s[1] >= 0x90)
    && (s[0] == 0xF4 ==> s[1] <= 0x8F)
  }

  /** The length of the well-formed sequence s starts with, 0 if there is none. */
  function Width(s: seq<Byte>): (w: nat)
    ensures w <= |s| && w <= 4
  {
    if s == [] then 0
    else if s[0] < 0x80 then 1
    else if 0xC2 <= s[0] <= 0xDF then if Tail(s, 1) then 2 else 0
    else if 0xE0 <= s[0] <= 0xEF then if SecondOk(s) && Tail(s, 2) then 3 else 0
    else if 0xF0 <= s[0] <= 0xF4 then if SecondOk(s) && Tail(s, 2) && Tail(s, 3) then 4 else 0
    else 0
  }

  /** The code point of that sequence. It is never a surrogate. */
  function Scalar(s: seq<Byte>): (cp: int)
    requires Width(s) > 0
    ensures 0 <= cp < 0xD800 || 0xE000 <= cp <= 0x10FFFF
    ensures cp < 0x80 <==> s[0] < 0x80
    ensures s[0] < 0x80 ==> cp == s[0]
  {
    match Width(s)
    case 1 => s[0]
    case 2 => Bits(s, 0, 0xC0) * 64 + Bits(s, 1, 0x80)
    case 3 => Bits(s, 0, 0xE0) * 4096 + Bits(s, 1, 0x80) * 64 + Bits(s, 2, 0x80)
    case _ => Bits(s, 0, 0xF0) * 262144 + Bits(s, 1, 0x80) * 4096 + Bits(s, 2, 0x80) * 64 + Bits(s, 3, 0x80)
  }

  /** The payload bits of byte i: what is left of it above its marker. */
  function Bits(s: seq<Byte>, i: nat, marker: int): int
    requires i < |s|
  {
    s[i] as int - marker
  }

  /** The runes of a text: one per well-formed sequence, INVALID for every other byte. */
  function Runes(s: seq<Byte>): (r: seq<int>)
    ensures s == [] <==> r == []
    ensures forall i | 0 <= i < |r| :: r[i] == INVALID || 0 <= r[i] < 0xD800 || 0xE000 <= r[i] <= 0x10FFFF
  {
    if s == [] then []
    else if Width(s) == 0 then [INVALID] + Runes(s[1..])
    else [Scalar(s)] + Runes(s[Width(s)..])
  }

  predicate Valid(s: seq<Byte>) { INVALID !in Runes(s) }

  /** Go's DecodeRune: (RuneError, 0) at the end, (RuneError, 1) for an invalid byte. */
  function DecodeRune(s: seq<Byte>): (r: (int, nat))
    ensures r.1 <= |s| && (s != [] ==> r.1 > 0)
  {
    if s == [] then (RUNE_ERROR, 0)
    else if Width(s) == 0 then (RUNE_ERROR, 1)
    else (Scalar(s), Width(s))
  }

  /** A genuine U+FFFD is three bytes wide, so a width of 1 tells the two apart. */
  lemma DecodeRuneIsFirstRune(s: seq<Byte>)
    requires s != []
    ensures var (r, w) := DecodeRune(s);
            Runes(s) == [if r == RUNE_ERROR && w == 1 then INVALID else r] + Runes(s[w..])
  {
  }

  /** Python decodes with an error range: the longest prefix of s that starts some well-formed
      sequence, at least one byte. `surrogateescape` turns each byte of it into U+DC00 + byte. */
  function ErrorLength(s: seq<Byte>): (n: nat)
    requires s != [] && Width(s) == 0
    ensures 1 <= n <= |s|
  {
    if 0xE0 <= s[0] <= 0xF4 && SecondOk(s) then
      if s[0] >= 0xF0 && Tail(s, 2) then 3 else 2
    else 1
  }

  function Escaped(s: seq<Byte>): (r: seq<int>)
    ensures |r| == |s| && forall i | 0 <= i < |s| :: r[i] == 0xDC00 + s[i] as int
  {
    seq(|s|, i requires 0 <= i < |s| => 0xDC00 + s[i] as int)
  }

  function SurrogateEscape(s: seq<Byte>): (r: seq<int>) {
    if s == [] then []
    else if Width(s) == 0 then
      var n := ErrorLength(s);
      Escaped(s[..n]) + SurrogateEscape(s[n..])
    else [Scalar(s)] + SurrogateEscape(s[Width(s)..])
  }

  function Unescape(o: int): int { if 0xDC80 <= o <= 0xDCFF then INVALID else o }

  function UnescapeAll(s: seq<int>): (r: seq<int>)
    ensures |r| == |s| && forall i | 0 <= i < |s| :: r[i] == Unescape(s[i])
  {
    seq(|s|, i requires 0 <= i < |s| => Unescape(s[i]))
  }

  /** No byte of an error range starts a sequence of its own. */
  lemma {:induction false} ErrorRangeIsInvalid(s: seq<Byte>)
    requires s != [] && Width(s) == 0
    ensures forall i | 0 <= i < ErrorLength(s) :: 0x80 <= s[i]
    ensures Runes(s) == seq(ErrorLength(s), i => INVALID) + Runes(s[ErrorLength(s)..])
  {
    var n := ErrorLength(s);
    InvalidByte(s);
    if n >= 2 {
      assert s[1..][1..] == s[2..];
      InvalidByte(s[1..]);
      assert Runes(s) == [INVALID, INVALID] + Runes(s[2..]);
      if n == 3 {
        assert s[2..][1..] == s[3..];
        InvalidByte(s[2..]);
        assert Runes(s) == [INVALID, INVALID, INVALID] + Runes(s[3..]);
      }
    }
  }

  lemma InvalidByte(s: seq<Byte>)
    requires s != [] && Width(s) == 0
    ensures Runes(s) == [INVALID] + Runes(s[1..])
  {
  }

  lemma UnescapeConcat(a: seq<int>, b: seq<int>)
    ensures UnescapeAll(a + b) == UnescapeAll(a) + UnescapeAll(b)
  {
  }

  /** Decoding a whole error range at once and decoding byte by byte give the same runes, and
      no genuine character is mistaken for an escaped byte. */
  lemma {:induction false} PythonDecodesTheSameRunes(s: seq<Byte>)
    ensures UnescapeAll(SurrogateEscape(s)) == Runes(s)
  {
    if s == [] {
    } else if Width(s) == 0 {
      var n := ErrorLength(s);
      ErrorRangeIsInvalid(s);
      PythonDecodesTheSameRunes(s[n..]);
      var head := Escaped(s[..n]);
      assert UnescapeAll(head) == seq(n, i => INVALID);
      UnescapeConcat(head, SurrogateEscape(s[n..]));
    } else {
      PythonDecodesTheSameRunes(s[Width(s)..]);
      assert UnescapeAll([Scalar(s)]) == [Scalar(s)];
      UnescapeConcat([Scalar(s)], SurrogateEscape(s[Width(s)..]));
    }
  }
}
