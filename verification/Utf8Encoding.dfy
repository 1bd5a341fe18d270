/** Decoding against the encoding of section 3 of RFC 3629: a byte sequence is well formed iff it is the
    encoding of a scalar value, and decoding undoes encoding. */
module Utf8Encoding {
  import opened Utf8

  predicate IsScalar(cp: int) { 0 <= cp < 0xD800 || 0xE000 <= cp <= 0x10FFFF }

  /** The marker bits and the payload of each byte. */
  function Encoded(cp: int): (s: seq<Byte>)
    requires IsScalar(cp)
    ensures 1 <= |s| <= 4
  {
    if cp < 0x80 then [cp]
    else if cp < 0x800 then [0xC0 + cp / 0x40, 0x80 + cp % 0x40]
    else if cp < 0x10000 then [0xE0 + cp / 0x1000, 0x80 + cp / 0x40 % 0x40, 0x80 + cp % 0x40]
    else [0xF0 + cp / 0x40000, 0x80 + cp / 0x1000 % 0x40, 0x80 + cp / 0x40 % 0x40, 0x80 + cp % 0x40]
  }

  function EncodedAll(cps: seq<int>): seq<Byte>
    requires forall cp | cp in cps :: IsScalar(cp)
  {
    if cps == [] then [] else Encoded(cps[0]) + EncodedAll(cps[1..])
  }

  predicate StartsWith(s: seq<Byte>, p: seq<Byte>) { |p| <= |s| && s[..|p|] == p }

  /** Whatever follows, an encoding is read back as its scalar value. */
  lemma EncodedIsRead(cp: int, s: seq<Byte>)
    requires IsScalar(cp) && StartsWith(s, Encoded(cp))
    ensures Width(s) == |Encoded(cp)| && Scalar(s) == cp
  {
    var e := Encoded(cp);
    assert forall i | 0 <= i < |e| :: s[i] == s[..|e|][i];
    if 0x80 <= cp < 0x800 { TwoAreRead(cp, s); }
    else if 0x800 <= cp < 0x10000 { ThreeAreRead(cp, s); }
    else if 0x10000 <= cp { FourAreRead(cp, s); }
  }

  lemma TwoAreRead(cp: int, s: seq<Byte>)
    requires 0x80 <= cp < 0x800 && |s| >= 2 && s[0] == 0xC0 + cp / 0x40 && s[1] == 0x80 + cp % 0x40
    ensures Width(s) == 2 && Scalar(s) == cp
  {
  }

  lemma ThreeAreRead(cp: int, s: seq<Byte>)
    requires IsScalar(cp) && 0x800 <= cp < 0x10000 && |s| >= 3
    requires s[0] == 0xE0 + cp / 0x1000 && s[1] == 0x80 + cp / 0x40 % 0x40 && s[2] == 0x80 + cp % 0x40
    ensures Width(s) == 3 && Scalar(s) == cp
  {
    var high := cp / 0x40;
    assert high / 0x40 == cp / 0x1000;
    assert cp == high * 64 + cp % 64 && high == high / 64 * 64 + high % 64;
  }

  lemma FourAreRead(cp: int, s: seq<Byte>)
    requires 0x10000 <= cp <= 0x10FFFF && |s| >= 4
    requires s[0] == 0xF0 + cp / 0x40000 && s[1] == 0x80 + cp / 0x1000 % 0x40
    requires s[2] == 0x80 + cp / 0x40 % 0x40 && s[3] == 0x80 + cp % 0x40
    ensures Width(s) == 4 && Scalar(s) == cp
  {
    var high := cp / 0x40;
    var top := high / 0x40;
    assert top == cp / 0x1000 && top / 0x40 == cp / 0x40000;
    assert cp == high * 64 + cp % 64 && high == top * 64 + high % 64 && top == top / 64 * 64 + top % 64;
  }

  /** And what is read is the encoding of the value it is read as. */
  lemma ReadIsEncoded(s: seq<Byte>)
    requires Width(s) > 0
    ensures Encoded(Scalar(s)) == s[..Width(s)]
  {
    match Width(s) {
      case 1 =>
      case 2 => TwoBytes(s[0], s[1]);
      case 3 => ThreeBytes(s[0], s[1], s[2]);
      case _ => FourBytes(s[0], s[1], s[2], s[3]);
    }
  }

  lemma TwoBytes(a: int, b: int)
    requires 0xC2 <= a <= 0xDF && 0x80 <= b <= 0xBF
    ensures var cp := (a - 0xC0) * 64 + (b - 0x80); 0x80 <= cp < 0x800 && cp / 0x40 == a - 0xC0 && cp % 0x40 == b - 0x80
  {
  }

  lemma ThreeBytes(a: int, b: int, c: int)
    requires 0xE0 <= a <= 0xEF && 0x80 <= b <= 0xBF && 0x80 <= c <= 0xBF
    ensures var cp := (a - 0xE0) * 4096 + (b - 0x80) * 64 + (c - 0x80);
            cp / 0x1000 == a - 0xE0 && cp / 0x40 % 0x40 == b - 0x80 && cp % 0x40 == c - 0x80
  {
    var cp := (a - 0xE0) * 4096 + (b - 0x80) * 64 + (c - 0x80);
    assert cp / 0x40 == (a - 0xE0) * 64 + (b - 0x80);
  }

  lemma FourBytes(a: int, b: int, c: int, d: int)
    requires 0xF0 <= a <= 0xF4 && 0x80 <= b <= 0xBF && 0x80 <= c <= 0xBF && 0x80 <= d <= 0xBF
    ensures var cp := (a - 0xF0) * 262144 + (b - 0x80) * 4096 + (c - 0x80) * 64 + (d - 0x80);
            && cp / 0x40000 == a - 0xF0 && cp / 0x1000 % 0x40 == b - 0x80
            && cp / 0x40 % 0x40 == c - 0x80 && cp % 0x40 == d - 0x80
  {
    var cp := (a - 0xF0) * 262144 + (b - 0x80) * 4096 + (c - 0x80) * 64 + (d - 0x80);
    assert cp / 0x40 == (a - 0xF0) * 4096 + (b - 0x80) * 64 + (c - 0x80);
    assert cp / 0x1000 == (a - 0xF0) * 64 + (b - 0x80);
  }

  /** A text starts with a well-formed sequence iff it starts with the encoding of some scalar value. */
  lemma WellFormedIff(s: seq<Byte>)
    ensures Width(s) > 0 <==> exists cp :: IsScalar(cp) && StartsWith(s, Encoded(cp))
  {
    if Width(s) > 0 {
      ReadIsEncoded(s);
      assert StartsWith(s, Encoded(Scalar(s)));
    }
    if cp :| IsScalar(cp) && StartsWith(s, Encoded(cp)) { EncodedIsRead(cp, s); }
  }

  lemma {:induction false} DecodingUndoesEncoding(cps: seq<int>)
    requires forall cp | cp in cps :: IsScalar(cp)
    ensures Runes(EncodedAll(cps)) == cps
  {
    if cps != [] {
      var e, rest := Encoded(cps[0]), EncodedAll(cps[1..]);
      DecodingUndoesEncoding(cps[1..]);
      assert StartsWith(e + rest, e);
      EncodedIsRead(cps[0], e + rest);
      assert (e + rest)[|e|..] == rest;
    }
  }

  /** Each byte that starts no encoding is one invalid unit, and the text goes on behind it. */
  lemma OneByteAtATime(s: seq<Byte>)
    requires s != [] && forall cp | IsScalar(cp) :: !StartsWith(s, Encoded(cp))
    ensures Runes(s) == [INVALID] + Runes(s[1..])
  {
    WellFormedIff(s);
  }

  /** p starts the encoding of some scalar value. */
  ghost predicate Starts(p: seq<Byte>) { exists cp :: IsScalar(cp) && StartsWith(Encoded(cp), p) }

  lemma WellFormedStarts(e: seq<Byte>, p: seq<Byte>)
    requires Width(e) == |e| && e != [] && StartsWith(e, p)
    ensures Starts(p)
  {
    ReadIsEncoded(e);
    assert e[..|e|] == e && StartsWith(Encoded(Scalar(e)), p);
  }

  /** An error range is the longest piece that starts some encoding, and at least one byte: the maximal
      subpart of section 3.9 of the Unicode Standard. */
  lemma ErrorRangeIsMaximal(s: seq<Byte>, m: nat)
    requires s != [] && Width(s) == 0 && 2 <= m <= |s|
    ensures Starts(s[..m]) <==> m <= ErrorLength(s)
  {
    if m <= ErrorLength(s) {
      var third := if m == 3 then s[2] else 0x80;
      var e := [s[0], s[1], third] + if s[0] >= 0xF0 then [0x80] else [];
      assert m < |e| && e[..m] == s[..m];
      WellFormedStarts(e, s[..m]);
    }
    if Starts(s[..m]) {
      var cp :| IsScalar(cp) && StartsWith(Encoded(cp), s[..m]);
      var e := Encoded(cp);
      EncodedIsRead(cp, e);
      assert forall i | 0 <= i < m :: e[i] == e[..m][i] == s[..m][i] == s[i];
    }
  }
}
