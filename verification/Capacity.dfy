/** How many invisible runes a clean text can carry in all: exactly when selectors, joiners, the byte
    order mark and carriage returns together stay within one per visible symbol. */
module Capacity {
  import opened Hygiene
  import opened Utf8

  /** How many of the first n positions satisfy p. */
  function Tally(p: int -> bool, n: nat): nat {
    if n == 0 then 0 else Tally(p, n - 1) + if p(n - 1) then 1 else 0
  }

  /** A symbol with a selector directly after it. */
  predicate Selected(so: int -> bool, cps: seq<int>, i: int) {
    SymbolAt(so, cps, i) && i + 1 < |cps| && IS_SELECTOR(cps[i + 1])
  }

  /** A symbol with a joiner directly before it. */
  predicate Joined(so: int -> bool, cps: seq<int>, i: int) {
    SymbolAt(so, cps, i) && i > 0 && cps[i - 1] == ZWJ
  }

  function SelectedSymbols(so: int -> bool, cps: seq<int>): nat { Tally(i => Selected(so, cps, i), |cps|) }
  function JoinedSymbols(so: int -> bool, cps: seq<int>): nat { Tally(i => Joined(so, cps, i), |cps|) }

  /** Symbols that carry both, and symbols that carry neither. */
  function Laden(so: int -> bool, cps: seq<int>): nat { Tally(i => Selected(so, cps, i) && Joined(so, cps, i), |cps|) }
  function Free(so: int -> bool, cps: seq<int>): nat {
    Tally(i => SymbolAt(so, cps, i) && !Selected(so, cps, i) && !Joined(so, cps, i), |cps|)
  }

  /** In a clean text every selector stands behind a symbol of its own. */
  lemma {:induction false} SelectorsAreSelected(so: int -> bool, cps: seq<int>, n: nat)
    requires InPlace(so, cps) && 0 < n <= |cps|
    ensures Count(IS_SELECTOR, cps, n) == Tally(i => Selected(so, cps, i), n - 1)
  {
    assert InPlaceAt(so, cps, n - 1);
    if n > 1 { SelectorsAreSelected(so, cps, n - 1); } else { assert Count(IS_SELECTOR, cps, 0) == 0; }
  }

  /** And every joiner before one. */
  lemma {:induction false} JoinersAreJoined(so: int -> bool, cps: seq<int>, n: nat)
    requires InPlace(so, cps) && n < |cps|
    ensures Count(IS_ZWJ, cps, n) == Tally(i => Joined(so, cps, i), n + 1)
  {
    var joined := i => Joined(so, cps, i);
    assert Tally(joined, 1) == Tally(joined, 0);
    if n > 0 {
      assert InPlaceAt(so, cps, n - 1);
      JoinersAreJoined(so, cps, n - 1);
      assert IS_ZWJ(cps[n - 1]) <==> cps[n - 1] == ZWJ;
    }
  }

  lemma InvisibleRunesAreCarried(so: int -> bool, cps: seq<int>)
    requires InPlace(so, cps)
    ensures Count(IS_SELECTOR, cps, |cps|) == SelectedSymbols(so, cps)
    ensures Count(IS_ZWJ, cps, |cps|) == JoinedSymbols(so, cps)
  {
    var n := |cps|;
    if n > 0 {
      SelectorsAreSelected(so, cps, n);
      JoinersAreJoined(so, cps, n - 1);
      assert InPlaceAt(so, cps, n - 1);
    }
  }

  /** Each symbol carries both, one or neither. */
  lemma {:induction false} CarriersSplit(so: int -> bool, cps: seq<int>, n: nat)
    requires n <= |cps|
    ensures var sel, join := i => Selected(so, cps, i), i => Joined(so, cps, i);
            Tally(sel, n) + Tally(join, n)
            + Tally(i => SymbolAt(so, cps, i) && !Selected(so, cps, i) && !Joined(so, cps, i), n)
            == Symbols(so, cps, n) + Tally(i => Selected(so, cps, i) && Joined(so, cps, i), n)
    ensures Tally(i => Selected(so, cps, i) && Joined(so, cps, i), n) <= Symbols(so, cps, n)
  {
    if n > 0 {
      CarriersSplit(so, cps, n - 1);
      assert SymbolAt(so, cps, n - 1) <==> IsSymbol(so, cps[n - 1]);
    }
  }

  /** The four kinds of invisible rune that have a legitimate place. */
  function Invisible(cps: seq<int>): nat {
    Count(IS_SELECTOR, cps, |cps|) + Count(IS_ZWJ, cps, |cps|) + Unbased(cps)
  }

  /** The two kinds that need no symbol. */
  function Unbased(cps: seq<int>): nat { Count(IS_BOM, cps, |cps|) + Count(IS_CR, cps, |cps|) }

  /** In a clean text the invisible runes exceed the visible symbols by exactly the symbols that carry
      both a selector and a joiner, the byte order mark and the carriage returns, less the symbols
      that carry nothing. */
  lemma ExactCapacity(so: int -> bool, text: seq<Byte>)
    requires Hidden(so, text) == []
    ensures var cps := Runes(text); var symbols := Symbols(so, cps, |cps|);
            && Invisible(cps) + Free(so, cps) == symbols + Laden(so, cps) + Unbased(cps)
            && Laden(so, cps) <= symbols
  {
    var cps := Runes(text);
    GoTableIsUsable();
    CleanIsInPlace(so, GO_ROWS, text);
    InvisibleRunesAreCarried(so, cps);
    CarriersSplit(so, cps, |cps|);
  }

  /** One visible symbol per invisible rune, in total, iff what the symbols carry twice and what needs
      no symbol together do not outnumber the symbols that carry nothing. Two selectors and joiners
      per symbol are the most there can be, with one byte order mark and one CR per LF besides. */
  lemma OnePerSymbolIff(so: int -> bool, text: seq<Byte>)
    requires Hidden(so, text) == []
    ensures var cps := Runes(text); var symbols := Symbols(so, cps, |cps|);
            && (Invisible(cps) <= symbols <==> Laden(so, cps) + Unbased(cps) <= Free(so, cps))
            && Invisible(cps) - Unbased(cps) <= 2 * symbols
            && Unbased(cps) <= 1 + Count(IS_LF, cps, |cps|)
  {
    ExactCapacity(so, text);
    CapacityBound(so, text);
  }

  // ---- invisible runes without a symbol ---------------------------------------

  const MARK: seq<Byte> := [0xEF, 0xBB, 0xBF]

  /** A lone byte order mark is clean: one invisible rune, no symbol. */
  lemma LoneMark(so: int -> bool)
    requires !so(BOM)
    ensures Hidden(so, MARK) == [] && Invisible(Runes(MARK)) == 1 && Symbols(so, Runes(MARK), |Runes(MARK)|) == 0
  {
    ThreeByteRune(MARK, []);
    assert MARK + [] == MARK && Runes(MARK) == [BOM];
    GoTableIsUsable();
    MarkIsClean(so, GO_ROWS, [BOM]);
    MarkCounts(so, [BOM]);
  }

  lemma MarkIsClean(so: int -> bool, rows: seq<Row>, cps: seq<int>)
    requires Ascending(rows) && HasContextRows(rows) && cps == [BOM]
    ensures Findings(so, cp => GoRow(rows, true, cp), cps, 1) == []
  {
    RuleOf(rows, BOM, 27);
    var rowOf := cp => GoRow(rows, true, cp);
    assert !BadAt(so, rowOf, cps, 0);
    CleanIffNoBadRune(so, rowOf, cps, 1);
  }

  lemma MarkCounts(so: int -> bool, cps: seq<int>)
    requires cps == [BOM] && !so(BOM)
    ensures Invisible(cps) == 1 && Symbols(so, cps, 1) == 0
  {
    assert Symbols(so, cps, 0) == 0 && Count(IS_BOM, cps, 0) == 0;
    assert Count(IS_SELECTOR, cps, 0) == 0 && Count(IS_ZWJ, cps, 0) == 0 && Count(IS_CR, cps, 0) == 0;
  }

  /** n line ends of two bytes each. */
  function LineEnds(n: nat): seq<Byte> { if n == 0 then [] else [0x0D, 0x0A] + LineEnds(n - 1) }

  ghost predicate AreLineEnds(cps: seq<int>, n: nat) {
    |cps| == 2 * n && forall i | 0 <= i < 2 * n :: cps[i] == if i % 2 == 0 then CR else LF
  }

  lemma {:induction false} LineEndsDecode(n: nat)
    ensures AreLineEnds(Runes(LineEnds(n)), n)
  {
    if n > 0 {
      var s, rest := LineEnds(n), LineEnds(n - 1);
      LineEndsDecode(n - 1);
      assert s == [0x0D] + ([0x0A] + rest);
      OneByteRune(0x0D, [0x0A] + rest);
      OneByteRune(0x0A, rest);
      OneMoreLineEnd(Runes(s), Runes(rest), n);
    }
  }

  lemma OneByteRune(b: Byte, rest: seq<Byte>)
    requires b < 0x80
    ensures Runes([b] + rest) == [b as int] + Runes(rest)
  {
    assert ([b] + rest)[1..] == rest;
  }

  lemma OneMoreLineEnd(cps: seq<int>, rest: seq<int>, n: nat)
    requires n > 0 && AreLineEnds(rest, n - 1) && cps == [CR] + ([LF] + rest)
    ensures AreLineEnds(cps, n)
  {
    assert forall i | 2 <= i < 2 * n :: cps[i] == rest[i - 2];
  }

  lemma {:induction false} LineEndCounts(so: int -> bool, cps: seq<int>, n: nat, m: nat)
    requires AreLineEnds(cps, n) && m <= 2 * n
    ensures Count(IS_CR, cps, m) == (m + 1) / 2 && Symbols(so, cps, m) == 0
    ensures Count(IS_SELECTOR, cps, m) == 0 && Count(IS_ZWJ, cps, m) == 0 && Count(IS_BOM, cps, m) == 0
  {
    if m > 0 { LineEndCounts(so, cps, n, m - 1); }
  }

  lemma LineEndIsInPlace(so: int -> bool, rows: seq<Row>, cps: seq<int>, n: nat, i: nat)
    requires Ascending(rows) && HasContextRows(rows) && AreLineEnds(cps, n) && i < 2 * n
    ensures Judge(so, GoRow(rows, true, cps[i]), cps, i).None?
  {
    if i % 2 == 0 {
      RuleOf(rows, CR, 2);
      assert cps[i + 1] == LF;
    } else {
      GapHasNoRow(rows, LF, 0);
    }
  }

  lemma LineEndsAreClean(so: int -> bool, rows: seq<Row>, cps: seq<int>, n: nat)
    requires Ascending(rows) && HasContextRows(rows) && AreLineEnds(cps, n)
    ensures Findings(so, cp => GoRow(rows, true, cp), cps, |cps|) == []
  {
    var rowOf := cp => GoRow(rows, true, cp);
    forall i: nat | i < |cps| ensures !BadAt(so, rowOf, cps, i) { LineEndIsInPlace(so, rows, cps, n, i); }
    CleanIffNoBadRune(so, rowOf, cps, |cps|);
  }

  /** So the symbols bound nothing: n line ends are clean, with n invisible runes and no symbol. */
  lemma NoBoundInSymbols(so: int -> bool, n: nat)
    ensures var cps := Runes(LineEnds(n));
            Hidden(so, LineEnds(n)) == [] && Invisible(cps) == n && Symbols(so, cps, |cps|) == 0
  {
    LineEndsDecode(n);
    LineEndsAreHidden(so, LineEnds(n), n);
    LineEndCounts(so, Runes(LineEnds(n)), n, 2 * n);
  }

  lemma LineEndsAreHidden(so: int -> bool, text: seq<Byte>, n: nat)
    requires AreLineEnds(Runes(text), n)
    ensures Hidden(so, text) == []
  {
    GoTableIsUsable();
    LineEndsAreClean(so, GO_ROWS, Runes(text), n);
  }
}
