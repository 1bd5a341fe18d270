/** What the hidden-character scan reports, said of code points and positions alone: which runes are
    never allowed, where the four kinds with one legitimate place may stand, and with which line, column
    and reason everything else is reported. */
module Cleanness {
  import opened Utf8
  import opened Hygiene
  import opened Wrappers

  // ---- the rule, in numbers ----------------------------------------------------

  predicate NeverAllowed(cp: int) {
    || 0x00 <= cp <= 0x08 || 0x0B <= cp <= 0x0C || 0x0E <= cp <= 0x1F || 0x7F <= cp <= 0x9F
    || cp == 0xAD || cp == 0x34F || 0x600 <= cp <= 0x605 || cp == 0x61C || cp == 0x6DD || cp == 0x70F
    || 0x890 <= cp <= 0x891 || cp == 0x8E2 || 0x115F <= cp <= 0x1160 || 0x17B4 <= cp <= 0x17B5
    || 0x180B <= cp <= 0x180F || 0x200B <= cp <= 0x200C || 0x200E <= cp <= 0x200F || 0x2028 <= cp <= 0x2029
    || 0x2060 <= cp <= 0x2065 || 0x206A <= cp <= 0x206F || cp == 0x3164 || 0xFE00 <= cp <= 0xFE0D
    || cp == 0xFFA0 || 0xFFF0 <= cp <= 0xFFFB || cp == 0x110BD || cp == 0x110CD || 0x13430 <= cp <= 0x1343F
    || 0x1BCA0 <= cp <= 0x1BCA3 || 0x1D173 <= cp <= 0x1D17A || 0xE0000 <= cp <= 0xE0FFF
  }

  predicate BidiControl(cp: int) { 0x202A <= cp <= 0x202E || 0x2066 <= cp <= 0x2069 }

  predicate Symbol(so: int -> bool, cps: seq<int>, i: int) { 0 <= i < |cps| && cps[i] >= 0x80 && so(cps[i]) }

  predicate SkinTone(cps: seq<int>, i: int) { 0 <= i < |cps| && 0x1F3FB <= cps[i] <= 0x1F3FF }

  predicate Selector(cps: seq<int>, i: int) {
    0 <= i < |cps| && (0xFE00 <= cps[i] <= 0xFE0F || 0xE0100 <= cps[i] <= 0xE01EF)
  }

  /** What may stand before a joiner: a symbol, a skin tone, or a U+FE0F on a symbol of its own. */
  predicate JoinsOn(so: int -> bool, cps: seq<int>, i: int) {
    Symbol(so, cps, i) || SkinTone(cps, i) || (0 <= i < |cps| && cps[i] == 0xFE0F && Symbol(so, cps, i - 1))
  }

  /** The rune at i is reported, for this reason. */
  predicate Reported(so: int -> bool, withBidi: bool, cps: seq<int>, i: nat, why: Why)
    requires i < |cps|
  {
    var cp := cps[i];
    match why
    case Forbidden => NeverAllowed(cp) || (withBidi && BidiControl(cp))
    case SecondSelector => 0xFE0E <= cp <= 0xFE0F && !Symbol(so, cps, i - 1) && Selector(cps, i - 1)
    case NotAfterSymbol => 0xFE0E <= cp <= 0xFE0F && !Symbol(so, cps, i - 1) && !Selector(cps, i - 1)
    case NotBetweenSymbols => cp == 0x200D && !(JoinsOn(so, cps, i - 1) && Symbol(so, cps, i + 1))
    case NotAtStart => cp == 0xFEFF && i != 0
    case NotBeforeLF => cp == 0x0D && !(i + 1 < |cps| && cps[i + 1] == 0x0A)
  }

  ghost predicate Bad(so: int -> bool, withBidi: bool, cps: seq<int>, i: nat)
    requires i < |cps|
  {
    exists why :: Reported(so, withBidi, cps, i, why)
  }

  // ---- the table gives that rule -------------------------------------------------

  predicate HasRule(rule: Rule, cp: int) {
    match rule
    case Always => NeverAllowed(cp)
    case VsAfterSymbol => 0xFE0E <= cp <= 0xFE0F
    case ZwjInEmoji => cp == 0x200D
    case BomAtStart => cp == 0xFEFF
    case LoneCR => cp == 0x0D
    case Bidi => false
  }

  predicate InSomeRule(cp: int) {
    NeverAllowed(cp) || 0xFE0E <= cp <= 0xFE0F || cp == 0x200D || cp == 0xFEFF || cp == 0x0D
  }

  ghost predicate FirstRows(rows: seq<Row>)
    requires |rows| == 37
  {
    && rows[0] == Row(0x0000, 0x0008, Always) && rows[1] == Row(0x000B, 0x000C, Always)
    && rows[2] == Row(0x000D, 0x000D, LoneCR) && rows[3] == Row(0x000E, 0x001F, Always)
    && rows[4] == Row(0x007F, 0x007F, Always)
  }

  ghost predicate SecondRows(rows: seq<Row>)
    requires |rows| == 37
  {
    && rows[5] == Row(0x0080, 0x009F, Always) && rows[6] == Row(0x00AD, 0x00AD, Always)
    && rows[7] == Row(0x034F, 0x034F, Always) && rows[8] == Row(0x0600, 0x0605, Always)
    && rows[9] == Row(0x061C, 0x061C, Always)
  }

  ghost predicate ThirdRows(rows: seq<Row>)
    requires |rows| == 37
  {
    && rows[10] == Row(0x06DD, 0x06DD, Always) && rows[11] == Row(0x070F, 0x070F, Always)
    && rows[12] == Row(0x0890, 0x0891, Always) && rows[13] == Row(0x08E2, 0x08E2, Always)
    && rows[14] == Row(0x115F, 0x1160, Always) && rows[15] == Row(0x17B4, 0x17B5, Always)
    && rows[16] == Row(0x180B, 0x180F, Always) && rows[17] == Row(0x200B, 0x200B, Always)
    && rows[18] == Row(0x200C, 0x200C, Always)
  }

  ghost predicate FourthRows(rows: seq<Row>)
    requires |rows| == 37
  {
    && rows[19] == Row(0x200D, 0x200D, ZwjInEmoji) && rows[20] == Row(0x200E, 0x200F, Always)
    && rows[21] == Row(0x2028, 0x2029, Always) && rows[22] == Row(0x2060, 0x2065, Always)
    && rows[23] == Row(0x206A, 0x206F, Always) && rows[24] == Row(0x3164, 0x3164, Always)
    && rows[25] == Row(0xFE00, 0xFE0D, Always) && rows[26] == Row(0xFE0E, 0xFE0F, VsAfterSymbol)
    && rows[27] == Row(0xFEFF, 0xFEFF, BomAtStart)
  }

  ghost predicate FifthRows(rows: seq<Row>)
    requires |rows| == 37
  {
    && rows[28] == Row(0xFFA0, 0xFFA0, Always) && rows[29] == Row(0xFFF0, 0xFFF8, Always)
    && rows[30] == Row(0xFFF9, 0xFFFB, Always) && rows[31] == Row(0x110BD, 0x110BD, Always)
    && rows[32] == Row(0x110CD, 0x110CD, Always) && rows[33] == Row(0x13430, 0x1343F, Always)
    && rows[34] == Row(0x1BCA0, 0x1BCA3, Always) && rows[35] == Row(0x1D173, 0x1D17A, Always)
    && rows[36] == Row(0xE0000, 0xE0FFF, Always)
  }

  ghost predicate Spelt(rows: seq<Row>) {
    |rows| == 37 && FirstRows(rows) && SecondRows(rows) && ThirdRows(rows) && FourthRows(rows) && FifthRows(rows)
  }

  lemma FirstGoRows()
    ensures FirstRows(GO_ROWS)
  {
  }

  lemma SecondGoRows()
    ensures SecondRows(GO_ROWS)
  {
  }

  lemma ThirdGoRows()
    ensures ThirdRows(GO_ROWS)
  {
  }

  lemma FourthGoRows()
    ensures FourthRows(GO_ROWS)
  {
  }

  lemma FifthGoRows()
    ensures FifthRows(GO_ROWS)
  {
  }

  lemma GoRowsAreSpelt()
    ensures Spelt(GO_ROWS)
  {
    FirstGoRows();
    SecondGoRows();
    ThirdGoRows();
    FourthGoRows();
    FifthGoRows();
  }

  /** Each row holds runes of its rule only. */
  lemma RowIsRight(rows: seq<Row>, i: nat, cp: int)
    requires Spelt(rows) && i < |rows| && rows[i].lo <= cp <= rows[i].hi
    ensures HasRule(rows[i].rule, cp)
  {
  }

  /** And each rune of a rule is in some row. */
  lemma RowIsThere(rows: seq<Row>, cp: int)
    requires Spelt(rows) && InSomeRule(cp)
    ensures exists i :: 0 <= i < |rows| && rows[i].lo <= cp <= rows[i].hi
  {
  }

  lemma RowOf(rows: seq<Row>, cp: int)
    requires Spelt(rows)
    ensures Linear(rows, cp).Some? <==> InSomeRule(cp)
    ensures Linear(rows, cp).Some? ==> HasRule(Linear(rows, cp).value.rule, cp)
  {
    var r := Linear(rows, cp);
    if r.Some? {
      var i :| 0 <= i < |rows| && rows[i] == r.value;
      RowIsRight(rows, i, cp);
    }
    if InSomeRule(cp) {
      RowIsThere(rows, cp);
      var i :| 0 <= i < |rows| && rows[i].lo <= cp <= rows[i].hi;
      assert rows[i] in rows;
    }
  }

  // ---- what is reported -----------------------------------------------------------

  lemma RangesAre(cp: int)
    ensures InRanges(cp, SKIN) <==> 0x1F3FB <= cp <= 0x1F3FF
    ensures InRanges(cp, SELECTORS) <==> 0xFE00 <= cp <= 0xFE0F || 0xE0100 <= cp <= 0xE01EF
  {
    assert (0x1F3FB, 0x1F3FF) in SKIN && (0xFE00, 0xFE0F) in SELECTORS && (0xE0100, 0xE01EF) in SELECTORS;
  }

  /** The verdict on a rune whose row is the table's. */
  lemma VerdictIs(so: int -> bool, withBidi: bool, rows: seq<Row>, cps: seq<int>, i: nat, why: Why)
    requires Spelt(rows) && i < |cps|
    ensures Judge(so, GoRow(rows, withBidi, cps[i]), cps, i) == Some(why) <==> Reported(so, withBidi, cps, i, why)
  {
    RowOf(rows, cps[i]);
    if i > 0 { RangesAre(cps[i - 1]); }
    assert cps[i] in BIDI <==> BidiControl(cps[i]);
  }

  ghost predicate Increasing(at: seq<nat>) { forall i, j | 0 <= i < j < |at| :: at[i] < at[j] }

  /** A position as a reader counts it: the line feeds before it, and the runes since the last of them. */
  ghost predicate StandsAt(cps: seq<int>, i: nat, line: nat, col: nat)
    requires i <= |cps|
  {
    && line == 1 + |set j: nat | j < i && cps[j] == 0x0A|
    && exists start: nat :: StartsLine(cps, i, start) && col == i - start + 1
  }

  /** The line of position i starts there. */
  predicate StartsLine(cps: seq<int>, i: nat, start: nat)
    requires i <= |cps|
  {
    start <= i && (start == 0 || cps[start - 1] == 0x0A) && forall j | start <= j < i :: cps[j] != 0x0A
  }

  lemma {:induction false} LineAndColumnAre(cps: seq<int>, i: nat)
    requires i <= |cps|
    ensures StandsAt(cps, i, Line(cps, i), Col(cps, i))
  {
    var feeds := set j: nat | j < i && cps[j] == 0x0A;
    if i == 0 {
      assert feeds == {} && StartsLine(cps, 0, 0);
    } else {
      LineAndColumnAre(cps, i - 1);
      var before := set j: nat | j < i - 1 && cps[j] == 0x0A;
      assert feeds == before + if cps[i - 1] == 0x0A then {i - 1} else {};
      if cps[i - 1] != 0x0A {
        var start: nat :| StartsLine(cps, i - 1, start) && Col(cps, i - 1) == i - 1 - start + 1;
        assert StartsLine(cps, i, start);
      } else {
        assert StartsLine(cps, i, i);
      }
    }
  }

  /** The finding is the rune at i, at its line and column, for a reason that holds. */
  ghost predicate Tells(so: int -> bool, withBidi: bool, cps: seq<int>, i: nat, f: Finding)
    requires i < |cps|
  {
    f.cp == cps[i] && StandsAt(cps, i, f.line, f.col) && Reported(so, withBidi, cps, i, f.why)
  }

  ghost predicate Lists(so: int -> bool, withBidi: bool, cps: seq<int>, n: nat, at: seq<nat>, found: seq<Finding>)
    requires n <= |cps|
  {
    && Increasing(at) && (forall i: nat :: i in at <==> i < n && Bad(so, withBidi, cps, i))
    && |found| == |at| && forall k | 0 <= k < |at| :: at[k] < n && Tells(so, withBidi, cps, at[k], found[k])
  }

  lemma ListsOneMore(so: int -> bool, withBidi: bool, cps: seq<int>, i: nat, at: seq<nat>, found: seq<Finding>,
                     f: Finding)
    requires i < |cps| && Lists(so, withBidi, cps, i, at, found) && Tells(so, withBidi, cps, i, f)
    ensures Lists(so, withBidi, cps, i + 1, at + [i], found + [f])
  {
    assert Bad(so, withBidi, cps, i);
    forall j, k | 0 <= j < k < |at| + 1 ensures (at + [i])[j] < (at + [i])[k] {}
  }

  lemma ListsNoMore(so: int -> bool, withBidi: bool, cps: seq<int>, i: nat, at: seq<nat>, found: seq<Finding>)
    requires i < |cps| && Lists(so, withBidi, cps, i, at, found) && !Bad(so, withBidi, cps, i)
    ensures Lists(so, withBidi, cps, i + 1, at, found)
  {
  }

  lemma {:induction false} FindingsAre(so: int -> bool, withBidi: bool, rows: seq<Row>, rowOf: int -> Option<Row>,
                                       cps: seq<int>, n: nat)
    returns (at: seq<nat>)
    requires Spelt(rows) && n <= |cps|
    requires forall cp :: rowOf(cp) == GoRow(rows, withBidi, cp)
    ensures Lists(so, withBidi, cps, n, at, Findings(so, rowOf, cps, n))
  {
    at := [];
    if n > 0 {
      var i := n - 1;
      at := FindingsAre(so, withBidi, rows, rowOf, cps, i);
      var verdict := Judge(so, rowOf(cps[i]), cps, i);
      LineAndColumnAre(cps, i);
      BadIffJudged(so, withBidi, rows, cps, i);
      if verdict.Some? {
        VerdictIs(so, withBidi, rows, cps, i, verdict.value);
        var f := Finding(Line(cps, i), Col(cps, i), cps[i], verdict.value);
        ListsOneMore(so, withBidi, cps, i, at, Findings(so, rowOf, cps, i), f);
        at := at + [i];
      } else {
        ListsNoMore(so, withBidi, cps, i, at, Findings(so, rowOf, cps, i));
      }
    }
  }

  lemma BadIffJudged(so: int -> bool, withBidi: bool, rows: seq<Row>, cps: seq<int>, i: nat)
    requires Spelt(rows) && i < |cps|
    ensures Bad(so, withBidi, cps, i) <==> Judge(so, GoRow(rows, withBidi, cps[i]), cps, i).Some?
  {
    var verdict := Judge(so, GoRow(rows, withBidi, cps[i]), cps, i);
    forall why ensures verdict == Some(why) <==> Reported(so, withBidi, cps, i, why) {
      VerdictIs(so, withBidi, rows, cps, i, why);
    }
    if verdict.Some? { assert Reported(so, withBidi, cps, i, verdict.value); }
  }

  /** The report: one finding for each rune out of place and for nothing else, in the order of the text. */
  lemma ReportIs(so: int -> bool, withBidi: bool, text: seq<Byte>) returns (at: seq<nat>)
    ensures Lists(so, withBidi, Runes(text), |Runes(text)|, at, GoFindings(so, GO_ROWS, text, withBidi))
  {
    GoRowsAreSpelt();
    at := FindingsAre(so, withBidi, GO_ROWS, cp => GoRow(GO_ROWS, withBidi, cp), Runes(text), |Runes(text)|);
  }

  /** Never allowed nowhere, and each of the four kinds with one legitimate place only there. */
  predicate InItsPlace(so: int -> bool, cps: seq<int>, i: nat)
    requires i < |cps|
  {
    && !NeverAllowed(cps[i]) && !BidiControl(cps[i])
    && (cps[i] == 0xFE0E || cps[i] == 0xFE0F ==> Symbol(so, cps, i - 1))
    && (cps[i] == 0x200D ==> JoinsOn(so, cps, i - 1) && Symbol(so, cps, i + 1))
    && (cps[i] == 0xFEFF ==> i == 0)
    && (cps[i] == 0x0D ==> i + 1 < |cps| && cps[i + 1] == 0x0A)
  }

  lemma BadIffMisplaced(so: int -> bool, cps: seq<int>, i: nat)
    requires i < |cps|
    ensures Bad(so, true, cps, i) <==> !InItsPlace(so, cps, i)
  {
    if NeverAllowed(cps[i]) || BidiControl(cps[i]) { assert Reported(so, true, cps, i, Forbidden); }
    if 0xFE0E <= cps[i] <= 0xFE0F && !Symbol(so, cps, i - 1) {
      assert Reported(so, true, cps, i, if Selector(cps, i - 1) then SecondSelector else NotAfterSymbol);
    }
    if cps[i] == 0x200D && !(JoinsOn(so, cps, i - 1) && Symbol(so, cps, i + 1)) {
      assert Reported(so, true, cps, i, NotBetweenSymbols);
    }
    if cps[i] == 0xFEFF && i != 0 { assert Reported(so, true, cps, i, NotAtStart); }
    if cps[i] == 0x0D && !(i + 1 < |cps| && cps[i + 1] == 0x0A) { assert Reported(so, true, cps, i, NotBeforeLF); }
  }

  lemma EmptyIff(so: int -> bool, cps: seq<int>, at: seq<nat>, found: seq<Finding>)
    requires Lists(so, true, cps, |cps|, at, found)
    ensures found == [] <==> AllInPlace(so, cps)
  {
    forall i: nat | i < |cps| ensures Bad(so, true, cps, i) <==> !InItsPlace(so, cps, i) {
      BadIffMisplaced(so, cps, i);
    }
    if at != [] { assert at[0] in at; }
  }

  predicate AllInPlace(so: int -> bool, cps: seq<int>) { forall i | 0 <= i < |cps| :: InItsPlace(so, cps, i) }

  /** A text is clean iff each of its runes is in its place. */
  lemma CleanIff(so: int -> bool, text: seq<Byte>)
    ensures Hidden(so, text) == [] <==> AllInPlace(so, Runes(text))
  {
    var at := ReportIs(so, true, text);
    EmptyIff(so, Runes(text), at, GoFindings(so, GO_ROWS, text, true));
  }
}
