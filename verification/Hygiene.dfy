/** The hidden-character scanners: Go's `scan` streams bytes, the Python reference decodes
    first and then walks the code points. Both are proved against one declarative rule that
    looks only at a position and its neighbours. `so` is Unicode's category So, uninterpreted. */
module Hygiene {
  import opened Utf8
  import opened Wrappers

  datatype Rule = Always | VsAfterSymbol | ZwjInEmoji | BomAtStart | LoneCR | Bidi
  datatype Row = Row(lo: int, hi: int, rule: Rule)

  /** The reason carried by a finding; Forbidden is the empty reason of an always-forbidden rune. */
  datatype Why = Forbidden | SecondSelector | NotAfterSymbol | NotBetweenSymbols | NotAtStart | NotBeforeLF
  datatype Finding = Finding(line: nat, col: nat, cp: int, why: Why)

  const LF := 0x0A
  const CR := 0x0D
  const ZWJ := 0x200D
  const BOM := 0xFEFF
  const VS16 := 0xFE0F

  /** invisibleRanges of the Go package. */
  const GO_ROWS: seq<Row> := [
    Row(0x0000, 0x0008, Always), Row(0x000B, 0x000C, Always), Row(0x000D, 0x000D, LoneCR),
    Row(0x000E, 0x001F, Always), Row(0x007F, 0x007F, Always), Row(0x0080, 0x009F, Always),
    Row(0x00AD, 0x00AD, Always), Row(0x034F, 0x034F, Always), Row(0x0600, 0x0605, Always),
    Row(0x061C, 0x061C, Always), Row(0x06DD, 0x06DD, Always), Row(0x070F, 0x070F, Always),
    Row(0x0890, 0x0891, Always), Row(0x08E2, 0x08E2, Always), Row(0x115F, 0x1160, Always),
    Row(0x17B4, 0x17B5, Always), Row(0x180B, 0x180F, Always), Row(0x200B, 0x200B, Always),
    Row(0x200C, 0x200C, Always), Row(0x200D, 0x200D, ZwjInEmoji), Row(0x200E, 0x200F, Always),
    Row(0x2028, 0x2029, Always), Row(0x2060, 0x2065, Always), Row(0x206A, 0x206F, Always),
    Row(0x3164, 0x3164, Always), Row(0xFE00, 0xFE0D, Always), Row(0xFE0E, 0xFE0F, VsAfterSymbol),
    Row(0xFEFF, 0xFEFF, BomAtStart), Row(0xFFA0, 0xFFA0, Always), Row(0xFFF0, 0xFFF8, Always),
    Row(0xFFF9, 0xFFFB, Always), Row(0x110BD, 0x110BD, Always), Row(0x110CD, 0x110CD, Always),
    Row(0x13430, 0x1343F, Always), Row(0x1BCA0, 0x1BCA3, Always), Row(0x1D173, 0x1D17A, Always),
    Row(0xE0000, 0xE0FFF, Always)
  ]

  /** bidiControls of the Go package. */
  const BIDI: set<int> := {0x202A, 0x202B, 0x202C, 0x202D, 0x202E, 0x2066, 0x2067, 0x2068, 0x2069}

  /** The rows of hidden-ranges.tsv, which the Python scanner reads. */
  const PY_ROWS: seq<Row> := PY_ROWS_LOW + PY_ROWS_HIGH
  const PY_ROWS_LOW: seq<Row> := [
    Row(0x0000, 0x0008, Always), Row(0x000B, 0x000C, Always), Row(0x000D, 0x000D, LoneCR),
    Row(0x000E, 0x001F, Always), Row(0x007F, 0x007F, Always), Row(0x0080, 0x009F, Always),
    Row(0x00AD, 0x00AD, Always), Row(0x034F, 0x034F, Always), Row(0x0600, 0x0605, Always),
    Row(0x061C, 0x061C, Always), Row(0x06DD, 0x06DD, Always), Row(0x070F, 0x070F, Always),
    Row(0x0890, 0x0891, Always), Row(0x08E2, 0x08E2, Always), Row(0x115F, 0x1160, Always),
    Row(0x17B4, 0x17B5, Always), Row(0x180B, 0x180F, Always), Row(0x200B, 0x200B, Always),
    Row(0x200C, 0x200C, Always), Row(0x200D, 0x200D, ZwjInEmoji), Row(0x200E, 0x200F, Always),
    Row(0x2028, 0x2029, Always), Row(0x202A, 0x202A, Bidi)
  ]
  const PY_ROWS_HIGH: seq<Row> := [
    Row(0x202B, 0x202B, Bidi), Row(0x202C, 0x202C, Bidi), Row(0x202D, 0x202D, Bidi),
    Row(0x202E, 0x202E, Bidi), Row(0x2060, 0x2065, Always), Row(0x2066, 0x2066, Bidi),
    Row(0x2067, 0x2067, Bidi), Row(0x2068, 0x2068, Bidi), Row(0x2069, 0x2069, Bidi),
    Row(0x206A, 0x206F, Always), Row(0x3164, 0x3164, Always), Row(0xFE00, 0xFE0D, Always),
    Row(0xFE0E, 0xFE0F, VsAfterSymbol), Row(0xFEFF, 0xFEFF, BomAtStart), Row(0xFFA0, 0xFFA0, Always),
    Row(0xFFF0, 0xFFF8, Always), Row(0xFFF9, 0xFFFB, Always), Row(0x110BD, 0x110BD, Always),
    Row(0x110CD, 0x110CD, Always), Row(0x13430, 0x1343F, Always), Row(0x1BCA0, 0x1BCA3, Always),
    Row(0x1D173, 0x1D17A, Always), Row(0xE0000, 0xE0FFF, Always)
  ]

  /** The two ranges both scanners hold as constants (isSkinTone, isVS; the header of the tsv). */
  const SKIN: seq<(int, int)> := [(0x1F3FB, 0x1F3FF)]
  const SELECTORS: seq<(int, int)> := [(0xFE00, 0xFE0F), (0xE0100, 0xE01EF)]

  predicate InRanges(cp: int, ranges: seq<(int, int)>) {
    exists r | r in ranges :: r.0 <= cp <= r.1
  }

  // ---- the table and its binary searches -----------------------------------

  /** Ascending rows without overlap, as both tables are required to be. */
  ghost predicate Ascending(rows: seq<Row>) {
    && (forall i | 0 <= i < |rows| :: 0 <= rows[i].lo <= rows[i].hi)
    && (forall i, j | 0 <= i < j < |rows| :: rows[i].hi < rows[j].lo)
  }

  lemma {:induction false} AdjacentRowsSuffice(rows: seq<Row>)
    requires forall i | 0 <= i < |rows| :: 0 <= rows[i].lo <= rows[i].hi
    requires forall i | 0 <= i < |rows| - 1 :: rows[i].hi < rows[i + 1].lo
    ensures Ascending(rows)
  {
    if |rows| > 0 {
      var last := |rows| - 1;
      AdjacentRowsSuffice(rows[..last]);
      forall i | 0 <= i < last ensures rows[i].hi < rows[last].lo {
        assert rows[..last][i] == rows[i];
        if i < last - 1 { assert rows[..last][last - 1] == rows[last - 1]; }
      }
      forall i, j | 0 <= i < j < |rows| ensures rows[i].hi < rows[j].lo {
        if j < last { assert rows[..last][i] == rows[i] && rows[..last][j] == rows[j]; }
      }
    }
  }


  /** The linear search: the first row that holds cp. */
  function Linear(rows: seq<Row>, cp: int): (r: Option<Row>)
    ensures r.Some? ==> r.value in rows && r.value.lo <= cp <= r.value.hi
    ensures r.None? ==> forall x | x in rows :: !(x.lo <= cp <= x.hi)
  {
    if rows == [] then None
    else if rows[0].lo <= cp <= rows[0].hi then Some(rows[0])
    else Linear(rows[1..], cp)
  }

  lemma LinearIsTheRow(rows: seq<Row>, cp: int, i: nat)
    requires Ascending(rows) && i < |rows| && rows[i].lo <= cp <= rows[i].hi
    ensures Linear(rows, cp) == Some(rows[i])
  {
    var r := Linear(rows, cp).value;
    var j :| 0 <= j < |rows| && rows[j] == r;
  }

  /** What the scans rely on: an ascending table that gives U+FE0F its context rule. */
  ghost predicate Usable(rows: seq<Row>) {
    && Ascending(rows)
    && Linear(rows, VS16).Some? && Linear(rows, VS16).value.rule == VsAfterSymbol
  }

  /** The rows of the four context rules, and a gap. */
  ghost predicate HasContextRows(rows: seq<Row>) {
    && |rows| == 37
    && rows[0].hi == 0x08 && rows[1].lo == 0x0B
    && rows[2] == Row(CR, CR, LoneCR)
    && rows[19] == Row(ZWJ, ZWJ, ZwjInEmoji)
    && rows[23].hi == 0x206F && rows[24].lo == 0x3164
    && rows[26] == Row(0xFE0E, VS16, VsAfterSymbol)
    && rows[27] == Row(BOM, BOM, BomAtStart)
  }

  lemma GoRowsAreAdjacent()
    ensures HasContextRows(GO_ROWS)
    ensures forall i | 0 <= i < |GO_ROWS| :: 0 <= GO_ROWS[i].lo <= GO_ROWS[i].hi
    ensures forall i | 0 <= i < |GO_ROWS| - 1 :: GO_ROWS[i].hi < GO_ROWS[i + 1].lo
  {
  }

  lemma PyRowsAreAdjacent()
    ensures |PY_ROWS_LOW| == |PY_ROWS_HIGH| == 23 && PY_ROWS_HIGH[12] == Row(0xFE0E, 0xFE0F, VsAfterSymbol)
    ensures forall i | 0 <= i < 23 :: 0 <= PY_ROWS_LOW[i].lo <= PY_ROWS_LOW[i].hi
    ensures forall i | 0 <= i < 22 :: PY_ROWS_LOW[i].hi < PY_ROWS_LOW[i + 1].lo
    ensures PY_ROWS_LOW[22].hi < PY_ROWS_HIGH[0].lo
    ensures forall i | 0 <= i < 23 :: 0 <= PY_ROWS_HIGH[i].lo <= PY_ROWS_HIGH[i].hi
    ensures forall i | 0 <= i < 22 :: PY_ROWS_HIGH[i].hi < PY_ROWS_HIGH[i + 1].lo
  {
  }

  lemma AdjacentHalves(low: seq<Row>, high: seq<Row>)
    requires |low| == |high| == 23 && low[22].hi < high[0].lo
    requires forall i | 0 <= i < 23 :: 0 <= low[i].lo <= low[i].hi && 0 <= high[i].lo <= high[i].hi
    requires forall i | 0 <= i < 22 :: low[i].hi < low[i + 1].lo && high[i].hi < high[i + 1].lo
    ensures Ascending(low + high)
  {
    AdjacentRowsSuffice(low + high);
  }

  lemma UsableByRow(rows: seq<Row>, i: nat)
    requires Ascending(rows) && i < |rows| && rows[i] == Row(0xFE0E, 0xFE0F, VsAfterSymbol)
    ensures Usable(rows)
  {
    LinearIsTheRow(rows, VS16, i);
  }

  lemma GoTableIsUsable()
    ensures Usable(GO_ROWS) && HasContextRows(GO_ROWS)
  {
    GoRowsAreAdjacent();
    AdjacentRowsSuffice(GO_ROWS);
    UsableByRow(GO_ROWS, 26);
  }

  lemma PyTableIsUsable()
    ensures Usable(PY_ROWS)
  {
    PyRowsAreAdjacent();
    AdjacentHalves(PY_ROWS_LOW, PY_ROWS_HIGH);
    UsableByRow(PY_ROWS, 35);
  }

  /** `lookup` of the Go scanner, with the loop of sort.Search. */
  method GoLookup(rows: seq<Row>, cp: int) returns (r: Option<Row>)
    requires Ascending(rows)
    ensures r == Linear(rows, cp)
  {
    var i, j := 0, |rows|;
    while i < j
      invariant 0 <= i <= j <= |rows|
      invariant forall k | 0 <= k < i :: rows[k].hi < cp
      invariant forall k | j <= k < |rows| :: rows[k].hi >= cp
    {
      var h := (i + j) / 2;
      if rows[h].hi >= cp { j := h; } else { i := h + 1; }
    }
    if i < |rows| && rows[i].lo <= cp {
      LinearIsTheRow(rows, cp, i);
      return Some(rows[i]);
    }
    return None;
  }

  /** `Table.lookup` of the Python scanner, with the loop of bisect_right over the lower ends. */
  method PyLookup(rows: seq<Row>, cp: int) returns (r: Option<Row>)
    requires Ascending(rows)
    ensures r == Linear(rows, cp)
  {
    var lo, hi := 0, |rows|;
    while lo < hi
      invariant 0 <= lo <= hi <= |rows|
      invariant forall k | 0 <= k < lo :: rows[k].lo <= cp
      invariant forall k | hi <= k < |rows| :: cp < rows[k].lo
    {
      var mid := (lo + hi) / 2;
      if cp < rows[mid].lo { hi := mid; } else { lo := mid + 1; }
    }
    var i := lo - 1;
    if i >= 0 && cp <= rows[i].hi {
      LinearIsTheRow(rows, cp, i);
      return Some(rows[i]);
    }
    return None;
  }

  // ---- the declarative rule -------------------------------------------------

  /** The row of a rune: in Go the bidi controls come first, and only if asked for. */
  function GoRow(rows: seq<Row>, withBidi: bool, cp: int): Option<Row> {
    if withBidi && cp in BIDI then Some(Row(cp, cp, Bidi)) else Linear(rows, cp)
  }

  function PyRow(rows: seq<Row>, cp: int): Option<Row> {
    if cp >= 0 then Linear(rows, cp) else None
  }

  predicate IsSymbol(so: int -> bool, cp: int) { cp >= 0x80 && so(cp) }

  predicate SymbolAt(so: int -> bool, cps: seq<int>, i: int) {
    0 <= i < |cps| && IsSymbol(so, cps[i])
  }

  /** A U+FE0F that stands where it may: directly after a symbol. */
  predicate AllowedVS16At(so: int -> bool, cps: seq<int>, i: int) {
    0 <= i < |cps| && cps[i] == VS16 && SymbolAt(so, cps, i - 1)
  }

  /** What is wrong with the rune at i, judged from its neighbours alone. */
  function Judge(so: int -> bool, row: Option<Row>, cps: seq<int>, i: nat): Option<Why>
    requires i < |cps|
  {
    if row.None? then None
    else match row.value.rule
      case Always => Some(Forbidden)
      case Bidi => Some(Forbidden)
      case VsAfterSymbol =>
        if SymbolAt(so, cps, i - 1) then None
        else if i > 0 && InRanges(cps[i - 1], SELECTORS) then Some(SecondSelector)
        else Some(NotAfterSymbol)
      case ZwjInEmoji =>
        if && (|| SymbolAt(so, cps, i - 1)
               || (i > 0 && InRanges(cps[i - 1], SKIN))
               || AllowedVS16At(so, cps, i - 1))
           && SymbolAt(so, cps, i + 1)
        then None else Some(NotBetweenSymbols)
      case BomAtStart => if i == 0 then None else Some(NotAtStart)
      case LoneCR => if i + 1 < |cps| && cps[i + 1] == LF then None else Some(NotBeforeLF)
  }

  /** The line of position i, counted from 1. */
  function Line(cps: seq<int>, i: nat): nat
    requires i <= |cps|
  {
    if i == 0 then 1 else Line(cps, i - 1) + if cps[i - 1] == LF then 1 else 0
  }

  /** Its column: the runes since the last LF, counted from 1. */
  function Col(cps: seq<int>, i: nat): nat
    requires i <= |cps|
  {
    if i == 0 || cps[i - 1] == LF then 1 else Col(cps, i - 1) + 1
  }

  /** The findings among the first n runes, in order, under a row classifier. */
  function Findings(so: int -> bool, rowOf: int -> Option<Row>, cps: seq<int>, n: nat): seq<Finding>
    requires n <= |cps|
  {
    if n == 0 then []
    else
      var i := n - 1;
      var verdict := Judge(so, rowOf(cps[i]), cps, i);
      Findings(so, rowOf, cps, i)
      + if verdict.Some? then [Finding(Line(cps, i), Col(cps, i), cps[i], verdict.value)] else []
  }

  function GoFindings(so: int -> bool, rows: seq<Row>, text: seq<Byte>, withBidi: bool): seq<Finding> {
    var cps := Runes(text);
    Findings(so, cp => GoRow(rows, withBidi, cp), cps, |cps|)
  }

  /** `Hidden`: the table and the bidi controls in one pass. */
  function Hidden(so: int -> bool, text: seq<Byte>): seq<Finding> { GoFindings(so, GO_ROWS, text, true) }

  function PyFindings(so: int -> bool, rows: seq<Row>, text: seq<Byte>): seq<Finding> {
    var cps := UnescapeAll(SurrogateEscape(text));
    Findings(so, cp => PyRow(rows, cp), cps, |cps|)
  }

  // ---- the two scanners -----------------------------------------------------

  /** One step of `scan` of the Go package: the verdict on the rune r of width w at byte i, from
      the previous rune, the flag kept for it and the bytes that follow. */
  method GoJudge(so: int -> bool, rows: seq<Row>, withBidi: bool, text: seq<Byte>, i: nat, r: int, w: nat,
                 prev: int, prevAllowedVS: bool, ghost cps: seq<int>, ghost n: nat)
    returns (verdict: Option<Why>, allowedVS: bool)
    requires Usable(rows)
    requires i + w <= |text| && n < |cps| && (i == 0) == (n == 0)
    requires cps[n] == r && cps[n + 1..] == Runes(text[i + w..])
    requires prev == if n == 0 then -1 else cps[n - 1]
    requires prevAllowedVS == AllowedVS16At(so, cps, n - 1)
    ensures verdict == Judge(so, GoRow(rows, withBidi, r), cps, n)
    ensures allowedVS == AllowedVS16At(so, cps, n)
  {
    NextRune(text[i + w..]);
    assert n + 1 < |cps| ==> cps[n + 1] == cps[n + 1..][0];
    verdict, allowedVS := None, false;
    if withBidi && r in BIDI {
      return Some(Forbidden), false;
    }
    var row := GoLookup(rows, r);
    if row.Some? {
      match row.value.rule {
        case Always => verdict := Some(Forbidden);
        case VsAfterSymbol =>
          if IsSymbol(so, prev) {
            allowedVS := r == VS16;
          } else if InRanges(prev, SELECTORS) {
            verdict := Some(SecondSelector);
          } else {
            verdict := Some(NotAfterSymbol);
          }
        case ZwjInEmoji =>
          var (next, nw) := DecodeRune(text[i + w..]);
          var nextIsSymbol := nw > 0 && !(next == RUNE_ERROR && nw == 1) && IsSymbol(so, next);
          var before := IsSymbol(so, prev) || InRanges(prev, SKIN) || (prev == VS16 && prevAllowedVS);
          if !before || !nextIsSymbol {
            verdict := Some(NotBetweenSymbols);
          }
        case BomAtStart =>
          if i != 0 {
            verdict := Some(NotAtStart);
          }
        case LoneCR =>
          if i + w >= |text| || text[i + w] != LF {
            verdict := Some(NotBeforeLF);
          }
        case Bidi => verdict := Some(Forbidden);
      }
    }
  }

  /** What one more rune does to the place and to the findings. */
  lemma OneMoreRune(so: int -> bool, rowOf: int -> Option<Row>, cps: seq<int>, n: nat, verdict: Option<Why>)
    requires n < |cps| && verdict == Judge(so, rowOf(cps[n]), cps, n)
    ensures Line(cps, n + 1) == Line(cps, n) + if cps[n] == LF then 1 else 0
    ensures Col(cps, n + 1) == if cps[n] == LF then 1 else Col(cps, n) + 1
    ensures Findings(so, rowOf, cps, n + 1)
            == Findings(so, rowOf, cps, n)
               + if verdict.Some? then [Finding(Line(cps, n), Col(cps, n), cps[n], verdict.value)] else []
  {
  }

  /** The rune decoded at byte i is the next of the text. */
  lemma RuneAt(text: seq<Byte>, i: nat, cps: seq<int>, n: nat)
    requires i < |text| && n <= |cps| && cps[n..] == Runes(text[i..])
    ensures var (r, w) := DecodeRune(text[i..]);
            && w > 0 && i + w <= |text| && n < |cps|
            && cps[n] == (if r == RUNE_ERROR && w == 1 then INVALID else r)
            && cps[n + 1..] == Runes(text[i + w..])
  {
    var (r, w) := DecodeRune(text[i..]);
    DecodeRuneIsFirstRune(text[i..]);
    assert text[i..][w..] == text[i + w..];
    assert cps[n..][0] == cps[n] && cps[n..][1..] == cps[n + 1..];
  }

  /** Where the loop stands: byte i is rune n, and every variable says what the rule says there. */
  ghost predicate Standing(so: int -> bool, rows: seq<Row>, withBidi: bool, text: seq<Byte>, cps: seq<int>, i: nat,
                           n: nat,
                           prev: int, prevAllowedVS: bool) {
    && i <= |text| && n <= |cps| && (i == 0) == (n == 0)
    && cps[n..] == Runes(text[i..])
    && prev == (if n == 0 then -1 else cps[n - 1])
    && prevAllowedVS == AllowedVS16At(so, cps, n - 1)
  }

  /** One rune of `scan`: decode it and judge it. */
  method GoStep(so: int -> bool, rows: seq<Row>, withBidi: bool, text: seq<Byte>, i: nat, prev: int,
                prevAllowedVS: bool,
                ghost cps: seq<int>, ghost n: nat)
    returns (r: int, w: nat, verdict: Option<Why>, allowedVS: bool)
    requires Usable(rows) && i < |text| && Standing(so, rows, withBidi, text, cps, i, n, prev, prevAllowedVS)
    ensures w > 0 && n < |cps| && r == cps[n] && verdict == Judge(so, GoRow(rows, withBidi, cps[n]), cps, n)
    ensures Standing(so, rows, withBidi, text, cps, i + w, n + 1, r, allowedVS)
  {
    RuneAt(text, i, cps, n);
    var (rune, width) := DecodeRune(text[i..]);
    r, w := rune, width;
    if r == RUNE_ERROR && w == 1 {
      r := INVALID;
    }
    verdict, allowedVS := GoJudge(so, rows, withBidi, text, i, r, w, prev, prevAllowedVS, cps, n);
  }

  ghost predicate Told(so: int -> bool, rowOf: int -> Option<Row>, cps: seq<int>, n: nat, out: seq<Finding>,
                       line: nat, col: nat) {
    n <= |cps| && out == Findings(so, rowOf, cps, n) && line == Line(cps, n) && col == Col(cps, n)
  }

  /** The rest of a turn of `scan`: append the finding, move the place. */
  method Tell(so: int -> bool, ghost rowOf: int -> Option<Row>, ghost cps: seq<int>, ghost n: nat, r: int,
              verdict: Option<Why>,
              before: seq<Finding>, line0: nat, col0: nat)
    returns (out: seq<Finding>, line: nat, col: nat)
    requires n < |cps| && r == cps[n] && verdict == Judge(so, rowOf(cps[n]), cps, n)
    requires Told(so, rowOf, cps, n, before, line0, col0)
    ensures Told(so, rowOf, cps, n + 1, out, line, col)
  {
    OneMoreRune(so, rowOf, cps, n, verdict);
    out := if verdict.Some? then before + [Finding(line0, col0, r, verdict.value)] else before;
    if r == LF {
      line, col := line0 + 1, 1;
    } else {
      line, col := line0, col0 + 1;
    }
  }

  lemma StandingAtTheEnd(so: int -> bool, rows: seq<Row>, withBidi: bool, text: seq<Byte>, cps: seq<int>, i: nat,
                         n: nat,
                         prev: int, prevAllowedVS: bool)
    requires Standing(so, rows, withBidi, text, cps, i, n, prev, prevAllowedVS) && i >= |text|
    ensures n == |cps|
  {
  }

  lemma StandingAtTheStart(so: int -> bool, rows: seq<Row>, withBidi: bool, text: seq<Byte>, cps: seq<int>)
    requires cps == Runes(text)
    ensures Standing(so, rows, withBidi, text, cps, 0, 0, -1, false)
  {
    assert cps[0..] == cps && text[0..] == text;
  }

  /** The loop of `scan`: one streaming pass over the bytes. */
  method ScanBytes(so: int -> bool, rows: seq<Row>, text: seq<Byte>, withBidi: bool, ghost cps: seq<int>,
                   ghost rowOf: int -> Option<Row>)
    returns (out: seq<Finding>)
    requires Usable(rows) && cps == Runes(text) && forall cp :: rowOf(cp) == GoRow(rows, withBidi, cp)
    ensures out == Findings(so, rowOf, cps, |cps|)
  {
    ghost var n := 0;
    out := [];
    var line, col := 1, 1;
    var prev, prevAllowedVS := -1, false;
    var i := 0;
    StandingAtTheStart(so, rows, withBidi, text, cps);
    while i < |text|
      invariant Standing(so, rows, withBidi, text, cps, i, n, prev, prevAllowedVS)
      invariant Told(so, rowOf, cps, n, out, line, col)
      decreases |text| - i
    {
      var r, w, verdict, allowedVS := GoStep(so, rows, withBidi, text, i, prev, prevAllowedVS, cps, n);
      out, line, col := Tell(so, rowOf, cps, n, r, verdict, out, line, col);
      prev, prevAllowedVS := r, allowedVS;
      i := i + w;
      n := n + 1;
    }
    StandingAtTheEnd(so, rows, withBidi, text, cps, i, n, prev, prevAllowedVS);
  }

  /** `scan` of the Go package. */
  method GoScan(so: int -> bool, rows: seq<Row>, text: seq<Byte>, withBidi: bool) returns (out: seq<Finding>)
    requires Usable(rows)
    ensures out == GoFindings(so, rows, text, withBidi)
  {
    out := ScanBytes(so, rows, text, withBidi, Runes(text), cp => GoRow(rows, withBidi, cp));
  }

  /** `Hidden` over the package's own table. */
  method HiddenScan(so: int -> bool, text: seq<Byte>) returns (out: seq<Finding>)
    ensures out == Hidden(so, text)
  {
    GoTableIsUsable();
    out := GoScan(so, GO_ROWS, text, true);
  }

  /** Go's look-ahead at the bytes after a rune sees the rune that follows. */
  lemma NextRune(rest: seq<Byte>)
    ensures var (next, nw) := DecodeRune(rest);
            rest != [] ==> Runes(rest)[0] == if next == RUNE_ERROR && nw == 1 then INVALID else next
    ensures rest != [] ==> (rest[0] == LF <==> Runes(rest)[0] == LF)
  {
    if rest != [] { DecodeRuneIsFirstRune(rest); }
  }

  /** The verdict of the Python pass on code point i, from the previous one, its flag and the next. */
  method PyJudge(so: int -> bool, rows: seq<Row>, cps: seq<int>, i: nat, prev: int, prevAllowedVS: bool)
    returns (verdict: Option<Why>, allowedVS: bool)
    requires Usable(rows) && i < |cps|
    requires prev == if i == 0 then -1 else cps[i - 1]
    requires prevAllowedVS == AllowedVS16At(so, cps, i - 1)
    ensures verdict == Judge(so, PyRow(rows, cps[i]), cps, i) && allowedVS == AllowedVS16At(so, cps, i)
  {
    var r := cps[i];
    verdict, allowedVS := None, false;
    var row := None;
    if r >= 0 {
      row := PyLookup(rows, r);
    }
    if row.Some? {
      match row.value.rule {
        case Always => verdict := Some(Forbidden);
        case Bidi => verdict := Some(Forbidden);
        case VsAfterSymbol =>
          if IsSymbol(so, prev) {
            allowedVS := r == VS16;
          } else if prev >= 0 && InRanges(prev, SELECTORS) {
            verdict := Some(SecondSelector);
          } else {
            verdict := Some(NotAfterSymbol);
          }
        case ZwjInEmoji =>
          var next := if i + 1 < |cps| then cps[i + 1] else INVALID;
          var nextIsSymbol := next >= 0 && IsSymbol(so, next);
          var before := IsSymbol(so, prev) || (prev >= 0 && InRanges(prev, SKIN)) || (prev == VS16 && prevAllowedVS);
          if !before || !nextIsSymbol {
            verdict := Some(NotBetweenSymbols);
          }
        case BomAtStart =>
          if i != 0 {
            verdict := Some(NotAtStart);
          }
        case LoneCR =>
          if i + 1 >= |cps| || cps[i + 1] != LF {
            verdict := Some(NotBeforeLF);
          }
      }
    }
  }

  /** `scan` of the Python reference: decode, then one pass over the code points. */
  method PyScan(so: int -> bool, rows: seq<Row>, text: seq<Byte>) returns (out: seq<Finding>)
    requires Usable(rows)
    ensures out == PyFindings(so, rows, text)
  {
    var cps := UnescapeAll(SurrogateEscape(text));
    ghost var rowOf := cp => PyRow(rows, cp);
    out := [];
    var line, col := 1, 1;
    var prev, prevAllowedVS := -1, false;
    for i := 0 to |cps|
      invariant Told(so, rowOf, cps, i, out, line, col)
      invariant prev == if i == 0 then -1 else cps[i - 1]
      invariant prevAllowedVS == AllowedVS16At(so, cps, i - 1)
    {
      var verdict, allowedVS := PyJudge(so, rows, cps, i, prev, prevAllowedVS);
      out, line, col := Tell(so, rowOf, cps, i, cps[i], verdict, out, line, col);
      prev, prevAllowedVS := cps[i], allowedVS;
    }
  }

  // ---- one definition -------------------------------------------------------

  /** The tsv holds exactly the rows of invisibleRanges and one bidi row per control. */
  lemma TablesHoldTheSameRows(r: Row)
    ensures r in PY_ROWS <==> r in GO_ROWS || (r.rule == Bidi && r.lo == r.hi && r.lo in BIDI)
  {
  }

  /** Two ascending tables that hold the same rows, bidi rows aside, classify alike. */
  lemma RowsAgree(goRows: seq<Row>, pyRows: seq<Row>, cp: int)
    requires Ascending(goRows) && Ascending(pyRows)
    requires forall r :: r in pyRows <==> r in goRows || (r.rule == Bidi && r.lo == r.hi && r.lo in BIDI)
    requires cp >= 0 || cp == INVALID
    ensures PyRow(pyRows, cp) == GoRow(goRows, true, cp)
  {
    var go, py := GoRow(goRows, true, cp), PyRow(pyRows, cp);
    if cp >= 0 && go.Some? {
      assert go.value in pyRows;
      var i :| 0 <= i < |pyRows| && pyRows[i] == go.value;
      LinearIsTheRow(pyRows, cp, i);
    }
  }

  lemma {:induction false} SameRowsSameFindings(so: int -> bool, a: int -> Option<Row>, b: int -> Option<Row>,
                                                cps: seq<int>, n: nat)
    requires n <= |cps|
    requires forall i | 0 <= i < n :: a(cps[i]) == b(cps[i])
    ensures Findings(so, a, cps, n) == Findings(so, b, cps, n)
  {
    if n > 0 { SameRowsSameFindings(so, a, b, cps, n - 1); }
  }

  /** The two implementations are one definition, on every byte string. */
  lemma ScannersAgree(so: int -> bool, text: seq<Byte>)
    ensures PyFindings(so, PY_ROWS, text) == Hidden(so, text)
  {
    PythonDecodesTheSameRunes(text);
    GoTableIsUsable();
    PyTableIsUsable();
    forall r ensures r in PY_ROWS <==> r in GO_ROWS || (r.rule == Bidi && r.lo == r.hi && r.lo in BIDI) {
      TablesHoldTheSameRows(r);
    }
    ScannersAgreeOn(so, GO_ROWS, PY_ROWS, text);
  }

  lemma ScannersAgreeOn(so: int -> bool, goRows: seq<Row>, pyRows: seq<Row>, text: seq<Byte>)
    requires Ascending(goRows) && Ascending(pyRows)
    requires forall r :: r in pyRows <==> r in goRows || (r.rule == Bidi && r.lo == r.hi && r.lo in BIDI)
    ensures PyFindings(so, pyRows, text) == GoFindings(so, goRows, text, true)
  {
    PythonDecodesTheSameRunes(text);
    var cps := Runes(text);
    forall i | 0 <= i < |cps| ensures PyRow(pyRows, cps[i]) == GoRow(goRows, true, cps[i]) {
      RowsAgree(goRows, pyRows, cps[i]);
    }
    SameRowsSameFindings(so, cp => PyRow(pyRows, cp), cp => GoRow(goRows, true, cp), cps, |cps|);
  }

  // ---- what the findings are ------------------------------------------------

  /** A line and a column name one position: no two findings share both. */
  lemma {:induction false} PositionIsUnique(cps: seq<int>, i: nat, j: nat)
    requires i < j <= |cps|
    ensures Line(cps, i) <= Line(cps, j)
    ensures Line(cps, i) == Line(cps, j) ==> Col(cps, j) == Col(cps, i) + (j - i)
  {
    if i + 1 < j { PositionIsUnique(cps, i, j - 1); }
  }

  ghost predicate BadAt(so: int -> bool, rowOf: int -> Option<Row>, cps: seq<int>, i: nat) {
    i < |cps| && Judge(so, rowOf(cps[i]), cps, i).Some?
  }

  /** Nothing is found iff no rune is out of place. */
  lemma {:induction false} CleanIffNoBadRune(so: int -> bool, rowOf: int -> Option<Row>, cps: seq<int>, n: nat)
    requires n <= |cps|
    ensures Findings(so, rowOf, cps, n) == [] <==> forall i: nat | i < n :: !BadAt(so, rowOf, cps, i)
  {
    if n > 0 {
      CleanIffNoBadRune(so, rowOf, cps, n - 1);
      assert BadAt(so, rowOf, cps, n - 1) <==> Judge(so, rowOf(cps[n - 1]), cps, n - 1).Some?;
    }
  }

  // ---- the capacity bound ---------------------------------------------------

  function Count(p: int -> bool, cps: seq<int>, n: nat): nat
    requires n <= |cps|
  {
    if n == 0 then 0 else Count(p, cps, n - 1) + if p(cps[n - 1]) then 1 else 0
  }

  function Symbols(so: int -> bool, cps: seq<int>, n: nat): nat
    requires n <= |cps|
  {
    Count(cp => IsSymbol(so, cp), cps, n)
  }

  const IS_SELECTOR := (cp: int) => cp == 0xFE0E || cp == VS16
  const IS_ZWJ := (cp: int) => cp == ZWJ
  const IS_BOM := (cp: int) => cp == BOM
  const IS_CR := (cp: int) => cp == CR
  const IS_LF := (cp: int) => cp == LF

  ghost predicate InPlaceAt(so: int -> bool, cps: seq<int>, i: nat)
    requires i < |cps|
  {
    && (IS_SELECTOR(cps[i]) ==> SymbolAt(so, cps, i - 1))
    && (cps[i] == ZWJ ==> SymbolAt(so, cps, i + 1))
    && (cps[i] == BOM ==> i == 0)
    && (cps[i] == CR ==> i + 1 < |cps| && cps[i + 1] == LF)
  }

  /** In a clean text every context rune stands in its one legitimate place. */
  ghost predicate InPlace(so: int -> bool, cps: seq<int>) {
    forall i | 0 <= i < |cps| :: InPlaceAt(so, cps, i)
  }

  lemma RuleOf(rows: seq<Row>, cp: int, i: nat)
    requires Ascending(rows) && i < |rows| && rows[i].lo <= cp <= rows[i].hi && cp !in BIDI
    ensures GoRow(rows, true, cp) == Some(rows[i])
  {
    LinearIsTheRow(rows, cp, i);
  }

  lemma NotBadIsInPlace(so: int -> bool, rows: seq<Row>, cps: seq<int>, i: nat)
    requires Ascending(rows) && HasContextRows(rows)
    requires i < |cps| && Judge(so, GoRow(rows, true, cps[i]), cps, i) == None
    ensures InPlaceAt(so, cps, i)
  {
    RuleOf(rows, CR, 2);
    RuleOf(rows, ZWJ, 19);
    RuleOf(rows, 0xFE0E, 26);
    RuleOf(rows, VS16, 26);
    RuleOf(rows, BOM, 27);
  }

  lemma CleanIsInPlace(so: int -> bool, rows: seq<Row>, text: seq<Byte>)
    requires Ascending(rows) && HasContextRows(rows)
    requires GoFindings(so, rows, text, true) == []
    ensures InPlace(so, Runes(text))
  {
    var cps := Runes(text);
    var rowOf := cp => GoRow(rows, true, cp);
    CleanIffNoBadRune(so, rowOf, cps, |cps|);
    forall i: nat | i < |cps| ensures InPlaceAt(so, cps, i) {
      assert !BadAt(so, rowOf, cps, i);
      NotBadIsInPlace(so, rows, cps, i);
    }
  }

  lemma {:induction false} SelectorsFollowSymbols(so: int -> bool, cps: seq<int>, n: nat)
    requires InPlace(so, cps) && n <= |cps|
    ensures Count(IS_SELECTOR, cps, n) <= Symbols(so, cps, if n == 0 then 0 else n - 1)
  {
    if n > 0 {
      assert InPlaceAt(so, cps, n - 1);
      if n > 1 { SelectorsFollowSymbols(so, cps, n - 1); }
    }
  }

  lemma {:induction false} JoinersPrecedeSymbols(so: int -> bool, cps: seq<int>, n: nat)
    requires InPlace(so, cps) && n <= |cps|
    ensures Count(IS_ZWJ, cps, n) <= Symbols(so, cps, if n < |cps| then n + 1 else n)
  {
    if n > 0 {
      assert InPlaceAt(so, cps, n - 1);
      JoinersPrecedeSymbols(so, cps, n - 1);
    }
  }

  lemma {:induction false} ReturnsPrecedeFeeds(so: int -> bool, cps: seq<int>, n: nat)
    requires InPlace(so, cps) && n <= |cps|
    ensures Count(IS_CR, cps, n) <= Count(IS_LF, cps, if n < |cps| then n + 1 else n)
  {
    if n > 0 {
      assert InPlaceAt(so, cps, n - 1);
      ReturnsPrecedeFeeds(so, cps, n - 1);
      assert IS_CR(cps[n - 1]) <==> cps[n - 1] == CR;
      assert n < |cps| ==> (IS_LF(cps[n]) <==> cps[n] == LF);
    }
  }

  lemma {:induction false} OneMarkAtMost(so: int -> bool, cps: seq<int>, n: nat)
    requires InPlace(so, cps) && n <= |cps|
    ensures Count(IS_BOM, cps, n) <= if n == 0 then 0 else 1
  {
    if n > 0 {
      assert InPlaceAt(so, cps, n - 1);
      OneMarkAtMost(so, cps, n - 1);
    }
  }

  lemma {:induction false} CountMonotone(p: int -> bool, cps: seq<int>, m: nat, n: nat)
    requires m <= n <= |cps|
    ensures Count(p, cps, m) <= Count(p, cps, n)
  {
    if m < n { CountMonotone(p, cps, m, n - 1); }
  }

  /** A text in which Hidden finds nothing carries at most one variation selector and at most
      one joiner per visible symbol, one byte order mark, and one CR per LF. */
  lemma CapacityBound(so: int -> bool, text: seq<Byte>)
    requires Hidden(so, text) == []
    ensures var cps := Runes(text); var n := |cps|; var symbols := Symbols(so, cps, n);
            && Count(IS_SELECTOR, cps, n) <= symbols
            && Count(IS_ZWJ, cps, n) <= symbols
            && Count(IS_BOM, cps, n) <= 1
            && Count(IS_CR, cps, n) <= Count(IS_LF, cps, n)
  {
    var cps := Runes(text);
    GoTableIsUsable();
    CleanIsInPlace(so, GO_ROWS, text);
    InPlaceBounds(so, cps);
  }

  lemma InPlaceBounds(so: int -> bool, cps: seq<int>)
    requires InPlace(so, cps)
    ensures var n := |cps|; var symbols := Symbols(so, cps, n);
            && Count(IS_SELECTOR, cps, n) <= symbols
            && Count(IS_ZWJ, cps, n) <= symbols
            && Count(IS_BOM, cps, n) <= 1
            && Count(IS_CR, cps, n) <= Count(IS_LF, cps, n)
  {
    var n := |cps|;
    SelectorsFollowSymbols(so, cps, n);
    CountMonotone(cp => IsSymbol(so, cp), cps, if n == 0 then 0 else n - 1, n);
    JoinersPrecedeSymbols(so, cps, n);
    OneMarkAtMost(so, cps, n);
    ReturnsPrecedeFeeds(so, cps, n);
  }

  const SUN: seq<Byte> := [0xE2, 0x98, 0x80]
  const SELECTOR: seq<Byte> := [0xEF, 0xB8, 0x8F]
  const JOINER: seq<Byte> := [0xE2, 0x80, 0x8D]
  const SUNS: seq<Byte> := SUN + (SELECTOR + (JOINER + (SUN + (SELECTOR + []))))

  lemma ThreeByteRune(s: seq<Byte>, rest: seq<Byte>)
    requires |s| == 3 && Width(s) == 3
    ensures Runes(s + rest) == [Scalar(s)] + Runes(rest)
  {
    assert (s + rest)[3..] == rest;
  }

  lemma SunsDecode()
    ensures Runes(SUNS) == [0x2600, VS16, ZWJ, 0x2600, VS16]
  {
    ThreeByteRune(SELECTOR, []);
    ThreeByteRune(SUN, SELECTOR + []);
    ThreeByteRune(JOINER, SUN + (SELECTOR + []));
    ThreeByteRune(SELECTOR, JOINER + (SUN + (SELECTOR + [])));
    ThreeByteRune(SUN, SELECTOR + (JOINER + (SUN + (SELECTOR + []))));
  }

  /** "One visible symbol per invisible rune" fails for the two kinds together: sun, selector,
      joiner, sun, selector is clean and holds three invisible runes on two symbols. */
  lemma InvisibleRunesCanOutnumberSymbols()
    ensures var so := (cp: int) => cp == 0x2600; var cps := Runes(SUNS);
            && Hidden(so, SUNS) == []
            && Count(IS_SELECTOR, cps, |cps|) + Count(IS_ZWJ, cps, |cps|) > Symbols(so, cps, |cps|)
  {
    var so := (cp: int) => cp == 0x2600;
    SunsDecode();
    GoTableIsUsable();
    EmojiIsClean(so, GO_ROWS, Runes(SUNS));
    EmojiCounts(so, Runes(SUNS));
  }

  lemma EmojiCounts(so: int -> bool, cps: seq<int>)
    requires cps == [0x2600, VS16, ZWJ, 0x2600, VS16]
    requires forall cp :: so(cp) <==> cp == 0x2600
    ensures Count(IS_SELECTOR, cps, 5) == 2 && Count(IS_ZWJ, cps, 5) == 1 && Symbols(so, cps, 5) == 2
  {
    assert Symbols(so, cps, 0) == 0;
    assert IsSymbol(so, cps[0]) && !IsSymbol(so, cps[1]);
    assert Symbols(so, cps, 1) == 1;
    assert Symbols(so, cps, 2) == 1;
    assert Symbols(so, cps, 3) == 1;
    assert Symbols(so, cps, 4) == 2;
    assert Count(IS_SELECTOR, cps, 1) == 0 && Count(IS_SELECTOR, cps, 2) == 1 && Count(IS_SELECTOR, cps, 3) == 1;
    assert Count(IS_ZWJ, cps, 1) == 0 && Count(IS_ZWJ, cps, 2) == 0 && Count(IS_ZWJ, cps, 3) == 1;
  }

  lemma GapHasNoRow(rows: seq<Row>, cp: int, i: nat)
    requires Ascending(rows) && i + 1 < |rows| && rows[i].hi < cp < rows[i + 1].lo
    ensures Linear(rows, cp) == None
  {
    forall r | r in rows ensures !(r.lo <= cp <= r.hi) {
      var j :| 0 <= j < |rows| && rows[j] == r;
    }
  }

  lemma EmojiIsClean(so: int -> bool, rows: seq<Row>, cps: seq<int>)
    requires Ascending(rows) && HasContextRows(rows)
    requires so(0x2600) && cps == [0x2600, VS16, ZWJ, 0x2600, VS16]
    ensures Findings(so, cp => GoRow(rows, true, cp), cps, 5) == []
  {
    GapHasNoRow(rows, 0x2600, 23);
    RuleOf(rows, ZWJ, 19);
    RuleOf(rows, VS16, 26);
    var rowOf := cp => GoRow(rows, true, cp);
    forall i: nat | i < 5 ensures !BadAt(so, rowOf, cps, i) {}
    CleanIffNoBadRune(so, rowOf, cps, 5);
  }
}
