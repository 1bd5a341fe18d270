/** The parser half of the chart reader: three mutually recursive functions over the entry list.
    A sequence item is parsed again from a rewritten list of the same length, so the measure is
    the number of content characters left, then the rank of the function. */
module ChartParse {
  import opened ChartText
  import opened Wrappers

  datatype Value = VNone | VStr(s: string) | VList(items: seq<Value>) | VMap(m: map<string, Value>)

  /** A parsed value and the entries that are left. */
  datatype Parse<+T> = Got(value: T, rest: seq<Entry>) | Fail

  predicate IsDash(c: string) { c == "-" || StartsWithDash(c) }

  predicate IsDashLine(e: Entry) { e.Line? && IsDash(e.content) }

  predicate IsHeader(c: string) { MatchHeader(Strip(c)).Some? }

  // ---- the termination measure ----------------------------------------------

  function Size(e: Entry): nat { if e.Line? then 1 + |e.content| else 1 }

  function Weight(ls: seq<Entry>): nat { if ls == [] then 0 else Size(ls[0]) + Weight(ls[1..]) }

  lemma {:induction false} WeightOfPrefix(ls: seq<Entry>, k: nat)
    requires k <= |ls|
    ensures Weight(ls[..k]) + Weight(ls[k..]) == Weight(ls)
    ensures k > 0 ==> Weight(ls[k..]) < Weight(ls)
  {
    if k > 0 {
      WeightOfPrefix(ls[1..], k - 1);
      assert ls[..k][1..] == ls[1..][..k - 1] && ls[1..][k - 1..] == ls[k..];
    } else {
      assert ls[..0] == [];
    }
  }

  /** The number of entries at the head that are deeper than n. */
  function Deeper(ls: seq<Entry>, n: nat): (k: nat)
    ensures k <= |ls|
    ensures forall i | 0 <= i < k :: ls[i].indent > n
    ensures k < |ls| ==> ls[k].indent <= n
  {
    if ls != [] && ls[0].indent > n then 1 + Deeper(ls[1..], n) else 0
  }

  /** The list a sequence item is parsed from: the dash dropped, and every deeper entry. */
  function ItemLines(ls: seq<Entry>, n: nat): (item: seq<Entry>)
    requires ls != [] && ls[0].Line? && StartsWithDash(ls[0].content)
    ensures item != [] && |item| <= |ls| && Weight(item) + 2 <= Weight(ls)
  {
    var k := Deeper(ls[1..], n);
    var item := [Line(n + 2, ls[0].content[2..])] + ls[1..1 + k];
    WeightOfPrefix(ls[1..], k);
    assert item[1..] == ls[1..][..k];
    item
  }

  // ---- the parser -----------------------------------------------------------

  predicate SuffixOf(rest: seq<Entry>, ls: seq<Entry>) {
    |rest| <= |ls| && rest == ls[|ls| - |rest|..]
  }

  lemma SuffixWeighsLess(rest: seq<Entry>, ls: seq<Entry>)
    requires SuffixOf(rest, ls) && |rest| < |ls|
    ensures Weight(rest) < Weight(ls)
  {
    WeightOfPrefix(ls, |ls| - |rest|);
  }

  function TakeBlockBody(ls: seq<Entry>): Parse<Value> {
    if ls == [] || ls[0].Line? then Fail else Got(VStr(ls[0].text), ls[1..])
  }

  function ParseBlock(ls: seq<Entry>, n: nat): (r: Parse<Value>)
    ensures r.Got? ==> SuffixOf(r.rest, ls) && |r.rest| < |ls|
    decreases Weight(ls), 1
  {
    if ls == [] || ls[0].indent != n || ls[0].Body? then Fail
    else
      var content := ls[0].content;
      if IsDash(content) then
        var r := ParseSequence(ls, n);
        if r.Fail? then Fail else Got(VList(r.value), r.rest)
      else if KeyColon(content).Some? then
        var r := ParseMapping(ls, n);
        if r.Fail? then Fail else Got(VMap(r.value), r.rest)
      else if IsHeader(content) then TakeBlockBody(ls[1..])
      else if |ls| > 1 && ls[1].indent >= n then Fail
      else Got(VStr(ParseScalar(content)), ls[1..])
  }

  function ParseSequence(ls: seq<Entry>, n: nat): (r: Parse<seq<Value>>)
    ensures r.Got? ==> SuffixOf(r.rest, ls)
    ensures r.Got? && ls != [] && ls[0].indent == n && IsDashLine(ls[0]) ==> |r.rest| < |ls|
    decreases Weight(ls), 0
  {
    if ls == [] || ls[0].indent != n || !IsDashLine(ls[0]) then Got([], ls)
    else
      var item := ParseItem(ls, n);
      if item.Fail? then Fail
      else
        SuffixWeighsLess(item.rest, ls);
        var more := ParseSequence(item.rest, n);
        if more.Fail? then Fail else Got([item.value] + more.value, more.rest)
  }

  /** One turn of the loop of `_parse_sequence`. */
  function ParseItem(ls: seq<Entry>, n: nat): (r: Parse<Value>)
    requires ls != [] && IsDashLine(ls[0])
    ensures r.Got? ==> SuffixOf(r.rest, ls) && |r.rest| < |ls|
    decreases Weight(ls), 0, 0
  {
    if ls[0].content == "-" then
      ParseChild(ls, n)
    else
      var lines := ItemLines(ls, n);
      var r := ParseBlock(lines, n + 2);
      if r.Fail? || r.rest != [] then Fail else Got(r.value, ls[|lines|..])
  }

  /** The block that a key or a lone dash opens: the deeper entries that follow, if any. */
  function ParseChild(ls: seq<Entry>, n: nat): (r: Parse<Value>)
    requires ls != []
    ensures r.Got? ==> SuffixOf(r.rest, ls) && |r.rest| < |ls|
    decreases Weight(ls), 0, 0, 0
  {
    WeightOfPrefix(ls, 1);
    if |ls| > 1 && ls[1].indent > n then ParseBlock(ls[1..], ls[1].indent) else Got(VNone, ls[1..])
  }

  function ParseMapping(ls: seq<Entry>, n: nat): (r: Parse<map<string, Value>>)
    ensures r.Got? ==> SuffixOf(r.rest, ls)
    ensures r.Got? && ls != [] && ls[0].indent == n ==> |r.rest| < |ls|
    decreases Weight(ls), 0
  {
    if ls == [] || ls[0].indent != n then Got(map[], ls)
    else
      var entry := ParseEntry(ls, n);
      if entry.Fail? then Fail
      else
        SuffixWeighsLess(entry.rest, ls);
        var more := ParseMapping(entry.rest, n);
        if more.Fail? then Fail
        else Got(map[entry.value.0 := entry.value.1] + more.value, more.rest)
  }

  /** One turn of the loop of `_parse_mapping`. */
  function ParseEntry(ls: seq<Entry>, n: nat): (r: Parse<(string, Value)>)
    requires ls != []
    ensures r.Got? ==> SuffixOf(r.rest, ls) && |r.rest| < |ls|
    decreases Weight(ls), 0, 0
  {
    if ls[0].Body? || IsDash(ls[0].content) || KeyColon(ls[0].content).None? then Fail
    else
      var content := ls[0].content;
      var colon := KeyColon(content).value;
      var rest := Strip(content[colon + 1..]);
      var header := BlockHeader(content);
      var v := if rest == "" then ParseChild(ls, n)
               else if header.Raised? then Fail
               else if header.value.Some? then TakeBlockBody(ls[1..])
               else Got(VStr(ParseScalar(rest)), ls[1..]);
      if v.Fail? then Fail else Got((ParseScalar(content[..colon]), v.value), v.rest)
  }

  // ---- the index-based parser of the source ---------------------------------

  /** An indexed result and the suffix result it stands for. */
  ghost predicate Agrees<T>(r: Reading<(T, nat)>, lines: seq<Entry>, p: Parse<T>) {
    match p
    case Fail => r.Raised?
    case Got(v, rest) => r.Read? && r.value.0 == v && r.value.1 <= |lines| && rest == lines[r.value.1..]
  }

  lemma LaterWeighsLess(lines: seq<Entry>, i: nat, j: nat)
    requires i <= j <= |lines|
    ensures Weight(lines[j..]) <= Weight(lines[i..])
    ensures i < j ==> Weight(lines[j..]) < Weight(lines[i..])
  {
    WeightOfPrefix(lines[i..], j - i);
    assert lines[i..][j - i..] == lines[j..];
  }

  method ReadBlockBody(lines: seq<Entry>, i: nat) returns (r: Reading<(Value, nat)>)
    requires i <= |lines|
    ensures Agrees(r, lines, TakeBlockBody(lines[i..]))
  {
    if i >= |lines| || lines[i].Line? {
      return Raised;
    }
    return Read((VStr(lines[i].text), i + 1));
  }

  method ReadBlock(lines: seq<Entry>, i: nat, indent0: nat) returns (r: Reading<(Value, nat)>)
    requires i <= |lines|
    ensures Agrees(r, lines, ParseBlock(lines[i..], indent0))
    decreases Weight(lines[i..]), 1
  {
    if i >= |lines| || lines[i].indent != indent0 {
      return Raised;
    }
    if lines[i].Body? {
      return Raised;
    }
    var content := lines[i].content;
    assert lines[i..][1..] == lines[i + 1..];
    if IsDash(content) {
      var items := ReadSequence(lines, i, indent0);
      return if items.Raised? then Raised else Read((VList(items.value.0), items.value.1));
    }
    var colon := FindKeyColon(content);
    if colon.Some? {
      var entries := ReadMapping(lines, i, indent0);
      return if entries.Raised? then Raised else Read((VMap(entries.value.0), entries.value.1));
    }
    if IsHeader(content) {
      r := ReadBlockBody(lines, i + 1);
      return;
    }
    if i + 1 < |lines| && lines[i + 1].indent >= indent0 {
      return Raised;
    }
    return Read((VStr(ParseScalar(content)), i + 1));
  }

  /** The block opened by the key or the lone dash at lines[i], or an absent value. */
  method ReadChild(lines: seq<Entry>, i: nat, indent0: nat) returns (r: Reading<(Value, nat)>)
    requires i < |lines|
    ensures Agrees(r, lines, ParseChild(lines[i..], indent0))
    decreases Weight(lines[i..]), 0, 0, 0
  {
    assert lines[i..][1..] == lines[i + 1..];
    if i + 1 < |lines| && lines[i + 1].indent > indent0 {
      LaterWeighsLess(lines, i, i + 1);
      r := ReadBlock(lines, i + 1, lines[i + 1].indent);
    } else {
      r := Read((VNone, i + 1));
    }
  }

  /** The inner loop of `_parse_sequence`: the item's first line rewritten, and what is deeper. */
  method CollectItem(lines: seq<Entry>, i: nat, indent0: nat) returns (item: seq<Entry>, j: nat)
    requires i < |lines| && lines[i].Line? && StartsWithDash(lines[i].content)
    ensures item == ItemLines(lines[i..], indent0) && j == i + |item| <= |lines|
  {
    ghost var below := lines[i + 1..];
    var first := Line(indent0 + 2, lines[i].content[2..]);
    item := [first];
    j := i + 1;
    while j < |lines| && lines[j].indent > indent0
      invariant i < j <= |lines| && item == [first] + below[..j - i - 1]
      invariant forall k | 0 <= k < j - i - 1 :: below[k].indent > indent0
    {
      DeeperLine(lines, i + 1, j);
      item := item + [lines[j]];
      j := j + 1;
    }
    DeeperCount(lines, i + 1, j, indent0);
    ItemIs(lines, i, j, indent0);
  }

  lemma DeeperLine(lines: seq<Entry>, i: nat, j: nat)
    requires i <= j < |lines|
    ensures lines[i..][..j - i + 1] == lines[i..][..j - i] + [lines[j]] && lines[i..][j - i] == lines[j]
  {
  }

  lemma DeeperCount(lines: seq<Entry>, i: nat, j: nat, n: nat)
    requires i <= j <= |lines| && forall k | 0 <= k < j - i :: lines[i..][k].indent > n
    requires j == |lines| || lines[j].indent <= n
    ensures Deeper(lines[i..], n) == j - i
  {
    if j < |lines| { DeeperLine(lines, i, j); }
  }

  lemma ItemIs(lines: seq<Entry>, i: nat, j: nat, n: nat)
    requires i < |lines| && lines[i].Line? && StartsWithDash(lines[i].content)
    requires i < j <= |lines| && Deeper(lines[i + 1..], n) == j - i - 1
    ensures ItemLines(lines[i..], n) == [Line(n + 2, lines[i].content[2..])] + lines[i + 1..][..j - i - 1]
  {
    var ls := lines[i..];
    assert ls[0] == lines[i] && ls[1..] == lines[i + 1..];
    assert ls[1..1 + (j - i - 1)] == ls[1..][..j - i - 1];
  }

  method ReadItem(lines: seq<Entry>, i: nat, indent0: nat) returns (r: Reading<(Value, nat)>)
    requires i < |lines| && IsDashLine(lines[i])
    ensures Agrees(r, lines, ParseItem(lines[i..], indent0))
    decreases Weight(lines[i..]), 0, 0
  {
    if lines[i].content == "-" {
      r := ReadChild(lines, i, indent0);
      return;
    }
    var item, j := CollectItem(lines, i, indent0);
    assert item[0..] == item;
    var v := ReadBlock(item, 0, indent0 + 2);
    if v.Raised? || v.value.1 != |item| {
      return Raised;
    }
    assert lines[i..][|item|..] == lines[j..];
    return Read((v.value.0, j));
  }

  ghost function AfterItems(items: seq<Value>, p: Parse<seq<Value>>): Parse<seq<Value>> {
    if p.Fail? then Fail else Got(items + p.value, p.rest)
  }

  lemma AfterNoItems(p: Parse<seq<Value>>)
    ensures AfterItems([], p) == p
  {
    if p.Got? { assert [] + p.value == p.value; }
  }

  lemma ItemStep(items: seq<Value>, ls: seq<Entry>, n: nat)
    requires ls != [] && ls[0].indent == n && IsDashLine(ls[0])
    ensures var item := ParseItem(ls, n);
            AfterItems(items, ParseSequence(ls, n)) ==
            if item.Fail? then Fail else AfterItems(items + [item.value], ParseSequence(item.rest, n))
  {
    var item := ParseItem(ls, n);
    if item.Got? { AfterOneItem(items, item.value, ParseSequence(item.rest, n)); }
  }

  lemma AfterOneItem(items: seq<Value>, v: Value, p: Parse<seq<Value>>)
    ensures AfterItems(items, if p.Fail? then Fail else Got([v] + p.value, p.rest)) == AfterItems(items + [v], p)
  {
    if p.Got? { assert items + ([v] + p.value) == items + [v] + p.value; }
  }

  /** The items gathered before line i, and the ones to come. */
  ghost predicate Gathered(lines: seq<Entry>, i: nat, n: nat, items: seq<Value>, all: Parse<seq<Value>>) {
    i <= |lines| && all == AfterItems(items, ParseSequence(lines[i..], n))
  }

  lemma NoneGathered(lines: seq<Entry>, i: nat, n: nat)
    requires i <= |lines|
    ensures Gathered(lines, i, n, [], ParseSequence(lines[i..], n))
  {
    AfterNoItems(ParseSequence(lines[i..], n));
  }

  /** One turn of the loop. */
  lemma OneGathered(lines: seq<Entry>, i: nat, n: nat, items: seq<Value>, all: Parse<seq<Value>>,
                    item: Reading<(Value, nat)>)
    requires Gathered(lines, i, n, items, all) && i < |lines| && lines[i].indent == n && IsDashLine(lines[i])
    requires Agrees(item, lines, ParseItem(lines[i..], n))
    ensures item.Raised? ==> all.Fail?
    ensures item.Read? ==> i < item.value.1 && Gathered(lines, item.value.1, n, items + [item.value.0], all)
  {
    ItemStep(items, lines[i..], n);
    assert lines[i..][0] == lines[i] && |lines[i..]| == |lines| - i;
    assert item.Read? ==> |lines[item.value.1..]| == |lines| - item.value.1;
  }

  lemma AllGathered(lines: seq<Entry>, i: nat, n: nat, items: seq<Value>, all: Parse<seq<Value>>)
    requires Gathered(lines, i, n, items, all)
    requires i == |lines| || lines[i].indent != n || !IsDashLine(lines[i])
    ensures all == Got(items, lines[i..])
  {
    if i < |lines| { assert lines[i..][0] == lines[i]; }
    SequenceEnds(lines[i..], n);
    assert items + [] == items;
  }

  lemma SequenceEnds(ls: seq<Entry>, n: nat)
    requires ls == [] || ls[0].indent != n || !IsDashLine(ls[0])
    ensures ParseSequence(ls, n) == Got([], ls)
  {
  }

  method ReadSequence(lines: seq<Entry>, i0: nat, indent0: nat) returns (r: Reading<(seq<Value>, nat)>)
    requires i0 <= |lines|
    ensures Agrees(r, lines, ParseSequence(lines[i0..], indent0))
    decreases Weight(lines[i0..]), 0
  {
    var items: seq<Value> := [];
    var i := i0;
    ghost var all := ParseSequence(lines[i0..], indent0);
    NoneGathered(lines, i0, indent0);
    while i < |lines| && lines[i].indent == indent0 && IsDashLine(lines[i])
      invariant i0 <= i && Gathered(lines, i, indent0, items, all)
      decreases |lines| - i
    {
      LaterWeighsLess(lines, i0, i);
      var item := ReadItem(lines, i, indent0);
      OneGathered(lines, i, indent0, items, all, item);
      if item.Raised? {
        return Raised;
      }
      items := items + [item.value.0];
      i := item.value.1;
    }
    AllGathered(lines, i, indent0, items, all);
    return Read((items, i));
  }

  ghost function AfterEntries(m: map<string, Value>, p: Parse<map<string, Value>>): Parse<map<string, Value>> {
    if p.Fail? then Fail else Got(m + p.value, p.rest)
  }

  lemma AfterNoEntries(p: Parse<map<string, Value>>)
    ensures AfterEntries(map[], p) == p
  {
    if p.Got? { assert map[] + p.value == p.value; }
  }

  lemma EntryStep(m: map<string, Value>, ls: seq<Entry>, n: nat)
    requires ls != [] && ls[0].indent == n
    ensures var entry := ParseEntry(ls, n);
            AfterEntries(m, ParseMapping(ls, n)) ==
            if entry.Fail? then Fail
            else AfterEntries(m[entry.value.0 := entry.value.1], ParseMapping(entry.rest, n))
  {
    var entry := ParseEntry(ls, n);
    if entry.Got? { AfterOneEntry(m, entry.value.0, entry.value.1, ParseMapping(entry.rest, n)); }
    MappingNext(ls, n);
  }

  lemma MappingNext(ls: seq<Entry>, n: nat)
    requires ls != [] && ls[0].indent == n
    ensures var entry := ParseEntry(ls, n);
            ParseMapping(ls, n) ==
            if entry.Fail? then Fail
            else
              var more := ParseMapping(entry.rest, n);
              if more.Fail? then Fail else Got(map[entry.value.0 := entry.value.1] + more.value, more.rest)
  {
  }

  lemma AfterOneEntry(m: map<string, Value>, k: string, v: Value, p: Parse<map<string, Value>>)
    ensures AfterEntries(m, if p.Fail? then Fail else Got(map[k := v] + p.value, p.rest)) == AfterEntries(m[k := v], p)
  {
    if p.Got? { assert m + (map[k := v] + p.value) == m[k := v] + p.value; }
  }

  /** The entries gathered before line i, and the ones to come. */
  ghost predicate Filled(lines: seq<Entry>, i: nat, n: nat, m: map<string, Value>, all: Parse<map<string, Value>>) {
    i <= |lines| && all == AfterEntries(m, ParseMapping(lines[i..], n))
  }

  lemma NoneFilled(lines: seq<Entry>, i: nat, n: nat)
    requires i <= |lines|
    ensures Filled(lines, i, n, map[], ParseMapping(lines[i..], n))
  {
    AfterNoEntries(ParseMapping(lines[i..], n));
  }

  /** One turn of the loop. */
  lemma OneFilled(lines: seq<Entry>, i: nat, n: nat, m: map<string, Value>, all: Parse<map<string, Value>>,
                  entry: Reading<((string, Value), nat)>)
    requires Filled(lines, i, n, m, all) && i < |lines| && lines[i].indent == n
    requires Agrees(entry, lines, ParseEntry(lines[i..], n))
    ensures entry.Raised? ==> all.Fail?
    ensures entry.Read? ==> i < entry.value.1 && Filled(lines, entry.value.1, n,
                                                        m[entry.value.0.0 := entry.value.0.1], all)
  {
    EntryStep(m, lines[i..], n);
    assert lines[i..][0] == lines[i] && |lines[i..]| == |lines| - i;
    assert entry.Read? ==> |lines[entry.value.1..]| == |lines| - entry.value.1;
  }

  lemma AllFilled(lines: seq<Entry>, i: nat, n: nat, m: map<string, Value>, all: Parse<map<string, Value>>)
    requires Filled(lines, i, n, m, all) && (i == |lines| || lines[i].indent != n)
    ensures all == Got(m, lines[i..])
  {
    if i < |lines| { assert lines[i..][0] == lines[i]; }
    MappingEnds(lines[i..], n);
    AddNothing(m);
  }

  lemma MappingEnds(ls: seq<Entry>, n: nat)
    requires ls == [] || ls[0].indent != n
    ensures ParseMapping(ls, n) == Got(map[], ls)
  {
  }

  lemma AddNothing(m: map<string, Value>)
    ensures m + map[] == m
  {
  }

  method ReadMapping(lines: seq<Entry>, i0: nat, indent0: nat) returns (r: Reading<(map<string, Value>, nat)>)
    requires i0 <= |lines|
    ensures Agrees(r, lines, ParseMapping(lines[i0..], indent0))
    decreases Weight(lines[i0..]), 0
  {
    var mapping: map<string, Value> := map[];
    var i := i0;
    ghost var all := ParseMapping(lines[i0..], indent0);
    NoneFilled(lines, i0, indent0);
    while i < |lines| && lines[i].indent == indent0
      invariant i0 <= i && Filled(lines, i, indent0, mapping, all)
      decreases |lines| - i
    {
      LaterWeighsLess(lines, i0, i);
      var entry := ReadEntry(lines, i, indent0);
      OneFilled(lines, i, indent0, mapping, all, entry);
      if entry.Raised? {
        return Raised;
      }
      mapping := mapping[entry.value.0.0 := entry.value.0.1];
      i := entry.value.1;
    }
    AllFilled(lines, i, indent0, mapping, all);
    return Read((mapping, i));
  }

  method ReadEntry(lines: seq<Entry>, i: nat, indent0: nat) returns (r: Reading<((string, Value), nat)>)
    requires i < |lines|
    ensures Agrees(r, lines, ParseEntry(lines[i..], indent0))
    decreases Weight(lines[i..]), 0, 0
  {
    assert lines[i..][1..] == lines[i + 1..];
    if lines[i].Body? || IsDash(lines[i].content) {
      return Raised;
    }
    var content := lines[i].content;
    var colon := FindKeyColon(content);
    if colon.None? {
      return Raised;
    }
    var key := ParseScalar(content[..colon.value]);
    var rest := Strip(content[colon.value + 1..]);
    var v: Reading<(Value, nat)>;
    if rest == "" {
      v := ReadChild(lines, i, indent0);
    } else {
      var header := FindBlockHeader(content);
      if header.Raised? {
        return Raised;
      } else if header.value.Some? {
        v := ReadBlockBody(lines, i + 1);
      } else {
        v := Read((VStr(ParseScalar(rest)), i + 1));
      }
    }
    return if v.Raised? then Raised else Read(((key, v.value.0), v.value.1));
  }

  // ---- documents ------------------------------------------------------------

  function ParseDocument(ls: seq<Entry>): Reading<Value>
    requires ls != []
  {
    if ls[0].indent != 0 then Raised
    else
      var r := ParseBlock(ls, 0);
      if r.Fail? || r.rest != [] then Raised else Read(r.value)
  }

  function SplitLF(s: string): (r: seq<string>)
    ensures |r| > 0
  {
    if s == "" then [""]
    else
      var r := SplitLF(s[1..]);
      if s[0] == '\n' then [""] + r else [[s[0]] + r[0]] + r[1..]
  }

  /** A line that is `---` and nothing but spaces and tabs after it. */
  predicate IsSeparator(line: string) {
    && |line| >= 3 && line[..3] == "---"
    && forall c | c in line[3..] :: c == ' ' || c == '\t'
  }

  function LinesBeforeSeparator(ls: seq<string>): (k: nat)
    ensures k <= |ls|
  {
    if ls == [] || IsSeparator(ls[0]) then 0 else 1 + LinesBeforeSeparator(ls[1..])
  }

  function Terminated(ls: seq<string>): string {
    if ls == [] then "" else ls[0] + "\n" + Terminated(ls[1..])
  }

  /** The texts between the separator lines; the first one has no newline before it and the last
      one none after it. */
  function SplitDocuments(ls: seq<string>, first: bool): seq<string> {
    var k := LinesBeforeSeparator(ls);
    var lead := if first || k == |ls| == 0 then "" else "\n";
    if k == |ls| then [lead + Join(ls)]
    else [lead + Terminated(ls[..k])] + SplitDocuments(ls[k + 1..], false)
  }

  function LoadPieces(pieces: seq<string>): Reading<seq<Value>> {
    if pieces == [] then Read([])
    else
      var lines := Entries(SplitLines(pieces[0]));
      if lines.Raised? then Raised
      else if lines.value == [] then LoadPieces(pieces[1..])
      else
        var doc := ParseDocument(lines.value);
        if doc.Raised? then Raised
        else
          var more := LoadPieces(pieces[1..]);
          if more.Raised? then Raised else Read([doc.value] + more.value)
  }

  /** `load_all_documents`. */
  function Load(text: string): Reading<seq<Value>> { LoadPieces(SplitDocuments(SplitLF(text), true)) }

  method LoadAllDocuments(text: string) returns (r: Reading<seq<Value>>)
    ensures r == Load(text)
  {
    var pieces := SplitDocuments(SplitLF(text), true);
    var docs: seq<Value> := [];
    PrependNoDocs(LoadPieces(pieces));
    assert pieces[0..] == pieces;
    for k := 0 to |pieces|
      invariant LoadPieces(pieces) == AfterDocs(docs, LoadPieces(pieces[k..]))
    {
      assert pieces[k..][0] == pieces[k] && pieces[k..][1..] == pieces[k + 1..];
      var raws := SplitLines(pieces[k]);
      var lines := Preprocess(raws);
      if lines.Raised? {
        return Raised;
      }
      if lines.value == [] {
        continue;
      }
      if lines.value[0].indent != 0 {
        return Raised;
      }
      assert lines.value[0..] == lines.value;
      var v := ReadBlock(lines.value, 0, 0);
      if v.Raised? || v.value.1 != |lines.value| {
        return Raised;
      }
      AfterOneDoc(docs, v.value.0, LoadPieces(pieces[k + 1..]));
      docs := docs + [v.value.0];
    }
    assert docs + [] == docs;
    return Read(docs);
  }

  ghost function AfterDocs(docs: seq<Value>, r: Reading<seq<Value>>): Reading<seq<Value>> {
    if r.Raised? then Raised else Read(docs + r.value)
  }

  lemma PrependNoDocs(r: Reading<seq<Value>>)
    ensures AfterDocs([], r) == r
  {
    if r.Read? { assert [] + r.value == r.value; }
  }

  lemma AfterOneDoc(docs: seq<Value>, v: Value, r: Reading<seq<Value>>)
    ensures AfterDocs(docs, if r.Raised? then Raised else Read([v] + r.value)) == AfterDocs(docs + [v], r)
  {
    if r.Read? { assert docs + ([v] + r.value) == docs + [v] + r.value; }
  }
}
