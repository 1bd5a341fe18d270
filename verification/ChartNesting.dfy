/** Acceptance is exactly well-nestedness. A one-pass automaton keeps the stack of open levels; a
    line either opens a deeper level where its predecessor allows one, or stands at a level that
    is still open and holds entries of its kind. The recursive parser accepts the same lists. */
module ChartNesting {
  import opened ChartText
  import opened ChartParse
  import opened Wrappers

  datatype Kind = AMapping | ASequence | AScalar
  datatype Level = Level(indent: nat, kind: Kind)

  /** What the line before allows next: nothing special, a deeper block, or a scalar body. */
  datatype Next = Nothing | MayOpen | BodyNext

  function KindOf(c: string): Kind {
    if IsDash(c) then ASequence else if KeyColon(c).Some? then AMapping else AScalar
  }

  function Top(s: seq<Level>): Level
    requires s != []
  {
    s[|s| - 1]
  }

  /** The levels that a line at column d leaves open. */
  function Pop(s: seq<Level>, d: nat): seq<Level> {
    if s != [] && Top(s).indent > d then Pop(s[..|s| - 1], d) else s
  }

  /** The automaton over the entries that are left. */
  predicate Run(s: seq<Level>, next: Next, ls: seq<Entry>)
    decreases Weight(ls), 2
  {
    if ls == [] then next != BodyNext
    else if next == BodyNext then ls[0].Body? && Run(s, Nothing, ls[1..])
    else if ls[0].Body? then false
    else if next == MayOpen && s != [] && ls[0].indent > Top(s).indent then Enter(s, ls)
    else
      var open := Pop(s, ls[0].indent);
      && open != [] && Top(open).indent == ls[0].indent
      && Top(open).kind == KindOf(ls[0].content) != AScalar
      && Place(open, ls)
  }

  /** The first line opens a new level. */
  predicate Enter(s: seq<Level>, ls: seq<Entry>)
    requires ls != [] && ls[0].Line?
    decreases Weight(ls), 1
  {
    Place(s + [Level(ls[0].indent, KindOf(ls[0].content))], ls)
  }

  /** The first line stands at the top level; after a dash its rest opens a level of its own. */
  predicate Place(s: seq<Level>, ls: seq<Entry>)
    requires ls != [] && ls[0].Line?
    decreases Weight(ls), 0
  {
    var c, rest := ls[0].content, ls[1..];
    if c == "-" then Run(s, MayOpen, rest)
    else if StartsWithDash(c) then Enter(s, Undashed(ls))
    else if KeyColon(c).Some? then
      if Strip(c[KeyColon(c).value + 1..]) == "" then Run(s, MayOpen, rest)
      else
        var header := BlockHeader(c);
        header.Read? && Run(s, if header.value.Some? then BodyNext else Nothing, rest)
    else Run(s, if IsHeader(c) then BodyNext else Nothing, rest)
  }

  function Undashed(ls: seq<Entry>): (r: seq<Entry>)
    requires ls != [] && ls[0].Line? && StartsWithDash(ls[0].content)
    ensures r != [] && r[0].Line? && Weight(r) + 2 == Weight(ls)
  {
    [Line(ls[0].indent + 2, ls[0].content[2..])] + ls[1..]
  }

  predicate Accepts(ls: seq<Entry>) {
    ls != [] && ls[0].Line? && ls[0].indent == 0 && Enter([], ls)
  }

  // ---- bodies stand deeper than their header --------------------------------

  predicate Parented(c: string) { StartsWithDash(c) || KeyColon(c).Some? }

  /** The column of the node that a header on this line belongs to, as the parser sees it. */
  function Column(d: int, c: string): int
    decreases |c|
  {
    if StartsWithDash(c) then Column(d + 2, c[2..]) else if KeyColon(c).Some? then d else d - 2
  }

  lemma {:induction false} ParentedColumn(d: int, c: string)
    ensures Column(d, c) >= d - 2
    ensures Parented(c) ==> Column(d, c) >= d
    decreases |c|
  {
    if StartsWithDash(c) { ParentedColumn(d + 2, c[2..]); }
  }

  /** Every body follows a line, deeper than that line's node. Preprocessed lists are like this. */
  ghost predicate BodiesFollowHeaders(ls: seq<Entry>) {
    forall k | 0 < k < |ls| && ls[k].Body? ::
      && ls[k - 1].Line?
      && ls[k].indent > Column(ls[k - 1].indent, ls[k - 1].content)
      && (k > 1 ==> Parented(ls[k - 1].content))
  }

  lemma SuffixBodies(ls: seq<Entry>, rest: seq<Entry>)
    requires BodiesFollowHeaders(ls) && SuffixOf(rest, ls)
    ensures BodiesFollowHeaders(rest)
  {
    var j := |ls| - |rest|;
    forall k | 0 < k < |rest| && rest[k].Body?
      ensures rest[k - 1].Line? && rest[k].indent > Column(rest[k - 1].indent, rest[k - 1].content)
      ensures k > 1 ==> Parented(rest[k - 1].content)
    {
      assert rest[k] == ls[j + k] && rest[k - 1] == ls[j + k - 1];
    }
  }

  lemma ItemBodies(ls: seq<Entry>, n: nat)
    requires BodiesFollowHeaders(ls) && ls != [] && ls[0].Line? && ls[0].indent == n && StartsWithDash(ls[0].content)
    ensures BodiesFollowHeaders(ItemLines(ls, n))
    ensures forall k | 0 < k < |ItemLines(ls, n)| :: ItemLines(ls, n)[k].indent > n
    ensures var k := |ItemLines(ls, n)|; k < |ls| ==> ls[k].Line? && ls[k].indent <= n
  {
    var item := ItemLines(ls, n);
    var m := Deeper(ls[1..], n);
    assert forall k | 0 < k < |item| :: item[k] == ls[k] && ls[k] == ls[1..][k - 1];
    if |item| < |ls| {
      assert ls[|item|] == ls[1..][m];
      assert m > 0 ==> ls[m] == ls[1..][m - 1];
      if ls[m].Line? { ParentedColumn(ls[m].indent, ls[m].content); }
    }
  }

  // ---- the automaton and the stack ------------------------------------------

  /** The automaton between two entries of an open level. */
  predicate Loop(s: seq<Level>, x: seq<Entry>) { x == [] || Run(s, Nothing, x) }

  /** After a block at column n: the rest is shallower, and the levels below go on. */
  predicate Cont(s: seq<Level>, x: seq<Entry>, n: nat) {
    x == [] || (x[0].Line? && x[0].indent < n && Run(s, Nothing, x))
  }

  lemma PopTop(s: seq<Level>, l: Level, x: seq<Entry>)
    requires x != [] && x[0].Line? && x[0].indent < l.indent
    ensures Run(s + [l], Nothing, x) == Run(s, Nothing, x)
  {
    assert (s + [l])[..|s|] == s;
    assert Pop(s + [l], x[0].indent) == Pop(s, x[0].indent);
  }

  /** At a line that is neither shallower than the top level nor an entry of it, the run stops. */
  lemma LeavesTheLevel(s: seq<Level>, l: Level, x: seq<Entry>)
    requires x != [] ==> x[0].Body? || x[0].indent != l.indent || KindOf(x[0].content) != l.kind || l.kind == AScalar
    ensures Loop(s + [l], x) == Cont(s, x, l.indent)
  {
    if x != [] && x[0].Line? {
      if x[0].indent < l.indent {
        PopTop(s, l, x);
      } else {
        assert Pop(s + [l], x[0].indent) == s + [l];
      }
    }
  }

  lemma StaysInTheLevel(s: seq<Level>, l: Level, x: seq<Entry>)
    requires x != [] && x[0].Line? && x[0].indent == l.indent && KindOf(x[0].content) == l.kind != AScalar
    ensures Loop(s + [l], x) == Place(s + [l], x)
  {
    assert Pop(s + [l], x[0].indent) == s + [l];
  }

  /** A child block ends where the level that opened it goes on. */
  lemma ContIsLoop(s: seq<Level>, l: Level, x: seq<Entry>, d: nat)
    requires d > l.indent
    ensures Cont(s + [l], x, d) == Loop(s + [l], x)
  {
    if x != [] && x[0].Line? && x[0].indent >= d {
      assert Pop(s + [l], x[0].indent) == s + [l];
    }
  }

  ghost predicate Follows(b: seq<Entry>, n: nat) { b == [] || (b[0].Line? && b[0].indent < n) }

  // ---- the parser accepts what the automaton accepts ------------------------

  lemma {:induction false} BlockIff(s: seq<Level>, ls: seq<Entry>, n: nat, b: seq<Entry>)
    requires ls != [] && ls[0].Line? && ls[0].indent == n
    requires BodiesFollowHeaders(ls) && Follows(b, n)
    ensures var r := ParseBlock(ls, n);
            Enter(s, ls + b) <==> r.Got? && Cont(s, r.rest + b, n)
    decreases Weight(ls), 1
  {
    var c := ls[0].content;
    var l := Level(n, KindOf(c));
    assert (ls + b)[0] == ls[0] && (ls + b)[1..] == ls[1..] + b;
    match KindOf(c) {
      case ASequence =>
        SequenceIff(s, ls, n, b);
        StaysInTheLevel(s, l, ls + b);
      case AMapping =>
        MappingIff(s, ls, n, b);
        StaysInTheLevel(s, l, ls + b);
      case AScalar => ScalarIff(s, ls, n, b);
    }
  }

  lemma ScalarIff(s: seq<Level>, ls: seq<Entry>, n: nat, b: seq<Entry>)
    requires ls != [] && ls[0].Line? && ls[0].indent == n && KindOf(ls[0].content) == AScalar
    requires Follows(b, n)
    ensures var r := ParseBlock(ls, n);
            Place(s + [Level(n, AScalar)], ls + b) <==> r.Got? && Cont(s, r.rest + b, n)
  {
    var l := Level(n, AScalar);
    var x := ls[1..] + b;
    assert (ls + b)[0] == ls[0] && (ls + b)[1..] == x;
    if IsHeader(ls[0].content) {
      BodyIff(s + [l], ls[1..], n, b);
      if ls[1..] != [] { LeavesTheLevel(s, l, ls[1..][1..] + b); }
    } else {
      LeavesTheLevel(s, l, x);
      if |ls| > 1 { assert x[0] == ls[1]; } else { assert x == b; }
    }
  }

  /** A header line: the next entry is its body. */
  lemma BodyIff(s: seq<Level>, ls: seq<Entry>, n: nat, b: seq<Entry>)
    requires Follows(b, n)
    ensures var r := TakeBlockBody(ls);
            Run(s, BodyNext, ls + b) <==> r.Got? && Loop(s, r.rest + b)
  {
    if ls == [] {
      assert ls + b == b;
    } else {
      assert (ls + b)[0] == ls[0] && (ls + b)[1..] == ls[1..] + b;
    }
  }

  /** A key without a value, or a lone dash: a deeper block, or nothing. */
  lemma {:induction false} ChildIff(s: seq<Level>, l: Level, ls: seq<Entry>, b: seq<Entry>)
    requires ls != [] && ls[0].Line?
    requires BodiesFollowHeaders(ls) && Follows(b, l.indent)
    ensures var r := ParseChild(ls, l.indent);
            Run(s + [l], MayOpen, ls[1..] + b) <==> r.Got? && Loop(s + [l], r.rest + b)
    decreases Weight(ls), 0, 0
  {
    var below := ls[1..];
    WeightOfPrefix(ls, 1);
    if below == [] {
      assert below + b == b;
    } else {
      assert (below + b)[0] == below[0] == ls[1];
      if below[0].indent > l.indent && below[0].Line? {
        SuffixBodies(ls, below);
        BlockIff(s + [l], below, below[0].indent, b);
        var r := ParseBlock(below, below[0].indent);
        if r.Got? { ContIsLoop(s, l, r.rest + b, below[0].indent); }
      }
    }
  }

  lemma {:induction false} MappingIff(s: seq<Level>, ls: seq<Entry>, n: nat, b: seq<Entry>)
    requires BodiesFollowHeaders(ls) && Follows(b, n)
    ensures var r := ParseMapping(ls, n);
            Loop(s + [Level(n, AMapping)], ls + b) <==> r.Got? && Cont(s, r.rest + b, n)
    decreases Weight(ls), 0, 2
  {
    var l := Level(n, AMapping);
    if ls == [] {
      assert ls + b == b;
      LeavesTheLevel(s, l, b);
    } else {
      assert (ls + b)[0] == ls[0];
      if ls[0].Body? || ls[0].indent != n || KindOf(ls[0].content) != AMapping {
        LeavesTheLevel(s, l, ls + b);
      } else {
        StaysInTheLevel(s, l, ls + b);
        EntryIff(s, ls, n, b);
        var entry := ParseEntry(ls, n);
        if entry.Got? {
          SuffixWeighsLess(entry.rest, ls);
          SuffixBodies(ls, entry.rest);
          MappingIff(s, entry.rest, n, b);
        }
      }
    }
  }

  lemma {:induction false} EntryIff(s: seq<Level>, ls: seq<Entry>, n: nat, b: seq<Entry>)
    requires ls != [] && ls[0].Line? && ls[0].indent == n && KindOf(ls[0].content) == AMapping
    requires BodiesFollowHeaders(ls) && Follows(b, n)
    ensures var r := ParseEntry(ls, n);
            Place(s + [Level(n, AMapping)], ls + b) <==> r.Got? && Loop(s + [Level(n, AMapping)], r.rest + b)
    decreases Weight(ls), 0, 1
  {
    var c, l := ls[0].content, Level(n, AMapping);
    assert (ls + b)[0] == ls[0] && (ls + b)[1..] == ls[1..] + b;
    if Strip(c[KeyColon(c).value + 1..]) == "" {
      ChildIff(s, l, ls, b);
    } else if BlockHeader(c).Read? && BlockHeader(c).value.Some? {
      BodyIff(s + [l], ls[1..], n, b);
    }
  }

  lemma {:induction false} SequenceIff(s: seq<Level>, ls: seq<Entry>, n: nat, b: seq<Entry>)
    requires BodiesFollowHeaders(ls) && Follows(b, n)
    ensures var r := ParseSequence(ls, n);
            Loop(s + [Level(n, ASequence)], ls + b) <==> r.Got? && Cont(s, r.rest + b, n)
    decreases Weight(ls), 0, 2
  {
    var l := Level(n, ASequence);
    if ls == [] {
      assert ls + b == b;
      LeavesTheLevel(s, l, b);
    } else {
      assert (ls + b)[0] == ls[0];
      if ls[0].indent != n || !IsDashLine(ls[0]) {
        LeavesTheLevel(s, l, ls + b);
      } else {
        StaysInTheLevel(s, l, ls + b);
        ItemIff(s, ls, n, b);
        var item := ParseItem(ls, n);
        if item.Got? {
          SuffixWeighsLess(item.rest, ls);
          SuffixBodies(ls, item.rest);
          SequenceIff(s, item.rest, n, b);
        }
      }
    }
  }

  lemma {:induction false} ItemIff(s: seq<Level>, ls: seq<Entry>, n: nat, b: seq<Entry>)
    requires ls != [] && IsDashLine(ls[0]) && ls[0].indent == n
    requires BodiesFollowHeaders(ls) && Follows(b, n)
    ensures var r := ParseItem(ls, n);
            Place(s + [Level(n, ASequence)], ls + b) <==> r.Got? && Loop(s + [Level(n, ASequence)], r.rest + b)
    decreases Weight(ls), 0, 1
  {
    var l := Level(n, ASequence);
    assert (ls + b)[0] == ls[0] && (ls + b)[1..] == ls[1..] + b;
    if ls[0].content == "-" {
      ChildIff(s, l, ls, b);
    } else {
      var item := ItemLines(ls, n);
      var after := ls[|item|..] + b;
      ItemBodies(ls, n);
      UndashedIsItem(ls, n, b);
      assert Follows(after, n + 2) by {
        if |item| < |ls| { assert after[0] == ls[|item|]; } else { assert after == b; }
      }
      BlockIff(s + [l], item, n + 2, after);
      var r := ParseBlock(item, n + 2);
      if r.Got? { ItemEnds(s, l, item, r.rest, after); }
    }
  }

  lemma UndashedIsItem(ls: seq<Entry>, n: nat, b: seq<Entry>)
    requires ls != [] && ls[0].Line? && ls[0].indent == n && StartsWithDash(ls[0].content)
    ensures Undashed(ls + b) == ItemLines(ls, n) + (ls[|ItemLines(ls, n)|..] + b)
  {
    var k := Deeper(ls[1..], n);
    assert (ls + b)[1..] == ls[1..1 + k] + (ls[1 + k..] + b);
  }

  /** An item must be used up: what is left of it belongs to no open level. */
  lemma ItemEnds(s: seq<Level>, l: Level, item: seq<Entry>, rest: seq<Entry>, after: seq<Entry>)
    requires SuffixOf(rest, item) && |rest| < |item|
    requires forall k | 0 < k < |item| :: item[k].indent > l.indent
    ensures Cont(s + [l], rest + after, l.indent + 2) <==> rest == [] && Loop(s + [l], after)
  {
    ContIsLoop(s, l, rest + after, l.indent + 2);
    if rest == [] {
      assert rest + after == after;
    } else {
      assert (rest + after)[0] == item[|item| - |rest|];
      LeavesTheLevel(s, l, rest + after);
    }
  }

  // ---- preprocessed lists ---------------------------------------------------

  lemma {:induction false} ColonShift(x: string, k: nat, i: nat, q: Quotes)
    requires k + i <= |x|
    ensures KeyColonFrom(x, k + i, q).Some? <==> KeyColonFrom(x[k..], i, q).Some?
    decreases |x| - i
  {
    if k + i < |x| { ColonShift(x, k, i + 1, q.After(x[k + i])); }
  }

  lemma {:induction false} ColonSkipsSpaces(x: string, k: nat)
    requires k <= |x| && forall i | 0 <= i < k :: x[i] == ' '
    ensures KeyColon(x) == KeyColonFrom(x, k, OUTSIDE)
  {
    if k > 0 { ColonSkipsSpaces(x, k - 1); }
  }

  lemma {:induction false} LeadIsSpaces(x: string)
    ensures forall i | 0 <= i < Lead(x) :: x[i] == ' '
  {
    if x != "" && x[0] == ' ' { LeadIsSpaces(x[1..]); }
  }

  lemma ColonAfterSpaces(x: string)
    ensures KeyColon(x).Some? <==> KeyColon(x[Lead(x)..]).Some?
  {
    LeadIsSpaces(x);
    ColonSkipsSpaces(x, Lead(x));
    ColonShift(x, Lead(x), 0, OUTSIDE);
  }

  /** A header with a parent of its own is not left of `off`; one without has the dash before it. */
  predicate AtLeast(found: Reading<Option<(Header, nat)>>, parent: bool, off: nat, unit: Option<nat>) {
    found.Read? && found.value.Some? ==>
      if parent then found.value.value.1 >= off else unit == Some(found.value.value.1)
  }

  lemma {:induction false} HeaderIsAtLeast(c: string, off: nat, unit: Option<nat>)
    ensures AtLeast(HeaderFrom(c, off, unit), Parented(c), off, unit)
    decreases |c|
  {
    if StartsWithDash(c) {
      var skip := Lead(c[2..]);
      HeaderIsAtLeast(c[2 + skip..], off + 2 + skip, Some(off));
      assert HeaderFrom(c, off, unit) == HeaderFrom(c[2 + skip..], off + 2 + skip, Some(off));
    }
  }

  /** The preprocessor's parent column is never left of the parser's. */
  lemma {:induction false} ColumnIsAtMost(d: int, c: string, off: nat, unit: Option<nat>)
    requires HeaderFrom(c, off, unit).Read? && HeaderFrom(c, off, unit).value.Some?
    requires unit.Some? ==> unit.value + 2 >= off
    ensures Column(d, c) <= d - off + HeaderFrom(c, off, unit).value.value.1
    decreases |c|
  {
    if StartsWithDash(c) {
      var x := c[2..];
      var skip := Lead(x);
      assert c[2 + skip..] == x[skip..];
      HeaderIsAtLeast(x[skip..], off + 2 + skip, Some(off));
      if skip == 0 {
        ColumnIsAtMost(d + 2, x, off + 2, Some(off));
      } else {
        ColonAfterSpaces(x);
        assert !StartsWithDash(x);
      }
    } else {
      HeaderIsAtLeast(c, off, unit);
    }
  }

  lemma {:induction false} TakenIsDeeper(raws: seq<string>, n: nat, indent: Option<nat>)
    requires TakeBody(raws, n, indent).Read? && (indent.Some? ==> indent.value > n)
    ensures var t := TakeBody(raws, n, indent).value; t.indent.Some? ==> t.indent.value > n
  {
    if raws != [] {
      if Blank(raws[0]) { TakenIsDeeper(raws[1..], n, indent); }
      else if Lead(raws[0]) > n { TakenIsDeeper(raws[1..], n, if indent.Some? then indent else Some(Lead(raws[0]))); }
    }
  }

  /** What a chunk can be: nothing, a line, or a header line and its body. */
  ghost predicate Parental(es: seq<Entry>) {
    || es == []
    || (|es| == 1 && es[0].Line?)
    || (&& |es| == 2 && es[0].Line? && es[1].Body?
        && es[1].indent > Column(es[0].indent, es[0].content) && Parented(es[0].content))
  }

  lemma ChunkIsParental(raws: seq<string>)
    requires raws != [] && NextChunk(raws).Read?
    ensures Parental(NextChunk(raws).value.entries)
  {
    var stripped := StripCommentFrom(raws[0], 0, OUTSIDE);
    if !Blank(stripped) { LineChunkIsParental(raws, Lead(stripped), Strip(stripped)); }
  }

  lemma LineChunkIsParental(raws: seq<string>, indent: nat, content: string)
    requires raws != [] && LineChunk(raws, indent, content).Read?
    ensures Parental(LineChunk(raws, indent, content).value.entries)
  {
    var header := BlockHeader(content);
    if header.value.Some? { HeaderNumbers(indent, content, header.value.value.0, header.value.value.1); }
    HeaderChunkIsParental(raws, indent, content, header);
  }

  /** A header of this line: it has a node, not deeper than the header's column. */
  predicate HeadsANode(indent: nat, content: string, h: Header, off: nat) {
    Parented(content) && Column(indent, content) <= indent + off && (h.digit.Some? ==> h.digit.value >= 1)
  }

  lemma HeaderChunkIsParental(raws: seq<string>, indent: nat, content: string, header: Reading<Option<(Header, nat)>>)
    requires raws != [] && HeaderChunk(raws, indent, content, header).Read?
    requires header.Read? && header.value.Some? ==>
               HeadsANode(indent, content, header.value.value.0, header.value.value.1)
    ensures Parental(HeaderChunk(raws, indent, content, header).value.entries)
  {
    if header.value.Some? {
      BlockChunkParts(raws, indent, content, header.value.value.0, indent + header.value.value.1);
    }
  }

  lemma HeaderNumbers(indent: nat, content: string, h: Header, off: nat)
    requires BlockHeader(content) == Read(Some((h, off)))
    ensures HeadsANode(indent, content, h, off)
  {
    ColumnIsAtMost(indent, content, 0, None);
    HeaderIsAtLeast(content, 0, None);
    HeaderDigit(content, 0, None);
  }

  /** A block chunk is its line and a body deeper than the node's column. */
  lemma BlockChunkParts(raws: seq<string>, indent: nat, content: string, h: Header, n: nat)
    requires raws != [] && (h.digit.Some? ==> h.digit.value >= 1)
    ensures var r := BlockChunk(raws, indent, content, h, n);
            r.Read? ==> && |r.value.entries| == 2 && r.value.entries[0] == Line(indent, content)
                        && r.value.entries[1].Body? && r.value.entries[1].indent > n
  {
    var taken := TakeBody(raws[1..], n, GivenCut(h, n));
    if taken.Read? { TakenIsDeeper(raws[1..], n, GivenCut(h, n)); }
  }

  lemma {:induction false} HeaderDigit(c: string, off: nat, unit: Option<nat>)
    requires HeaderFrom(c, off, unit).Read? && HeaderFrom(c, off, unit).value.Some?
    ensures var h := HeaderFrom(c, off, unit).value.value.0; h.digit.Some? ==> h.digit.value >= 1
    decreases |c|
  {
    if StartsWithDash(c) {
      var skip := Lead(c[2..]);
      HeaderDigit(c[2 + skip..], off + 2 + skip, Some(off));
    }
  }

  /** Every body stands behind a line that heads it, deeper than the node's column. */
  ghost predicate Bodied(ls: seq<Entry>) {
    && (ls != [] ==> ls[0].Line?)
    && forall k | 0 < k < |ls| && ls[k].Body? ::
         && ls[k - 1].Line? && Parented(ls[k - 1].content)
         && ls[k].indent > Column(ls[k - 1].indent, ls[k - 1].content)
  }

  lemma BodiedAfter(es: seq<Entry>, more: seq<Entry>)
    requires Parental(es) && Bodied(more)
    ensures Bodied(es + more)
  {
    var ls := es + more;
    forall k | 0 < k < |ls| && ls[k].Body?
      ensures && ls[k - 1].Line? && Parented(ls[k - 1].content)
              && ls[k].indent > Column(ls[k - 1].indent, ls[k - 1].content)
    {
      if k > |es| { assert ls[k] == more[k - |es|] && ls[k - 1] == more[k - |es| - 1]; }
    }
  }

  lemma {:induction false} PreprocessedBodies(raws: seq<string>)
    requires Entries(raws).Read?
    ensures Bodied(Entries(raws).value)
    decreases |raws|
  {
    if raws != [] {
      ChunkIsParental(raws);
      var chunk := NextChunk(raws).value;
      PreprocessedBodies(raws[chunk.lines..]);
      BodiedAfter(chunk.entries, Entries(raws[chunk.lines..]).value);
    }
  }

  /** A document is accepted iff its lines are well nested: no misindented line is absorbed, and
      nothing well nested is refused. */
  lemma AcceptedIffWellNested(raws: seq<string>)
    requires Entries(raws).Read? && Entries(raws).value != []
    ensures ParseDocument(Entries(raws).value).Read? <==> Accepts(Entries(raws).value)
  {
    var ls := Entries(raws).value;
    PreprocessedBodies(raws);
    if ls[0].indent == 0 {
      BlockIff([], ls, 0, []);
      assert ls + [] == ls;
      var r := ParseBlock(ls, 0);
      if r.Got? { assert r.rest + [] == r.rest; }
    }
  }
}
