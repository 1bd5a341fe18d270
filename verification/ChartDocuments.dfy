/** Many documents in one text: printed one after the other with separator lines between them, they load
    as their values in order, and an absent root as none. */
module ChartDocuments {
  import opened ChartText
  import opened ChartParse
  import opened ChartRoundTrip
  import opened ChartReadBack
  import opened Wrappers

  /** A separator line: three dashes, and spaces or tabs behind them. */
  predicate Separates(sep: string) {
    |sep| >= 3 && sep[..3] == "---" && forall c | c in sep[3..] :: c == ' ' || c == '\t'
  }

  function AllLines(docs: seq<seq<string>>, seps: seq<string>): seq<string>
    requires docs != [] && |seps| == |docs| - 1
  {
    if |docs| == 1 then docs[0] else docs[0] + ([seps[0]] + AllLines(docs[1..], seps[1..]))
  }

  /** What the lines of one document load as. */
  function One(lines: seq<string>): Reading<seq<Value>> {
    var es := Entries(lines);
    if es.Raised? then Raised
    else if es.value == [] then Read([])
    else
      var doc := ParseDocument(es.value);
      if doc.Raised? then Raised else Read([doc.value])
  }

  function Each(docs: seq<seq<string>>): Reading<seq<Value>> {
    if docs == [] then Read([]) else Together(One(docs[0]), Each(docs[1..]))
  }

  lemma FirstPiece(lines: seq<string>, first: bool)
    requires forall l | l in lines :: DocLine(l)
    ensures var lead := if first then "" else "\n"; Entries(SplitLines(lead + Terminated(lines))) == Entries(lines)
  {
    forall l | l in lines ensures forall c | c in l :: !IsBreak(c) { assert DocLine(l); }
    SplitLinesOfTerminated(lines);
    if first {
      assert "" + Terminated(lines) == Terminated(lines);
    } else {
      BlankFirst(Terminated(lines), lines);
    }
  }

  lemma BlankFirst(text: string, lines: seq<string>)
    requires SplitLines(text) == lines
    ensures Entries(SplitLines("\n" + text)) == Entries(lines)
  {
    SplitFirstLine("", text);
    assert "" + "\n" + text == "\n" + text;
    SkippedLine(0, "", lines);
    assert Spaces(0) == "";
  }

  lemma PieceFirst(piece: string, more: seq<string>, lines: seq<string>)
    requires Entries(SplitLines(piece)) == Entries(lines)
    ensures LoadPieces([piece] + more)
            == Together(One(lines), LoadPieces(more))
  {
    assert ([piece] + more)[1..] == more;
    if LoadPieces(more).Read? { assert [] + LoadPieces(more).value == LoadPieces(more).value; }
  }

  lemma {:induction false} SeparatorAfter(lines: seq<string>, sep: string, more: seq<string>)
    requires Separates(sep) && forall l | l in lines :: !IsSeparator(l)
    ensures LinesBeforeSeparator(lines + ([sep] + more)) == |lines|
  {
    var ls := lines + ([sep] + more);
    if lines == [] {
      assert ls[0] == sep;
    } else {
      assert ls[0] == lines[0] && lines[0] in lines && ls[1..] == lines[1..] + ([sep] + more);
      assert forall l | l in lines[1..] :: l in lines;
      SeparatorAfter(lines[1..], sep, more);
    }
  }

  lemma {:induction false} LoadEach(docs: seq<seq<string>>, seps: seq<string>, first: bool)
    requires docs != [] && |seps| == |docs| - 1
    requires forall d, l | d in docs && l in d :: DocLine(l)
    requires forall s | s in seps :: Separates(s)
    ensures LoadPieces(SplitDocuments(AllLines(docs, seps) + [""], first)) == Each(docs)
    decreases |docs|
  {
    var lines := docs[0];
    assert lines in docs && forall l | l in lines :: DocLine(l);
    if |docs| == 1 {
      LastPiece(lines, first);
      assert docs[1..] == [] && Each([]) == Read([]);
    } else {
      assert forall d | d in docs[1..] :: d in docs;
      assert forall s | s in seps[1..] :: s in seps;
      assert seps[0] in seps;
      LoadEach(docs[1..], seps[1..], false);
      OnePieceMore(lines, seps[0], AllLines(docs[1..], seps[1..]), first);
    }
  }

  /** A text of one document, or what the last separator leaves. */
  lemma LastPiece(lines: seq<string>, first: bool)
    requires forall l | l in lines :: DocLine(l)
    ensures LoadPieces(SplitDocuments(lines + [""], first)) == Together(One(lines), Read([]))
  {
    var piece := (if first then "" else "\n") + Terminated(lines);
    FirstPiece(lines, first);
    LastDocument(lines, first);
    PieceFirst(piece, [], lines);
    assert [piece] + [] == [piece];
  }

  function Together(a: Reading<seq<Value>>, b: Reading<seq<Value>>): Reading<seq<Value>> {
    if a.Raised? || b.Raised? then Raised else Read(a.value + b.value)
  }

  /** A document before a separator is loaded first. */
  lemma OnePieceMore(lines: seq<string>, sep: string, more: seq<string>, first: bool)
    requires Separates(sep) && forall l | l in lines :: DocLine(l)
    ensures LoadPieces(SplitDocuments(lines + ([sep] + more) + [""], first))
            == Together(One(lines), LoadPieces(SplitDocuments(more + [""], false)))
  {
    var piece := (if first then "" else "\n") + Terminated(lines);
    FirstPiece(lines, first);
    SplitAtSeparator(lines + ([sep] + more) + [""], lines, sep, more + [""], first);
    PieceFirst(piece, SplitDocuments(more + [""], false), lines);
  }

  lemma SplitAtSeparator(all: seq<string>, lines: seq<string>, sep: string, more: seq<string>, first: bool)
    requires Separates(sep) && all == lines + ([sep] + more) && forall l | l in lines :: DocLine(l)
    ensures SplitDocuments(all, first) == [(if first then "" else "\n") + Terminated(lines)]
            + SplitDocuments(more, false)
  {
    SeparatorAfter(lines, sep, more);
    assert all[..|lines|] == lines && all[|lines| + 1..] == more;
  }

  lemma LastDocument(lines: seq<string>, first: bool)
    requires forall l | l in lines :: DocLine(l)
    ensures SplitDocuments(lines + [""], first) == [(if first then "" else "\n") + Terminated(lines)]
  {
    forall l | l in lines + [""] ensures !IsSeparator(l) { assert l in lines || l == ""; }
    NoSeparatorAmong(lines + [""]);
    JoinWithFinalBreak(lines);
  }

  // ---- printed documents -------------------------------------------------------

  datatype Document = Document(tree: Tree, notes: seq<Note>)

  predicate Counted(d: Document) { Legal(d.tree) && !d.tree.Block? && |d.notes| == |Printout(d.tree)| }

  ghost predicate Printable(d: Document) { Counted(d) && AllFit(d.notes, Printout(d.tree)) }

  ghost predicate AllPrintable(ds: seq<Document>)
    ensures AllPrintable(ds) ==> forall d | d in ds :: Counted(d)
  {
    forall d | d in ds :: Printable(d)
  }

  function LinesOf(ds: seq<Document>): (r: seq<seq<string>>)
    requires forall d | d in ds :: Counted(d)
    ensures |r| == |ds|
    ensures forall i | 0 <= i < |ds| :: Counted(ds[i]) && r[i] == Lines(Printout(ds[i].tree), ds[i].notes)
  {
    seq(|ds|, i requires 0 <= i < |ds| => assert Counted(ds[i]); Lines(Printout(ds[i].tree), ds[i].notes))
  }

  /** The documents' texts with a separator line between each two. */
  function Stream(ds: seq<Document>, seps: seq<string>): string
    requires ds != [] && |seps| == |ds| - 1
    requires forall d | d in ds :: Counted(d)
  {
    assert ds[0] in ds && Counted(ds[0]) && forall d | d in ds[1..] :: d in ds;
    Render(ds[0].tree, ds[0].notes) + if |ds| == 1 then "" else seps[0] + "\n" + Stream(ds[1..], seps[1..])
  }

  function Meanings(ts: seq<Document>): seq<Value> {
    if ts == [] then [] else (if ts[0].tree.Absent? then [] else [Meaning(ts[0].tree)]) + Meanings(ts[1..])
  }

  lemma RestOfLines(ds: seq<Document>)
    requires ds != [] && forall d | d in ds :: Counted(d)
    ensures forall d | d in ds[1..] :: Counted(d)
    ensures LinesOf(ds)[1..] == LinesOf(ds[1..])
  {
    assert forall d | d in ds[1..] :: d in ds;
    assert forall i | 0 <= i < |ds| - 1 :: ds[1..][i] == ds[i + 1];
  }

  lemma {:induction false} StreamIsLines(ds: seq<Document>, seps: seq<string>)
    requires ds != [] && |seps| == |ds| - 1
    requires forall d | d in ds :: Counted(d)
    ensures Stream(ds, seps) == Terminated(AllLines(LinesOf(ds), seps))
  {
    assert ds[0] in ds && Counted(ds[0]) && forall d | d in ds[1..] :: d in ds;
    var first := Lines(Printout(ds[0].tree), ds[0].notes);
    RestOfLines(ds);
    if |ds| > 1 {
      StreamIsLines(ds[1..], seps[1..]);
      var more := AllLines(LinesOf(ds[1..]), seps[1..]);
      TerminatedConcat(first, [seps[0]] + more);
      assert ([seps[0]] + more)[1..] == more;
    }
  }

  lemma {:induction false} EachIsMeant(ds: seq<Document>)
    requires AllPrintable(ds)
    ensures Each(LinesOf(ds)) == Read(Meanings(ds))
  {
    if ds != [] {
      assert ds[0] in ds && forall d | d in ds[1..] :: d in ds;
      EachIsMeant(ds[1..]);
      RestOfLines(ds);
      OneIsMeant(ds[0]);
    }
  }

  lemma OneIsMeant(d: Document)
    requires Printable(d)
    ensures One(Lines(Printout(d.tree), d.notes)) == Read(if d.tree.Absent? then [] else [Meaning(d.tree)])
  {
    if !d.tree.Absent? {
      var ps := TreePieces(d.tree, 0);
      TreeIsReadable(d.tree, 0);
      ReadPieces(ps, d.notes);
      ParsePrinted(d.tree, 0, []);
      assert EntriesOf(ps) + [] == EntriesOf(ps) && EntriesOf(ps)[0].indent == 0;
    }
  }

  lemma SeparatorIsOneLine(sep: string)
    requires Separates(sep)
    ensures forall c | c in sep :: c != '\n'
  {
    forall c | c in sep ensures c != '\n' {
      assert sep == sep[..3] + sep[3..];
      assert c in sep[..3] || c in sep[3..];
    }
  }

  lemma DocumentIsDocLines(d: Document)
    requires Printable(d)
    ensures forall l | l in Lines(Printout(d.tree), d.notes) :: DocLine(l)
  {
    if !d.tree.Absent? {
      TreeIsReadable(d.tree, 0);
      PrintedAreDocLines(TreePieces(d.tree, 0), d.notes);
    }
  }

  lemma {:induction false} AllLinesHold(docs: seq<seq<string>>, seps: seq<string>)
    requires docs != [] && |seps| == |docs| - 1
    ensures forall l | l in AllLines(docs, seps) :: l in seps || exists d :: d in docs && l in d
  {
    assert docs[0] in docs;
    if |docs| > 1 {
      AllLinesHold(docs[1..], seps[1..]);
      assert forall d | d in docs[1..] :: d in docs;
      assert forall s | s in seps[1..] :: s in seps;
      assert seps[0] in seps;
    }
  }

  /** A stream of printed documents loads as their values, in order; an absent root gives no document. */
  lemma LoadUndoesStream(ds: seq<Document>, seps: seq<string>)
    requires ds != [] && |seps| == |ds| - 1
    requires AllPrintable(ds) && forall s | s in seps :: Separates(s)
    ensures Load(Stream(ds, seps)) == Read(Meanings(ds))
  {
    var docs := LinesOf(ds);
    var all := AllLines(docs, seps);
    StreamIsLines(ds, seps);
    forall d, l | d in docs && l in d ensures DocLine(l) {
      var i :| 0 <= i < |ds| && docs[i] == d;
      assert ds[i] in ds;
      DocumentIsDocLines(ds[i]);
    }
    AllLinesHold(docs, seps);
    forall l | l in all ensures forall c | c in l :: c != '\n' {
      if l in seps { SeparatorIsOneLine(l); } else { assert DocLine(l); }
    }
    SplitLFOfLines(all);
    LoadEach(docs, seps, true);
    EachIsMeant(ds);
  }
}
