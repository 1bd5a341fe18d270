/** What folding keeps: every character but blanks and breaks, in order; words joined by single
    spaces; and every break of a text that is written with a blank line at each. */
module ChartFold {
  import opened ChartText
  import opened Wrappers

  /** The characters of a text without spaces and line feeds. */
  function Ink(s: string): string {
    if s == "" then "" else (if s[0] == ' ' || s[0] == '\n' then "" else [s[0]]) + Ink(s[1..])
  }

  function InkOf(lines: seq<string>, n: nat): string
    requires n <= |lines|
  {
    if n == 0 then "" else InkOf(lines, n - 1) + Ink(lines[n - 1])
  }

  lemma {:induction false} InkAppend(a: string, b: string)
    ensures Ink(a + b) == Ink(a) + Ink(b)
  {
    if a == "" {
      assert a + b == b;
    } else {
      assert (a + b)[1..] == a[1..] + b;
      InkAppend(a[1..], b);
    }
  }

  lemma {:induction false} BreaksHaveNoInk(n: nat)
    ensures Ink(Repeat('\n', n)) == ""
  {
    if n > 0 {
      assert Repeat('\n', n)[1..] == Repeat('\n', n - 1);
      BreaksHaveNoInk(n - 1);
    }
  }

  lemma FoldStepInk(f: Folding, line: string)
    ensures Ink(FoldStep(f, line).text) == Ink(f.text) + Ink(line)
  {
    if line != "" {
      var g := FoldStep(f, line);
      var glue := g.text[|f.text|..|g.text| - |line|];
      assert g.text == f.text + glue + line;
      BreaksHaveNoInk(f.blanks);
      BreaksHaveNoInk(f.blanks + 1);
      assert Ink(glue) == "" by {
        if glue == " " { assert " "[1..] == ""; }
      }
      InkAppend(f.text + glue, line);
      InkAppend(f.text, glue);
    }
  }

  /** No character is lost, added or moved but for blanks and breaks. */
  lemma {:induction false} FoldKeepsTheInk(lines: seq<string>, n: nat)
    requires n <= |lines|
    ensures Ink(FoldFirst(lines, n).text) == InkOf(lines, n)
  {
    if n > 0 {
      FoldKeepsTheInk(lines, n - 1);
      FoldStepInk(FoldFirst(lines, n - 1), lines[n - 1]);
    }
  }

  /** A line that folding may join to its neighbours. */
  predicate Joinable(l: string) { l != "" && !MoreIndented(l) }

  function Words(lines: seq<string>, n: nat): string
    requires n <= |lines|
  {
    if n == 0 then "" else if n == 1 then lines[0] else Words(lines, n - 1) + " " + lines[n - 1]
  }

  /** Adjacent lines become one, with single spaces. */
  lemma {:induction false} FoldJoinsLines(lines: seq<string>, n: nat)
    requires n <= |lines| && forall i | 0 <= i < n :: Joinable(lines[i])
    ensures FoldFirst(lines, n) == Folding(Words(lines, n), if n == 0 then None else Some(lines[n - 1]), 0)
  {
    if n > 0 {
      FoldJoinsLines(lines, n - 1);
      if n == 1 { assert "" + Repeat('\n', 0) + lines[0] == lines[0]; }
    }
  }

  /** A text's lines with a blank line between each two. */
  function Spread(ls: seq<string>): seq<string> {
    if ls == [] then [] else if |ls| == 1 then ls else Spread(ls[..|ls| - 1]) + ["", ls[|ls| - 1]]
  }

  lemma {:induction false} FoldOfPrefix(a: seq<string>, b: seq<string>, n: nat)
    requires n <= |a|
    ensures FoldFirst(a + b, n) == FoldFirst(a, n)
  {
    if n > 0 { FoldOfPrefix(a, b, n - 1); }
  }

  lemma {:induction false} JoinLast(ls: seq<string>)
    requires |ls| > 1
    ensures Join(ls) == Join(ls[..|ls| - 1]) + "\n" + ls[|ls| - 1]
  {
    var n := |ls| - 1;
    if n > 1 {
      JoinLast(ls[1..]);
      assert ls[1..][..n - 1] == ls[..n][1..];
      assert ls[0] + "\n" + (Join(ls[..n][1..]) + "\n" + ls[n]) == ls[0] + "\n" + Join(ls[..n][1..]) + "\n" + ls[n];
    }
  }

  lemma FoldTwoMore(a: seq<string>, x: string)
    ensures FoldFirst(a + ["", x], |a| + 2) == FoldStep(FoldStep(FoldFirst(a, |a|), ""), x)
  {
    var b := ["", x];
    FoldOfPrefix(a, b, |a|);
    assert (a + b)[|a|] == "" && (a + b)[|a| + 1] == x;
    assert FoldFirst(a + b, |a| + 1) == FoldStep(FoldFirst(a + b, |a|), "");
  }

  lemma FoldBreak(f: Folding, x: string)
    requires f.prev.Some? && Joinable(f.prev.value) && Joinable(x) && f.blanks == 0
    ensures FoldStep(FoldStep(f, ""), x) == Folding(f.text + "\n" + x, Some(x), 0)
  {
    assert Repeat('\n', 1) == "\n";
  }

  /** Written with a blank line at each break, every text of joinable lines is folded back to itself. */
  lemma {:induction false} FoldUndoesSpread(ls: seq<string>)
    requires ls != [] && forall l | l in ls :: Joinable(l)
    ensures FoldFirst(Spread(ls), |Spread(ls)|) == Folding(Join(ls), Some(ls[|ls| - 1]), 0)
    decreases |ls|
  {
    var n := |ls| - 1;
    assert ls[n] in ls;
    if n == 0 {
      assert FoldFirst(ls, 0) == Folding("", None, 0);
      assert FoldFirst(ls, 1) == FoldStep(FoldFirst(ls, 0), ls[0]);
      assert "" + Repeat('\n', 0) + ls[0] == ls[0];
    } else {
      assert forall l | l in ls[..n] :: l in ls;
      assert ls[n - 1] in ls && ls[..n][n - 1] == ls[n - 1];
      FoldUndoesSpread(ls[..n]);
      var a := Spread(ls[..n]);
      FoldTwoMore(a, ls[n]);
      FoldBreak(FoldFirst(a, |a|), ls[n]);
      JoinLast(ls);
    }
  }
}
