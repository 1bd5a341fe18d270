/** The chart reader's scans and block scalars, each by what it finds: the text between white space, the
    colon that ends a key, the comment that is cut, the headers, chomping, folding, and the
    lines a block scalar takes. */
module ChartRules {
  import opened ChartText
  import opened ChartParse
  import opened ChartRoundTrip
  import opened ChartReadBack
  import opened Wrappers

  // ---- white space -------------------------------------------------------------

  /** The code points that str.isspace knows, and those of them that str.splitlines breaks at. */
  lemma SpacesAre(c: char)
    ensures IsSpace(c) <==>
            || 9 <= c as int <= 13 || 28 <= c as int <= 32 || c as int in {0x85, 0xA0, 0x1680}
            || 0x2000 <= c as int <= 0x200A || c as int in {0x2028, 0x2029, 0x202F, 0x205F, 0x3000}
    ensures IsBreak(c) <==> 10 <= c as int <= 13 || 28 <= c as int <= 30 || c as int in {0x85, 0x2028, 0x2029}
  {
  }

  predicate HasBreak(s: string) { exists i :: 0 <= i < |s| && IsBreak(s[i]) }

  lemma FirstBreakIs(line: string, rest: string)
    requires !HasBreak(line) && (rest == "" || IsBreak(rest[0]))
    ensures FirstBreak(line + rest) == |line|
  {
    var s := line + rest;
    assert forall i | 0 <= i < |line| :: s[i] == line[i] && !IsBreak(line[i]);
    assert rest != "" ==> s[|line|] == rest[0];
  }

  /** A line ends at the first break; behind the last break there is no line. */
  lemma LastLineIs(line: string)
    requires !HasBreak(line)
    ensures SplitLines(line) == if line == "" then [] else [line]
  {
    FirstBreakIs(line, "");
    assert line + "" == line;
  }

  lemma LineThenBreak(line: string, b: char, rest: string)
    requires !HasBreak(line) && IsBreak(b) && !(b == '\r' && rest != "" && rest[0] == '\n')
    ensures SplitLines(line + [b] + rest) == [line] + SplitLines(rest)
  {
    var s, n := line + [b] + rest, |line|;
    FirstBreakIs(line, [b] + rest);
    assert s == line + ([b] + rest) && s[n] == b;
    assert rest != "" ==> s[n + 1] == rest[0];
    assert s[..n] == line && s[n + 1..] == rest;
  }

  /** CR LF is one break. */
  lemma LineThenCrLf(line: string, rest: string)
    requires !HasBreak(line)
    ensures SplitLines(line + "\r\n" + rest) == [line] + SplitLines(rest)
  {
    var s, n := line + "\r\n" + rest, |line|;
    FirstBreakIs(line, "\r\n" + rest);
    assert s == line + ("\r\n" + rest) && s[n] == '\r' && s[n + 1] == '\n';
    assert s[..n] == line && s[n + 2..] == rest;
  }

  /** Stripping leaves what stands between the white space at both ends. */
  lemma StripIs(s: string) returns (i: nat, j: nat)
    ensures i <= j <= |s| && Strip(s) == s[i..j]
    ensures (forall k | 0 <= k < i :: IsSpace(s[k])) && forall k | j <= k < |s| :: IsSpace(s[k])
    ensures i < j ==> !IsSpace(s[i]) && !IsSpace(s[j - 1])
  {
    i := LStripIs(s);
    j := RStripIs(s[i..]);
    assert s[i..][..j] == s[i..i + j];
    assert forall k | i <= k < |s| :: s[k] == s[i..][k - i];
    j := i + j;
  }

  lemma {:induction false} LStripIs(s: string) returns (i: nat)
    ensures i <= |s| && LStrip(s) == s[i..] && (forall k | 0 <= k < i :: IsSpace(s[k])) && (i < |s| ==> !IsSpace(s[i]))
  {
    i := 0;
    if s != "" && IsSpace(s[0]) {
      i := LStripIs(s[1..]);
      assert s[1..][i..] == s[i + 1..] && forall k | 0 < k < |s| :: s[k] == s[1..][k - 1];
      i := i + 1;
    }
  }

  lemma {:induction false} RStripIs(s: string) returns (j: nat)
    ensures j <= |s| && RStrip(s) == s[..j] && (forall k | j <= k < |s| :: IsSpace(s[k]))
            && (j > 0 ==> !IsSpace(s[j - 1]))
  {
    j := |s|;
    if s != "" && IsSpace(s[|s| - 1]) {
      j := RStripIs(s[..|s| - 1]);
      assert s[..|s| - 1][..j] == s[..j];
    }
  }

  /** A scalar in a pair of quotes of one kind is what stands between them; any other is itself. */
  lemma ScalarIs(s: string, quote: char, inside: string)
    requires quote == '\'' || quote == '"'
    ensures Strip(s) == [quote] + inside + [quote] ==> ParseScalar(s) == inside
    ensures (forall q, t :: (q == '\'' || q == '"') ==> Strip(s) != [q] + t + [q]) ==> ParseScalar(s) == Strip(s)
  {
    var r := Strip(s);
    if |r| >= 2 && r[0] == r[|r| - 1] { assert r == [r[0]] + r[1..|r| - 1] + [r[0]]; }
    if r == [quote] + inside + [quote] { assert r[1..|r| - 1] == inside; }
  }

  // ---- colons and comments -------------------------------------------------------

  /** A colon outside quotes, at the end or before a space. */
  predicate EndsKey(c: string, i: nat) {
    i < |c| && c[i] == ':' && Closed(c[..i]) && (i + 1 == |c| || c[i + 1] == ' ')
  }

  lemma QuotesStep(c: string, i: nat)
    requires i < |c|
    ensures QuotesAfter(c[..i + 1], OUTSIDE) == QuotesAfter(c[..i], OUTSIDE).After(c[i])
  {
    assert c[..i + 1] == c[..i] + [c[i]];
    QuotesAfterSum(c[..i], [c[i]], OUTSIDE);
    assert [c[i]][1..] == "";
  }

  /** The key ends at the first such colon. */
  lemma KeyColonIff(c: string, i: nat)
    ensures KeyColon(c) == Some(i) <==> EndsKey(c, i) && forall j: nat | j < i :: !EndsKey(c, j)
    ensures KeyColon(c) == None <==> forall j: nat :: !EndsKey(c, j)
  {
    assert c[..0] == "";
    KeyColonFromIs(c, 0, OUTSIDE);
  }

  lemma {:induction false} KeyColonFromIs(c: string, i: nat, q: Quotes)
    requires i <= |c| && q == QuotesAfter(c[..i], OUTSIDE) && forall j: nat | j < i :: !EndsKey(c, j)
    ensures var r := KeyColonFrom(c, i, q);
            if r.Some? then EndsKey(c, r.value) && forall j: nat | j < r.value :: !EndsKey(c, j)
            else forall j: nat :: !EndsKey(c, j)
    decreases |c| - i
  {
    if i < |c| && !EndsKey(c, i) {
      QuotesStep(c, i);
      KeyColonFromIs(c, i + 1, q.After(c[i]));
    }
  }

  /** A hash outside quotes, at the start or behind white space. */
  predicate OpensComment(line: string, i: nat) {
    i < |line| && line[i] == '#' && Closed(line[..i]) && (i == 0 || IsSpace(line[i - 1]))
  }

  /** The line is cut at the first such hash, and stripped on the right either way. */
  lemma CommentIs(line: string, i: nat)
    ensures OpensComment(line, i) && (forall j: nat | j < i :: !OpensComment(line, j)) ==>
              StripCommentFrom(line, 0, OUTSIDE) == RStrip(line[..i])
    ensures (forall j: nat :: !OpensComment(line, j)) ==> StripCommentFrom(line, 0, OUTSIDE) == RStrip(line)
  {
    assert line[..0] == "";
    CommentFromIs(line, 0, OUTSIDE, i);
  }

  lemma {:induction false} CommentFromIs(line: string, k: nat, q: Quotes, i: nat)
    requires k <= |line| && q == QuotesAfter(line[..k], OUTSIDE) && forall j: nat | j < k :: !OpensComment(line, j)
    ensures OpensComment(line, i) && (forall j: nat | j < i :: !OpensComment(line, j)) ==>
              StripCommentFrom(line, k, q) == RStrip(line[..i])
    ensures (forall j: nat :: !OpensComment(line, j)) ==> StripCommentFrom(line, k, q) == RStrip(line)
    decreases |line| - k
  {
    if k < |line| && !OpensComment(line, k) {
      QuotesStep(line, k);
      CommentFromIs(line, k + 1, q.After(line[k]), i);
    }
  }

  // ---- headers -------------------------------------------------------------------

  /** A header as it is written, its two indicators in either order. */
  function Written(h: ChartText.Header, chompFirst: bool): string
    requires h.digit.Some? ==> 1 <= h.digit.value <= 9
  {
    var chomp := match h.chomp case Clip => "" case StripBreaks => "-" case Keep => "+";
    var digit := if h.digit.Some? then ['0' + h.digit.value as char] else "";
    (if h.folded then ">" else "|") + if chompFirst then chomp + digit else digit + chomp
  }

  lemma WrittenIsRead(h: ChartText.Header, chompFirst: bool)
    requires h.digit.Some? ==> 1 <= h.digit.value <= 9
    ensures MatchHeader(Written(h, chompFirst)) == Some(h)
  {
    if h.digit.Some? { assert '1' <= '0' + h.digit.value as char <= '9'; }
  }

  /** And nothing else is a header. */
  lemma ReadIsWritten(v: string)
    requires MatchHeader(v).Some?
    ensures var h := MatchHeader(v).value;
            && (h.digit.Some? ==> 1 <= h.digit.value <= 9)
            && exists chompFirst :: v == Written(h, chompFirst)
  {
    var h := MatchHeader(v).value;
    var first := |v| == 3 && IsChomp(v[1]);
    assert v == Written(h, first);
  }

  /** Behind a plain or quoted key each header is found, with the key's own column. */
  lemma KeyHeaderIsRead(key: Printed, h: ChartText.Header, chompFirst: bool)
    requires CarriesKey(key) && (h.digit.Some? ==> 1 <= h.digit.value <= 9)
    ensures BlockHeader(Show(key) + ": " + Written(h, chompFirst)) == Read(Some((h, 0)))
  {
    var w, c := Written(h, chompFirst), Show(key) + ": " + Written(h, chompFirst);
    WrittenIsTight(h, chompFirst);
    BehindColon(Show(key), w);
    ShownIsNotEmpty(key);
    ColonSkipsKey(c, key);
    KeyIsNoDash(key, c);
    assert KeyColon(c) == Some(|Show(key)|);
    StripSpaceBefore(w);
    WrittenIsRead(h, chompFirst);
    HeaderBehindColon(c, |Show(key)|, w, h);
  }

  lemma ShownIsNotEmpty(key: Printed)
    requires CarriesKey(key)
    ensures Show(key) != ""
  {
    ShownIsRead(key);
  }

  lemma HeaderBehindColon(c: string, colon: nat, w: string, h: ChartText.Header)
    requires !StartsWithDash(c) && KeyColon(c) == Some(colon) && Strip(c[colon + 1..]) == w
    requires w != "" && (w[0] == '|' || w[0] == '>') && MatchHeader(w) == Some(h)
    ensures BlockHeader(c) == Read(Some((h, 0)))
  {
    assert HeaderFrom(c, 0, None) == HeaderOf(w, Some(0));
  }

  lemma BehindColon(key: string, value: string)
    ensures var c := key + ": " + value;
            c[..|key|] == key && c[|key|] == ':' && c[|key| + 1] == ' ' && c[|key| + 1..] == " " + value
  {
  }

  lemma WrittenIsTight(h: ChartText.Header, chompFirst: bool)
    requires h.digit.Some? ==> 1 <= h.digit.value <= 9
    ensures var w := Written(h, chompFirst);
            w != "" && !IsSpace(w[0]) && !IsSpace(w[|w| - 1]) && (w[0] == '|' || w[0] == '>')
  {
    if h.digit.Some? { assert '1' <= '0' + h.digit.value as char <= '9'; }
  }

  lemma KeyIsNoDash(key: Printed, c: string)
    requires CarriesKey(key) && |c| > |Show(key)| && c[..|Show(key)|] == Show(key) && c[|Show(key)|] == ':'
    ensures !StartsWithDash(c)
  {
    var n := |Show(key)|;
    assert n > 0 && c[0] == Show(key)[0] && (n > 1 ==> c[1] == Show(key)[1]);
  }

  // ---- chomping ------------------------------------------------------------------

  function Blanks(k: nat): (r: seq<string>)
    ensures |r| == k && forall i | 0 <= i < k :: r[i] == ""
  {
    seq(k, i => "")
  }

  lemma {:induction false} TrimTrailing(ls: seq<string>, k: nat)
    requires ls == [] || ls[|ls| - 1] != ""
    ensures TrimBlanks(ls + Blanks(k)) == ls
  {
    var all := ls + Blanks(k);
    if k > 0 {
      assert all[|all| - 1] == "" && all[..|all| - 1] == ls + Blanks(k - 1);
      TrimTrailing(ls, k - 1);
    } else {
      assert all == ls;
    }
  }

  lemma {:induction false} FoldTrailing(ls: seq<string>, k: nat)
    requires ls == [] || ls[|ls| - 1] != ""
    ensures var all := ls + Blanks(k);
            && FoldFirst(all, |all|).text == FoldFirst(ls, |ls|).text && FoldFirst(all, |all|).blanks == k
            && FoldFirst(all, |all|).prev == FoldFirst(ls, |ls|).prev
  {
    var all := ls + Blanks(k);
    if k > 0 {
      FoldTrailing(ls, k - 1);
      FoldOfPrefix(all, ls + Blanks(k - 1), |all| - 1);
      assert all[|all| - 1] == "";
    } else {
      assert all == ls;
      if ls != [] { assert FoldStep(FoldFirst(ls, |ls| - 1), ls[|ls| - 1]).blanks == 0; }
    }
  }

  lemma {:induction false} FoldOfPrefix(all: seq<string>, ls: seq<string>, n: nat)
    requires n <= |ls| && n <= |all| && forall i | 0 <= i < n :: all[i] == ls[i]
    ensures FoldFirst(all, n) == FoldFirst(ls, n)
  {
    if n > 0 { FoldOfPrefix(all, ls, n - 1); }
  }

  /** The lines of a scalar before its trailing blank ones, as one text: joined or folded. */
  function Inner(folded: bool, ls: seq<string>): string { if folded then FoldFirst(ls, |ls|).text else Join(ls) }

  lemma InnerIsNotEmpty(folded: bool, ls: seq<string>)
    requires ls != [] && ls[|ls| - 1] != ""
    ensures Inner(folded, ls) != ""
  {
    if folded {
      assert FoldFirst(ls, |ls|) == FoldStep(FoldFirst(ls, |ls| - 1), ls[|ls| - 1]);
    } else {
      JoinIsEmpty(ls);
    }
  }

  /** Clipping keeps one final line break, stripping none, keeping all of them; a scalar of blank lines
      only is empty, unless they are kept. */
  lemma ChompIs(folded: bool, ls: seq<string>, k: nat)
    requires ls == [] || ls[|ls| - 1] != ""
    ensures var all := ls + Blanks(k);
            if ls == [] then
              && BlockText(folded, Clip, all) == "" && BlockText(folded, StripBreaks, all) == ""
              && BlockText(folded, Keep, all) == Repeat('\n', k)
            else
              && BlockText(folded, Clip, all) == Inner(folded, ls) + "\n"
              && BlockText(folded, StripBreaks, all) == Inner(folded, ls)
              && BlockText(folded, Keep, all) == Inner(folded, ls) + "\n" + Repeat('\n', k)
  {
    TrimTrailing(ls, k);
    FoldTrailing(ls, k);
    FoldTrailing(ls, 0);
    assert ls + Blanks(0) == ls;
    if ls != [] { InnerIsNotEmpty(folded, ls); }
  }

  // ---- folding ---------------------------------------------------------------------

  predicate Indented(line: string) { line != "" && (line[0] == ' ' || line[0] == '\t') }

  /** One more line behind others and k blank ones: a line break for each blank line, one space for none,
      and one break more where either line starts with white space. */
  lemma FoldOneMore(ls: seq<string>, k: nat, line: string)
    requires line != "" && (ls == [] || ls[|ls| - 1] != "")
    ensures var glue :=
              if ls == [] then Repeat('\n', k)
              else if Indented(line) || Indented(ls[|ls| - 1]) then Repeat('\n', k + 1)
              else if k == 0 then " "
              else Repeat('\n', k);
            Inner(true, ls + Blanks(k) + [line]) == Inner(true, ls) + glue + line
  {
    var before := ls + Blanks(k);
    var all := before + [line];
    FoldTrailing(ls, k);
    FoldOfPrefix(all, before, |before|);
    assert all[|all| - 1] == line;
    if ls != [] { assert FoldFirst(ls, |ls|).prev == Some(ls[|ls| - 1]); }
  }

  // ---- the lines of a body ------------------------------------------------------------

  predicate InBody(raw: string, n: nat) { Blank(raw) || Lead(raw) > n }

  /** The first line with content among the first k decides where they are cut. */
  ghost predicate CutBy(raws: seq<string>, k: nat, given: Option<nat>, cut: Option<nat>)
    requires k <= |raws|
  {
    if given.Some? then cut == given
    else if forall i | 0 <= i < k :: Blank(raws[i]) then cut == None
    else exists f ::
           0 <= f < k && !Blank(raws[f]) && (forall i | 0 <= i < f :: Blank(raws[i])) && cut == Some(Lead(raws[f]))
  }

  /** One line of a body, or the line it ends at. */
  lemma TakeStep(raws: seq<string>, n: nat, given: Option<nat>)
    ensures raws == [] || !InBody(raws[0], n) ==> TakeBody(raws, n, given) == Read(Taken(0, given))
    ensures raws != [] && Blank(raws[0]) ==> TakeBody(raws, n, given) == More(TakeBody(raws[1..], n, given))
    ensures raws != [] && !Blank(raws[0]) && Lead(raws[0]) > n ==>
              var at := if given.Some? then given.value else Lead(raws[0]);
              TakeBody(raws, n, given) == if Lead(raws[0]) < at then Raised else More(TakeBody(raws[1..], n, Some(at)))
  {
  }

  /** A body takes every blank or deeper line up to the first that is neither, cut at the given column or
      at that of its first line; a line left of that column is refused. */
  lemma {:induction false} TakenIs(raws: seq<string>, n: nat, given: Option<nat>) returns (k: nat, cut: Option<nat>)
    ensures EndsAt(raws, n, k) && CutBy(raws, k, given, cut)
    ensures TakeBody(raws, n, given) == if TooShallow(raws, k, cut) then Raised else Read(Taken(k, cut))
  {
    if raws == [] || !InBody(raws[0], n) {
      NoneTaken(raws, n, given);
      k, cut := 0, given;
    } else {
      var at := if given.Some? || Blank(raws[0]) then given else Some(Lead(raws[0]));
      k, cut := TakenIs(raws[1..], n, at);
      OneMoreLine(raws, n, k);
      OneMoreTaken(raws, k, given, at, cut);
      CutStays(raws[1..], k, at, cut);
      TakeMore(raws, n, given, at, k, cut, TooShallow(raws[1..], k, cut));
      k := k + 1;
    }
  }

  lemma NoneTaken(raws: seq<string>, n: nat, given: Option<nat>)
    requires raws == [] || !InBody(raws[0], n)
    ensures EndsAt(raws, n, 0) && CutBy(raws, 0, given, given)
    ensures TakeBody(raws, n, given) == Read(Taken(0, given)) && !TooShallow(raws, 0, given)
  {
    TakeStep(raws, n, given);
  }

  lemma CutStays(raws: seq<string>, k: nat, given: Option<nat>, cut: Option<nat>)
    requires k <= |raws| && CutBy(raws, k, given, cut)
    ensures given.Some? ==> cut == given
  {
  }

  lemma TakeMore(raws: seq<string>, n: nat, given: Option<nat>, at: Option<nat>, k: nat, cut: Option<nat>, low: bool)
    requires raws != [] && InBody(raws[0], n) && (at.Some? ==> cut == at)
    requires at == if given.Some? || Blank(raws[0]) then given else Some(Lead(raws[0]))
    requires TakeBody(raws[1..], n, at) == if low then Raised else Read(Taken(k, cut))
    ensures TakeBody(raws, n, given) ==
            if low || (cut.Some? && !Blank(raws[0]) && Lead(raws[0]) < cut.value) then Raised
            else Read(Taken(k + 1, cut))
  {
    TakeStep(raws, n, given);
  }

  ghost predicate EndsAt(raws: seq<string>, n: nat, k: nat) {
    k <= |raws| && (forall i | 0 <= i < k :: InBody(raws[i], n)) && (k < |raws| ==> !InBody(raws[k], n))
  }

  lemma OneMoreLine(raws: seq<string>, n: nat, k: nat)
    requires raws != [] && InBody(raws[0], n) && EndsAt(raws[1..], n, k)
    ensures EndsAt(raws, n, k + 1)
  {
    assert forall i | 0 < i < |raws| :: raws[i] == raws[1..][i - 1];
  }

  ghost predicate TooShallow(raws: seq<string>, k: nat, cut: Option<nat>)
    requires k <= |raws|
  {
    cut.Some? && exists i :: 0 <= i < k && !Blank(raws[i]) && Lead(raws[i]) < cut.value
  }

  lemma OneMoreTaken(raws: seq<string>, k: nat, given: Option<nat>, at: Option<nat>, cut: Option<nat>)
    requires raws != [] && k < |raws| && CutBy(raws[1..], k, at, cut)
    requires at == if given.Some? || Blank(raws[0]) then given else Some(Lead(raws[0]))
    ensures CutBy(raws, k + 1, given, cut)
    ensures TooShallow(raws, k + 1, cut) <==>
            TooShallow(raws[1..], k, cut) || (cut.Some? && !Blank(raws[0]) && Lead(raws[0]) < cut.value)
    ensures forall i | 0 < i < |raws| :: raws[i] == raws[1..][i - 1]
  {
    assert forall i | 0 < i < |raws| :: raws[i] == raws[1..][i - 1];
    if given.None? && Blank(raws[0]) && !(forall i | 0 <= i < k :: Blank(raws[1..][i])) {
      var f :| 0 <= f < k && !Blank(raws[1..][f]) && (forall i | 0 <= i < f :: Blank(raws[1..][i]))
               && cut == Some(Lead(raws[1..][f]));
      assert !Blank(raws[f + 1]) && forall i | 0 <= i < f + 1 :: Blank(raws[i]);
    }
    if TooShallow(raws[1..], k, cut) {
      var i :| 0 <= i < k && !Blank(raws[1..][i]) && Lead(raws[1..][i]) < cut.value;
      assert !Blank(raws[i + 1]);
    }
  }

  /** What stands behind a column, nothing where the line is shorter. */
  predicate BehindColumn(raw: string, column: nat, text: string) {
    && |text| == (if |raw| > column then |raw| - column else 0)
    && forall i | 0 <= i < |text| :: text[i] == raw[column + i]
  }

  /** The column of a body: the digit's, that of the first line with content, or one behind the parent's. */
  ghost predicate BodyColumn(raws: seq<string>, k: nat, digit: Option<nat>, n: nat, column: nat)
    requires k <= |raws|
  {
    if digit.Some? then column == n + digit.value
    else if forall i | 0 <= i < k :: Blank(raws[i]) then column == n + 1
    else exists f ::
           0 <= f < k && !Blank(raws[f]) && (forall i | 0 <= i < f :: Blank(raws[i])) && column == Lead(raws[f])
  }

  lemma ColumnIs(raws: seq<string>, k: nat, h: ChartText.Header, n: nat, cut: Option<nat>)
    requires k <= |raws| && CutBy(raws, k, GivenCut(h, n), cut)
    ensures BodyColumn(raws, k, h.digit, n, FinalCut(cut, n))
    ensures TooShallow(raws, k, cut) <==> TooShallow(raws, k, Some(FinalCut(cut, n)))
  {
  }

  /** What stands behind a header: k lines, each behind the column of the body, or an error where one with
      content starts left of it. */
  lemma BodyIs(raws: seq<string>, indent: nat, content: string, h: ChartText.Header, n: nat)
    returns (k: nat, column: nat, texts: seq<string>)
    requires raws != []
    ensures EndsAt(raws[1..], n, k) && BodyColumn(raws[1..], k, h.digit, n, column)
    ensures |texts| == k && forall i | 0 <= i < k :: BehindColumn(raws[1..][i], column, texts[i])
    ensures BlockChunk(raws, indent, content, h, n) ==
            if TooShallow(raws[1..], k, Some(column)) then Raised
            else Read(Chunk([Line(indent, content), Body(column, BlockText(h.folded, h.chomp, texts))], 1 + k))
  {
    var cut, rest := None, raws[1..];
    k, cut := TakenIs(rest, n, GivenCut(h, n));
    column := FinalCut(cut, n);
    texts := Cut(rest[..k], column);
    ColumnIs(rest, k, h, n, cut);
    TextsAre(rest, k, column);
    assert raws[1..1 + k] == rest[..k];
    BodyFromTaken(raws, indent, content, h, n, k, cut, TooShallow(rest, k, cut));
  }

  lemma TextsAre(raws: seq<string>, k: nat, column: nat)
    requires k <= |raws|
    ensures forall i | 0 <= i < k :: BehindColumn(raws[i], column, Cut(raws[..k], column)[i])
  {
  }

  lemma BodyFromTaken(raws: seq<string>, indent: nat, content: string, h: ChartText.Header, n: nat, k: nat,
                      cut: Option<nat>, low: bool)
    requires raws != [] && k < |raws|
    requires TakeBody(raws[1..], n, GivenCut(h, n)) == if low then Raised else Read(Taken(k, cut))
    ensures BlockChunk(raws, indent, content, h, n) ==
            if low then Raised
            else
              var text := BlockText(h.folded, h.chomp, Cut(raws[1..1 + k], FinalCut(cut, n)));
              Read(Chunk([Line(indent, content), Body(FinalCut(cut, n), text)], 1 + k))
  {
  }

  /** A tab in front of any hash. */
  predicate TabInCode(raw: string) { exists i :: 0 <= i < |raw| && raw[i] == '\t' && '#' !in raw[..i] }

  lemma {:induction false} TabIff(raw: string)
    ensures '\t' in BeforeHash(raw) <==> TabInCode(raw)
  {
    if raw != "" {
      var rest := raw[1..];
      TabIff(rest);
      forall i | 0 < i < |raw| ensures raw[..i] == [raw[0]] + rest[..i - 1] && raw[i] == rest[i - 1] { }
      if raw[0] != '#' && TabInCode(rest) {
        var i :| 0 <= i < |rest| && rest[i] == '\t' && '#' !in rest[..i];
        assert raw[i + 1] == '\t' && '#' !in raw[..i + 1];
      }
      if TabInCode(raw) {
        var i :| 0 <= i < |raw| && raw[i] == '\t' && '#' !in raw[..i];
        if i > 0 { assert raw[..i][0] == raw[0] && '#' !in rest[..i - 1]; }
      } else {
        assert raw[..0] == "";
      }
    }
  }

  /** One raw line: refused for a tab, nothing where only a comment or white space is there, else a line
      with content. */
  lemma ChunkIs(raws: seq<string>)
    requires raws != []
    ensures var code := StripCommentFrom(raws[0], 0, OUTSIDE);
            NextChunk(raws) ==
            if TabInCode(raws[0]) then Raised
            else if Blank(code) then Read(Chunk([], 1))
            else LineChunk(raws, Lead(code), Strip(code))
  {
    TabIff(raws[0]);
  }

  /** The first line with content is flush with the indentation. */
  predicate FlushAt(lines: seq<string>, f: nat) {
    f < |lines| && !Blank(lines[f]) && lines[f][0] != ' ' && forall i | 0 <= i < f :: Blank(lines[i])
  }

  lemma {:induction false} BlankBehindSpaces(m: nat, line: string)
    ensures Blank(Spaces(m) + line) <==> Blank(line)
  {
    if m > 0 {
      assert (Spaces(m) + line)[1..] == Spaces(m - 1) + line;
      BlankBehindSpaces(m - 1, line);
    } else {
      assert Spaces(0) + line == line;
    }
  }

  lemma TakesOneMore(raws: seq<string>, n: nat, m: nat, j: nat)
    requires raws != [] && n < m
    requires if Blank(raws[0]) then TakeBody(raws[1..], n, None) == Read(Taken(j, Some(m)))
             else Lead(raws[0]) == m && TakeBody(raws[1..], n, Some(m)) == Read(Taken(j, Some(m)))
    ensures TakeBody(raws, n, None) == Read(Taken(j + 1, Some(m)))
  {
    TakeStep(raws, n, None);
  }

  /** Without a digit the first line's own indentation is found. */
  lemma {:induction false} TakesFlushBody(lines: seq<string>, f: nat, m: nat, n: nat, rest: seq<string>)
    requires n < m && Stops(rest, n) && FlushAt(lines, f)
    ensures TakeBody(BodyLines(m, lines) + rest, n, None) == Read(Taken(|lines|, Some(m)))
    decreases f
  {
    var raws, more := BodyLines(m, lines) + rest, lines[1..];
    assert raws[0] == Spaces(m) + lines[0] && raws[1..] == BodyLines(m, more) + rest;
    BlankBehindSpaces(m, lines[0]);
    if f == 0 {
      LeadOfSpaces(m, lines[0]);
      TakesTheBody(more, m, n, rest);
    } else {
      FlushInRest(lines, f);
      TakesFlushBody(more, f - 1, m, n, rest);
    }
    TakesOneMore(raws, n, m, |more|);
  }

  lemma FlushInRest(lines: seq<string>, f: nat)
    requires f > 0 && FlushAt(lines, f)
    ensures FlushAt(lines[1..], f - 1) && Blank(lines[0])
  {
  }

  /** A header of any style and its indented lines become the header's line and the scalar's text: m is
      the column that the digit asks for, or any deeper one where there is no digit. */
  lemma AnyBodyIsRead(head: string, indent: nat, content: string, h: ChartText.Header, n: nat, m: nat,
                      lines: seq<string>, f: nat, body: seq<string>, rest: seq<string>)
    requires Stops(rest, n) && n < m && (if h.digit.Some? then m == n + h.digit.value else FlushAt(lines, f))
    requires body == BodyLines(m, lines)
    ensures BlockChunk([head] + (body + rest), indent, content, h, n)
            == Read(Chunk([Line(indent, content), Body(m, BlockText(h.folded, h.chomp, lines))], 1 + |body|))
  {
    BodyIsTaken(GivenCut(h, n), n, m, lines, f, rest);
    CutUndoesIndent(lines, m);
    TakenBodyIsRead(head, indent, content, h, n, m, body, lines, rest);
  }

  lemma BodyIsTaken(given: Option<nat>, n: nat, m: nat, lines: seq<string>, f: nat, rest: seq<string>)
    requires Stops(rest, n) && n < m && (given == Some(m) || (given == None && FlushAt(lines, f)))
    ensures TakeBody(BodyLines(m, lines) + rest, n, given) == Read(Taken(|lines|, Some(m)))
  {
    if given == None { TakesFlushBody(lines, f, m, n, rest); } else { TakesTheBody(lines, m, n, rest); }
  }

  lemma TakenBodyIsRead(head: string, indent: nat, content: string, h: ChartText.Header, n: nat, m: nat,
                        body: seq<string>, lines: seq<string>, rest: seq<string>)
    requires TakeBody(body + rest, n, GivenCut(h, n)) == Read(Taken(|body|, Some(m))) && Cut(body, m) == lines
    ensures BlockChunk([head] + (body + rest), indent, content, h, n)
            == Read(Chunk([Line(indent, content), Body(m, BlockText(h.folded, h.chomp, lines))], 1 + |body|))
  {
    var raws := [head] + (body + rest);
    assert raws[1..] == body + rest && raws[1..1 + |body|] == body;
    TakenChunk(raws, indent, content, h, n, Taken(|body|, Some(m)), body, BlockText(h.folded, h.chomp, lines));
  }
}
