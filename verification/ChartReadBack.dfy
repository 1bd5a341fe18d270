/** The text half of the round trip: the printed lines preprocess to the printed entries, and the
    printed document splits into exactly those lines. */
module ChartReadBack {
  import opened ChartText
  import opened ChartParse
  import opened ChartRoundTrip
  import opened Wrappers

  /** What the search for a block header answers: no header, one with its column, or a refusal. */
  type Found = Reading<Option<(ChartText.Header, nat)>>

  // ---- printed lines carry no comment ---------------------------------------

  /** No `#` opens a comment: each stands inside quotes or right behind something that is no space. */
  predicate NoHash(c: string, q: Quotes, gap: bool) {
    c == "" || ((c[0] == '#' ==> !q.Outside() || !gap) && NoHash(c[1..], q.After(c[0]), IsSpace(c[0])))
  }

  /** The quotes after a text; closed if it ends outside them. */
  function QuotesAfter(c: string, q: Quotes): Quotes { if c == "" then q else QuotesAfter(c[1..], q.After(c[0])) }

  predicate Closed(c: string) { QuotesAfter(c, OUTSIDE).Outside() }

  lemma {:induction false} NoHashNoComment(line: string, i: nat, q: Quotes)
    requires i <= |line| && NoHash(line[i..], q, i == 0 || IsSpace(line[i - 1]))
    ensures StripCommentFrom(line, i, q) == RStrip(line)
    decreases |line| - i
  {
    if i < |line| {
      assert line[i..][0] == line[i] && line[i..][1..] == line[i + 1..];
      NoHashNoComment(line, i + 1, q.After(line[i]));
    }
  }

  /** A comment behind a closed line is cut off with the space before it. */
  lemma {:induction false} CommentIsCut(line: string, gap: nat, text: string, i: nat, q: Quotes)
    requires i <= |line| && NoHash(line[i..], q, i == 0 || IsSpace(line[i - 1])) && QuotesAfter(line[i..], q).Outside()
    ensures StripCommentFrom(line + (Spaces(gap + 1) + "#" + text), i, q) == RStrip(line + Spaces(gap + 1))
    decreases |line| - i
  {
    var raw := line + (Spaces(gap + 1) + "#" + text);
    if i < |line| {
      assert line[i..][0] == line[i] && line[i..][1..] == line[i + 1..];
      assert raw[i] == line[i] && (i > 0 ==> raw[i - 1] == line[i - 1]);
      CommentIsCut(line, gap, text, i + 1, q.After(line[i]));
    } else {
      assert line[i..] == "";
      assert raw[|line| + gap + 1] == '#' && forall k | |line| <= k < |line| + gap + 1 :: raw[k] == ' ';
      SpacesBeforeHash(raw, |line|, |line| + gap + 1, q);
      assert raw[..|line| + gap + 1] == line + Spaces(gap + 1);
    }
  }

  lemma {:induction false} SpacesBeforeHash(raw: string, i: nat, j: nat, q: Quotes)
    requires i <= j < |raw| && j > 0 && raw[j] == '#' && raw[j - 1] == ' ' && q.Outside()
    requires forall k | i <= k < j :: raw[k] == ' '
    ensures StripCommentFrom(raw, i, q) == RStrip(raw[..j])
    decreases j - i
  {
    if i < j { SpacesBeforeHash(raw, i + 1, j, q); }
  }

  lemma {:induction false} NoHashInSpaces(n: nat, c: string)
    requires NoHash(c, OUTSIDE, true)
    ensures NoHash(Spaces(n) + c, OUTSIDE, true)
    ensures QuotesAfter(Spaces(n) + c, OUTSIDE) == QuotesAfter(c, OUTSIDE)
  {
    if n == 0 {
      assert Spaces(0) + c == c;
    } else {
      assert (Spaces(n) + c)[1..] == Spaces(n - 1) + c;
      NoHashInSpaces(n - 1, c);
    }
  }

  /** Up to the closing quote nothing is a comment. */
  lemma {:induction false} NoHashInText(s: string, quote: char, c: string, gap: bool)
    requires quote == '"' || quote == '\''
    requires quote !in s
    ensures NoHash(s + [quote] + c, OUTSIDE.After(quote), gap) == NoHash(c, OUTSIDE, false)
  {
    if s == "" {
      assert s + [quote] + c == [quote] + c && ([quote] + c)[1..] == c;
    } else {
      var x := s + [quote] + c;
      assert x[0] == s[0] && s[0] in s && x[1..] == s[1..] + [quote] + c;
      NoHashInText(s[1..], quote, c, IsSpace(s[0]));
    }
  }

  /** Without quotes in it, plain text leaves the scan as it was. */
  lemma {:induction false} NoHashInPlain(s: string, c: string, gap: bool)
    requires '"' !in s && '\'' !in s && s != "" && (s[0] == '#' ==> !gap)
    requires forall i | 0 < i < |s| && s[i] == '#' :: !IsSpace(s[i - 1])
    ensures NoHash(s + c, OUTSIDE, gap) == NoHash(c, OUTSIDE, IsSpace(s[|s| - 1]))
  {
    assert s[0] in s && (s + c)[0] == s[0] && (s + c)[1..] == s[1..] + c;
    if |s| == 1 {
      assert s[1..] + c == c;
    } else {
      assert forall i | 0 <= i < |s| - 1 :: s[1..][i] == s[i + 1];
      NoHashInPlain(s[1..], c, IsSpace(s[0]));
    }
  }

  /** At the end of a line it may hold quotes as well. */
  lemma {:induction false} NoHashInLast(s: string, q: Quotes, gap: bool)
    requires s != "" ==> s[0] == '#' ==> !gap
    requires forall i | 0 < i < |s| && s[i] == '#' :: !IsSpace(s[i - 1])
    ensures NoHash(s, q, gap)
  {
    if s != "" {
      assert forall i | 0 <= i < |s| - 1 :: s[1..][i] == s[i + 1];
      NoHashInLast(s[1..], q.After(s[0]), IsSpace(s[0]));
    }
  }

  lemma NoHashInQuotes(p: Printed, c: string, gap: bool)
    requires InQuotes(p)
    ensures NoHash(Show(p) + c, OUTSIDE, gap) == NoHash(c, OUTSIDE, false)
  {
    var quote := Show(p)[0];
    var x := p.text + [quote] + c;
    assert Show(p) + c == [quote] + x && ([quote] + x)[1..] == x;
    NoHashInText(p.text, quote, c, false);
  }

  lemma NoHashInKey(p: Printed, c: string, gap: bool)
    requires CarriesKey(p)
    ensures NoHash(Show(p) + c, OUTSIDE, gap) == NoHash(c, OUTSIDE, false)
  {
    if p.style.Plain? { NoHashInPlain(p.text, c, gap); } else { NoHashInQuotes(p, c, gap); }
  }

  lemma NoHashInScalar(p: Printed, gap: bool)
    requires Carries(p)
    ensures NoHash(Show(p), OUTSIDE, gap)
  {
    if p.style.Plain? {
      NoHashInLast(p.text, OUTSIDE, gap);
    } else {
      NoHashInQuotes(p, "", gap);
      assert Show(p) + "" == Show(p);
    }
  }

  lemma NoHashInHeader(d: nat, gap: bool)
    requires 1 <= d <= 9
    ensures NoHash(HeaderText(d), OUTSIDE, gap)
  {
    NoHashInLast(HeaderText(d), OUTSIDE, gap);
  }

  lemma KeyLineHasNoHash(key: Printed, v: Tree)
    requires CarriesKey(key) && Legal(v)
    ensures NoHash(KeyLine(key, v), OUTSIDE, true)
  {
    match v {
      case Scalar(s) =>
        NoHashInScalar(s, true);
        NoHashBehindKey(key, Show(s));
        assert KeyLine(key, v) == Show(key) + (": " + Show(s));
      case Block(d, _) =>
        NoHashInHeader(d, true);
        NoHashBehindKey(key, HeaderText(d));
        assert KeyLine(key, v) == Show(key) + (": " + HeaderText(d));
      case _ =>
        NoHashInLast(":", OUTSIDE, false);
        NoHashInKey(key, ":", true);
        assert KeyLine(key, v) == Show(key) + ":";
    }
  }

  lemma NoHashBehindKey(key: Printed, value: string)
    requires CarriesKey(key) && NoHash(value, OUTSIDE, true)
    ensures NoHash(Show(key) + (": " + value), OUTSIDE, true)
  {
    var after := ": " + value;
    assert after[1..] == " " + value && after[1..][1..] == value;
    NoHashInKey(key, after, true);
  }

  // ---- the shape of a printed first line ------------------------------------

  /** Starts and ends with a visible character, holds no tab and no line boundary, and is no separator
      line. */
  predicate CleanHead(c: string) {
    && c != "" && !IsSpace(c[0]) && !IsSpace(c[|c| - 1])
    && (forall x | x in c :: x != '\t' && !IsBreak(x))
    && c != "---"
  }

  lemma ShownIsInline(p: Printed)
    requires Carries(p) || CarriesKey(p)
    ensures Inline(Show(p))
  {
    forall c | c in Show(p) ensures c != '\t' && !IsBreak(c) { assert c in p.text || c == '"' || c == '\''; }
  }

  lemma CleanOf(a: string, b: string)
    requires a != "" && b != "" && !IsSpace(a[0]) && !IsSpace(b[|b| - 1]) && Inline(a) && Inline(b) && b[0] == ':'
    ensures CleanHead(a + b)
  {
    var c := a + b;
    assert c[|a|] == ':' && c[0] == a[0] && c[|c| - 1] == b[|b| - 1];
    forall x | x in c ensures x != '\t' && !IsBreak(x) { assert x in a || x in b; }
  }

  lemma InlineBehindColon(s: string)
    requires Inline(s)
    ensures Inline(": " + s)
  {
    forall c | c in ": " + s ensures c != '\t' && !IsBreak(c) { assert c == ':' || c == ' ' || c in s; }
  }

  lemma KeyLineIsClean(key: Printed, v: Tree)
    requires CarriesKey(key) && Legal(v)
    ensures CleanHead(KeyLine(key, v))
  {
    ShownIsRead(key);
    ShownIsInline(key);
    match v {
      case Scalar(s) =>
        ShownIsRead(s);
        ShownIsInline(s);
        KeyWithValueIsClean(Show(key), Show(s));
        assert KeyLine(key, v) == Show(key) + (": " + Show(s));
      case Block(d, _) =>
        HeaderIsClean(d);
        KeyWithValueIsClean(Show(key), HeaderText(d));
        assert KeyLine(key, v) == Show(key) + (": " + HeaderText(d));
      case _ =>
        CleanOf(Show(key), ":");
        assert KeyLine(key, v) == Show(key) + ":";
    }
  }

  lemma KeyWithValueIsClean(key: string, value: string)
    requires key != "" && !IsSpace(key[0]) && Inline(key)
    requires value != "" && !IsSpace(value[|value| - 1]) && Inline(value)
    ensures CleanHead(key + (": " + value))
  {
    InlineBehindColon(value);
    CleanOf(key, ": " + value);
  }

  lemma HeaderIsClean(d: nat)
    requires 1 <= d <= 9
    ensures CleanHead(HeaderText(d))
  {
    assert '1' <= HeaderText(d)[1] <= '9';
  }

  lemma {:induction false} LeadOfSpaces(n: nat, c: string)
    requires c == "" || c[0] != ' '
    ensures Lead(Spaces(n) + c) == n
  {
    if n > 0 {
      assert (Spaces(n) + c)[1..] == Spaces(n - 1) + c;
      LeadOfSpaces(n - 1, c);
    } else {
      assert Spaces(0) + c == c;
    }
  }

  lemma {:induction false} LeadAtLeast(n: nat, c: string)
    ensures Lead(Spaces(n) + c) >= n
  {
    if n > 0 {
      assert (Spaces(n) + c)[1..] == Spaces(n - 1) + c;
      LeadAtLeast(n - 1, c);
    }
  }

  lemma {:induction false} StripOfSpaces(n: nat, c: string)
    requires c != "" && !IsSpace(c[0]) && !IsSpace(c[|c| - 1])
    ensures Strip(Spaces(n) + c) == c && RStrip(Spaces(n) + c) == Spaces(n) + c
  {
    if n > 0 {
      assert (Spaces(n) + c)[1..] == Spaces(n - 1) + c;
      StripOfSpaces(n - 1, c);
    } else {
      assert Spaces(0) + c == c;
    }
  }

  lemma {:induction false} NoTabBeforeHash(s: string)
    requires forall x | x in s :: x != '\t'
    ensures '\t' !in BeforeHash(s)
  {
    if s != "" && s[0] != '#' {
      assert s[0] in s && forall x | x in s[1..] :: x in s;
      NoTabBeforeHash(s[1..]);
    }
  }

  /** The raw line holds this one, without its comment. */
  predicate Holds(raw: string, line: string) { '\t' !in BeforeHash(raw) && StripCommentFrom(raw, 0, OUTSIDE) == line }

  /** A printed line without a block header is one entry. */
  lemma PlainLineChunk(raw: string, n: nat, c: string, rest: seq<string>)
    requires CleanHead(c) && Holds(raw, Spaces(n) + c)
    requires BlockHeader(c) == Read(None)
    ensures Entries([raw] + rest) == Prepend([Line(n, c)], Entries(rest))
  {
    var raws := [raw] + rest;
    LineFacts(n, c);
    assert raws[1..] == rest;
  }

  lemma LineFacts(n: nat, c: string)
    requires CleanHead(c)
    ensures '\t' !in BeforeHash(Spaces(n) + c)
    ensures !Blank(Spaces(n) + c) && Lead(Spaces(n) + c) == n && Strip(Spaces(n) + c) == c
    ensures RStrip(Spaces(n) + c) == Spaces(n) + c
  {
    NoTabBeforeHash(Spaces(n) + c);
    LeadOfSpaces(n, c);
    StripOfSpaces(n, c);
  }

  // ---- block scalar bodies --------------------------------------------------

  /** A line at which a block scalar of parent column n ends. */
  predicate Stops(rest: seq<string>, n: nat) {
    rest == [] || (!Blank(rest[0]) && Lead(rest[0]) <= n)
  }

  lemma {:induction false} TakesTheBody(lines: seq<string>, m: nat, n: nat, rest: seq<string>)
    requires n < m && Stops(rest, n)
    ensures TakeBody(BodyLines(m, lines) + rest, n, Some(m)) == Read(Taken(|lines|, Some(m)))
  {
    var raws := BodyLines(m, lines) + rest;
    if lines == [] {
      assert raws == rest;
    } else {
      assert raws[1..] == BodyLines(m, lines[1..]) + rest;
      TakesTheBody(lines[1..], m, n, rest);
      LeadAtLeast(m, lines[0]);
    }
  }

  lemma CutUndoesIndent(lines: seq<string>, m: nat)
    ensures Cut(BodyLines(m, lines), m) == lines
  {
    forall i | 0 <= i < |lines| ensures Drop(BodyLines(m, lines)[i], m) == lines[i] {
      assert (Spaces(m) + lines[i])[m..] == lines[i];
    }
  }

  lemma {:induction false} TerminatedConcat(a: seq<string>, b: seq<string>)
    ensures Terminated(a + b) == Terminated(a) + Terminated(b)
  {
    if a == [] {
      assert a + b == b;
    } else {
      assert (a + b)[1..] == a[1..] + b;
      TerminatedConcat(a[1..], b);
    }
  }

  lemma {:induction false} JoinTerminated(ls: seq<string>)
    requires ls != []
    ensures Join(ls) + "\n" == Terminated(ls)
  {
    if |ls| > 1 { JoinTerminated(ls[1..]); }
  }

  lemma {:induction false} TerminatedBlanks(ls: seq<string>)
    requires forall l | l in ls :: l == ""
    ensures Terminated(ls) == Repeat('\n', |ls|)
  {
    if ls != [] {
      assert ls[0] in ls && forall l | l in ls[1..] :: l in ls;
      TerminatedBlanks(ls[1..]);
    }
  }

  lemma {:induction false} TrimBlanksSplits(lines: seq<string>)
    ensures var body := TrimBlanks(lines);
            && body <= lines && (body != [] ==> body[|body| - 1] != "")
            && forall l | l in lines[|body|..] :: l == ""
  {
    if lines != [] && lines[|lines| - 1] == "" {
      TrimBlanksSplits(lines[..|lines| - 1]);
      var body := TrimBlanks(lines);
      assert lines[|body|..] == lines[..|lines| - 1][|body|..] + [""];
    }
  }

  lemma {:induction false} JoinIsEmpty(ls: seq<string>)
    requires ls != [] && ls[|ls| - 1] != ""
    ensures Join(ls) != ""
  {
    if |ls| > 1 { JoinIsEmpty(ls[1..]); }
  }

  /** A literal scalar with keep-chomping is its lines, each with its line break. */
  lemma BodyAndBlanks(lines: seq<string>, body: seq<string>, blanks: seq<string>)
    requires body == TrimBlanks(lines) && |body| <= |lines| && blanks == lines[|body|..]
    ensures Terminated(lines) == Terminated(body) + Terminated(blanks)
    ensures Terminated(blanks) == Repeat('\n', |blanks|)
    ensures body != [] ==> body[|body| - 1] != ""
  {
    TrimBlanksSplits(lines);
    SplitAt(lines, body);
    TerminatedConcat(body, blanks);
    TerminatedBlanks(blanks);
  }

  lemma SplitAt(lines: seq<string>, body: seq<string>)
    requires body <= lines
    ensures lines == body + lines[|body|..]
  {
  }

  lemma KeptLiteralIsVerbatim(lines: seq<string>)
    ensures BlockText(false, Keep, lines) == Terminated(lines)
  {
    var body := TrimBlanks(lines);
    var blanks := lines[|body|..];
    BodyAndBlanks(lines, body, blanks);
    if body != [] {
      JoinTerminated(body);
      JoinIsEmpty(body);
    }
  }

  lemma FirstVerbatimLine(s: string) returns (n: nat)
    requires Verbatim(s) && s != ""
    ensures n < |s| && n == FirstBreak(s) && s[n] == '\n'
    ensures s == s[..n] + "\n" + s[n + 1..] && Verbatim(s[n + 1..])
  {
    n := FirstBreak(s);
    assert s[|s| - 1] in s;
    assert n < |s| && s[n] in s;
    assert forall c | c in s[n + 1..] :: c in s;
  }

  lemma {:induction false} SplitVerbatim(s: string)
    requires Verbatim(s)
    ensures Terminated(SplitLines(s)) == s
    ensures forall l | l in SplitLines(s) :: forall c | c in l :: !IsBreak(c)
    decreases |s|
  {
    if s != "" {
      var n := FirstVerbatimLine(s);
      assert SplitLines(s) == [s[..n]] + SplitLines(s[n + 1..]);
      SplitVerbatim(s[n + 1..]);
    }
  }

  lemma HeaderLineChunk(raw: string, n: nat, c: string, h: ChartText.Header, p: nat, below: seq<string>)
    requires CleanHead(c) && Holds(raw, Spaces(n) + c)
    requires n <= p && BlockHeader(c) == Read(Some((h, p - n)))
    ensures NextChunk([raw] + below) == BlockChunk([raw] + below, n, c, h, p)
  {
    var raws := [raw] + below;
    assert raws[0] == raw;
    LineFacts(n, c);
    NextIsLine(raws, Spaces(n) + c, n, c);
    HeaderIsBlock(raws, n, c, BlockHeader(c), h, p);
  }

  lemma HeaderIsBlock(raws: seq<string>, n: nat, c: string, header: Found, h: ChartText.Header, p: nat)
    requires raws != [] && n <= p && header == Read(Some((h, p - n)))
    ensures HeaderChunk(raws, n, c, header) == BlockChunk(raws, n, c, h, p)
  {
  }

  lemma NextIsLine(raws: seq<string>, line: string, n: nat, c: string)
    requires raws != [] && Holds(raws[0], line)
    requires !Blank(line) && Lead(line) == n && Strip(line) == c
    ensures NextChunk(raws) == LineChunk(raws, n, c)
  {
  }

  lemma ChunkOf(head: string, body: seq<string>, rest: seq<string>, n: nat, c: string, h: ChartText.Header, p: nat,
                text: string)
    requires h.digit.Some?
    requires var m := p + h.digit.value;
             && TakeBody(body + rest, p, Some(m)) == Read(Taken(|body|, Some(m)))
             && BlockText(h.folded, h.chomp, Cut(body, m)) == text
    ensures BlockChunk([head] + (body + rest), n, c, h, p)
            == Read(Chunk([Line(n, c), Body(p + h.digit.value, text)], 1 + |body|))
  {
    var raws := [head] + (body + rest);
    assert raws[1..] == body + rest;
    assert raws[1..1 + |body|] == body;
    ChunkOfLines(raws, body, rest, n, c, h, p, text);
  }

  lemma ChunkOfLines(raws: seq<string>, body: seq<string>, rest: seq<string>, n: nat, c: string, h: ChartText.Header,
                     p: nat, text: string)
    requires h.digit.Some? && |raws| == 1 + |body| + |rest| && raws[1..] == body + rest && raws[1..1 + |body|] == body
    requires var m := p + h.digit.value;
             && TakeBody(body + rest, p, Some(m)) == Read(Taken(|body|, Some(m)))
             && BlockText(h.folded, h.chomp, Cut(body, m)) == text
    ensures BlockChunk(raws, n, c, h, p) == Read(Chunk([Line(n, c), Body(p + h.digit.value, text)], 1 + |body|))
  {
    var m := p + h.digit.value;
    assert GivenCut(h, p) == Some(m) && FinalCut(Some(m), p) == m;
    TakenChunk(raws, n, c, h, p, Taken(|body|, Some(m)), body, text);
  }

  lemma TakenChunk(raws: seq<string>, n: nat, c: string, h: ChartText.Header, p: nat, taken: Taken, body: seq<string>,
                   text: string)
    requires raws != [] && TakeBody(raws[1..], p, GivenCut(h, p)) == Read(taken) && taken.count < |raws|
    requires raws[1..1 + taken.count] == body
    requires BlockText(h.folded, h.chomp, Cut(body, FinalCut(taken.indent, p))) == text
    ensures BlockChunk(raws, n, c, h, p)
            == Read(Chunk([Line(n, c), Body(FinalCut(taken.indent, p), text)], 1 + taken.count))
  {
  }

  lemma LiteralChunk(head: string, n: nat, c: string, p: nat, d: nat, text: string, body: seq<string>,
                     rest: seq<string>)
    requires 1 <= d <= 9 && Verbatim(text) && Stops(rest, p) && body == BodyLines(p + d, SplitLines(text))
    ensures BlockChunk([head] + (body + rest), n, c, ChartText.Header(false, Keep, Some(d)), p)
            == Read(Chunk([Line(n, c), Body(p + d, text)], 1 + |body|))
  {
    LiteralBody(p, d, text, rest);
    LiteralChunkOf(head, body, rest, n, c, p, d, text);
  }

  /** The indented lines of the text are taken as the body, and give the text back. */
  lemma LiteralBody(p: nat, d: nat, text: string, rest: seq<string>)
    requires 1 <= d <= 9 && Verbatim(text) && Stops(rest, p)
    ensures IsBody(BodyLines(p + d, SplitLines(text)), p, d, text, rest)
  {
    SplitVerbatim(text);
    LinesAreBody(SplitLines(text), p, d, text, rest);
  }

  lemma LinesAreBody(lines: seq<string>, p: nat, d: nat, text: string, rest: seq<string>)
    requires 1 <= d && Stops(rest, p) && Terminated(lines) == text
    ensures IsBody(BodyLines(p + d, lines), p, d, text, rest)
  {
    var body := BodyLines(p + d, lines);
    TakesTheBody(lines, p + d, p, rest);
    CutUndoesIndent(lines, p + d);
    assert Cut(body, p + d) == lines;
    KeptLiteralIsVerbatim(lines);
  }

  ghost predicate IsBody(body: seq<string>, p: nat, d: nat, text: string, rest: seq<string>) {
    && TakeBody(body + rest, p, Some(p + d)) == Read(Taken(|body|, Some(p + d)))
    && BlockText(false, Keep, Cut(body, p + d)) == text
  }

  lemma LiteralChunkOf(head: string, body: seq<string>, rest: seq<string>, n: nat, c: string, p: nat, d: nat,
                       text: string)
    requires IsBody(body, p, d, text, rest)
    ensures BlockChunk([head] + (body + rest), n, c, ChartText.Header(false, Keep, Some(d)), p)
            == Read(Chunk([Line(n, c), Body(p + d, text)], 1 + |body|))
  {
    ChunkOf(head, body, rest, n, c, ChartText.Header(false, Keep, Some(d)), p, text);
  }

  /** A printed line that ends in a literal header of parent column p, and its body. */
  lemma BlockLineChunk(raw: string, n: nat, c: string, p: nat, d: nat, text: string, rest: seq<string>)
    requires CleanHead(c) && Holds(raw, Spaces(n) + c)
    requires 1 <= d <= 9 && Verbatim(text) && n <= p && Stops(rest, p)
    requires BlockHeader(c) == Read(Some((ChartText.Header(false, Keep, Some(d)), p - n)))
    ensures Entries([raw] + BodyLines(p + d, SplitLines(text)) + rest)
            == Prepend([Line(n, c), Body(p + d, text)], Entries(rest))
  {
    LiteralBody(p, d, text, rest);
    BodyLineChunk(raw, n, c, p, d, text, BodyLines(p + d, SplitLines(text)), rest);
  }

  lemma BodyLineChunk(raw: string, n: nat, c: string, p: nat, d: nat, text: string, body: seq<string>,
                      rest: seq<string>)
    requires CleanHead(c) && Holds(raw, Spaces(n) + c) && n <= p && IsBody(body, p, d, text, rest)
    requires BlockHeader(c) == Read(Some((ChartText.Header(false, Keep, Some(d)), p - n)))
    ensures Entries([raw] + body + rest) == Prepend([Line(n, c), Body(p + d, text)], Entries(rest))
  {
    var raws := [raw] + (body + rest);
    HeaderLineChunk(raw, n, c, ChartText.Header(false, Keep, Some(d)), p, body + rest);
    LiteralChunkOf(raw, body, rest, n, c, p, d, text);
    assert raws == [raw] + body + rest && raws[1 + |body|..] == rest;
    FirstChunk(raws, 1 + |body|, rest, [Line(n, c), Body(p + d, text)]);
  }

  lemma FirstChunk(raws: seq<string>, k: nat, rest: seq<string>, es: seq<Entry>)
    requires raws != [] && NextChunk(raws) == Read(Chunk(es, k)) && k <= |raws| && raws[k..] == rest
    ensures Entries(raws) == Prepend(es, Entries(rest))
  {
  }

  // ---- a printed tree preprocesses to its entries ---------------------------

  /** What a printed piece has to be, for its line to be read as one entry and its body whole. */
  predicate Readable(p: Piece) {
    CleanHead(p.content) && NoHash(p.content, OUTSIDE, true) && HeadsItsBody(p, BlockHeader(p.content))
  }

  /** The line's header, or its absence, is that of the piece. */
  predicate HeadsItsBody(p: Piece, header: Found) {
    match p.body
    case None => header == Read(None)
    case Some(Text(column, d, text)) =>
      && 1 <= d <= 9 && Verbatim(text) && p.indent <= column
      && header == Read(Some((ChartText.Header(false, Keep, Some(d)), column - p.indent)))
  }

  /** Every piece is readable and a body ends at the piece after it. */
  ghost predicate AllReadable(ps: seq<Piece>) {
    && (forall p | p in ps :: Readable(p))
    && (forall i | 0 <= i < |ps| - 1 :: ps[i].body.Some? ==> ps[i + 1].indent <= ps[i].body.value.column)
  }

  /** A body before `rest` ends there. */
  ghost predicate LastStops(ps: seq<Piece>, next: nat) {
    ps != [] && ps[|ps| - 1].body.Some? ==> next <= ps[|ps| - 1].body.value.column
  }

  /** The note behind the piece's line is a comment: on one line, and outside the quotes of the piece. */
  predicate Fits(note: Note, p: Piece) {
    note.Note? ==> Closed(p.content) && forall c | c in note.text :: !IsBreak(c)
  }

  ghost predicate AllFit(notes: seq<Note>, ps: seq<Piece>) {
    |notes| == |ps| && forall i | 0 <= i < |ps| :: Fits(notes[i], ps[i])
  }

  lemma WholeLine(n: nat, c: string, note: Note)
    requires CleanHead(c) && NoHash(c, OUTSIDE, true) && (note.Note? ==> Closed(c))
    ensures Holds(Spaces(n) + c + NoteText(note), Spaces(n) + c)
  {
    match note {
      case NoNote => BareLine(n, c);
      case Note(gap, text) => NotedLine(n, c, gap, text);
    }
  }

  lemma BareLine(n: nat, c: string)
    requires CleanHead(c) && NoHash(c, OUTSIDE, true)
    ensures Holds(Spaces(n) + c + "", Spaces(n) + c)
  {
    var line := Spaces(n) + c;
    NoHashInSpaces(n, c);
    LineFacts(n, c);
    assert line[0..] == line && line + "" == line;
    NoHashNoComment(line, 0, OUTSIDE);
  }

  lemma NotedLine(n: nat, c: string, gap: nat, text: string)
    requires CleanHead(c) && NoHash(c, OUTSIDE, true) && Closed(c)
    ensures Holds(Spaces(n) + c + (Spaces(gap + 1) + "#" + text), Spaces(n) + c)
  {
    LineFacts(n, c);
    NoteIsCut(Spaces(n) + c, n, c, gap, text);
    NoTabBeforeNote(Spaces(n) + c, gap, text);
  }

  lemma NoteIsCut(line: string, n: nat, c: string, gap: nat, text: string)
    requires line == Spaces(n) + c && RStrip(line) == line && NoHash(c, OUTSIDE, true) && Closed(c)
    ensures StripCommentFrom(line + (Spaces(gap + 1) + "#" + text), 0, OUTSIDE) == line
  {
    NoHashInSpaces(n, c);
    assert line[0..] == line;
    CommentIsCut(line, gap, text, 0, OUTSIDE);
    RStripSpaces(line, gap + 1);
  }

  lemma NoTabBeforeNote(line: string, gap: nat, text: string)
    requires forall x | x in line :: x != '\t'
    ensures '\t' !in BeforeHash(line + (Spaces(gap + 1) + "#" + text))
  {
    NoTabBeforeComment(line + Spaces(gap + 1), text);
    assert line + Spaces(gap + 1) + "#" + text == line + (Spaces(gap + 1) + "#" + text);
  }

  lemma {:induction false} RStripSpaces(s: string, n: nat)
    ensures RStrip(s + Spaces(n)) == RStrip(s)
  {
    var t := s + Spaces(n);
    if n > 0 {
      assert t[|t| - 1] == ' ' && t[..|t| - 1] == s + Spaces(n - 1);
      RStripSpaces(s, n - 1);
    } else {
      assert t == s;
    }
  }

  lemma {:induction false} NoTabBeforeComment(s: string, text: string)
    requires forall x | x in s :: x != '\t'
    ensures '\t' !in BeforeHash(s + "#" + text)
  {
    var t := s + "#" + text;
    if s != "" {
      assert t[0] == s[0] && s[0] in s && t[1..] == s[1..] + "#" + text && forall x | x in s[1..] :: x in s;
      NoTabBeforeComment(s[1..], text);
    }
  }

  lemma ReadPiece(p: Piece, note: Note, rest: seq<string>)
    requires Readable(p) && Fits(note, p)
    requires p.body.Some? ==> Stops(rest, p.body.value.column)
    ensures Entries(PieceLines(p, note) + rest)
            == Prepend([Line(p.indent, p.content)] + BodyEntries(p), Entries(rest))
  {
    var raw := Spaces(p.indent) + p.content + NoteText(note);
    WholeLine(p.indent, p.content, note);
    match p.body {
      case None =>
        assert PieceLines(p, note) + rest == [raw] + rest;
        assert [Line(p.indent, p.content)] + BodyEntries(p) == [Line(p.indent, p.content)];
        PlainLineChunk(raw, p.indent, p.content, rest);
      case Some(Text(column, d, text)) =>
        assert [Line(p.indent, p.content)] + BodyEntries(p)
               == [Line(p.indent, p.content), ChartText.Body(column + d, text)];
        BlockLineChunk(raw, p.indent, p.content, column, d, text, rest);
    }
  }

  lemma {:induction false} ReadPieces(ps: seq<Piece>, notes: seq<Note>)
    requires AllReadable(ps) && AllFit(notes, ps)
    ensures Entries(Lines(ps, notes)) == Read(EntriesOf(ps))
  {
    if ps != [] {
      var more, others := ps[1..], notes[1..];
      assert forall p | p in more :: p in ps;
      assert forall i | 0 <= i < |more| :: more[i] == ps[i + 1] && others[i] == notes[i + 1];
      ReadPieces(more, others);
      assert ps[0] in ps && Fits(notes[0], ps[0]);
      if more != [] {
        assert more[0] in ps;
        FirstLine(more, others);
        NotedLineStops(more[0], others[0]);
      }
      ReadPiece(ps[0], notes[0], Lines(more, others));
    }
  }

  lemma FirstLine(ps: seq<Piece>, notes: seq<Note>)
    requires ps != [] && |notes| == |ps|
    ensures Lines(ps, notes) != [] && Lines(ps, notes)[0] == Spaces(ps[0].indent) + ps[0].content + NoteText(notes[0])
  {
  }

  /** A block scalar ends at a printed line, whatever its comment. */
  lemma NotedLineStops(p: Piece, note: Note)
    requires CleanHead(p.content)
    ensures var raw := Spaces(p.indent) + p.content + NoteText(note); !Blank(raw) && Lead(raw) == p.indent
  {
    var tail := p.content + NoteText(note);
    assert Spaces(p.indent) + p.content + NoteText(note) == Spaces(p.indent) + tail;
    LeadOfSpaces(p.indent, tail);
    NotBlank(p.indent, tail);
  }

  lemma {:induction false} NotBlank(n: nat, c: string)
    requires c != "" && !IsSpace(c[0])
    ensures !Blank(Spaces(n) + c)
  {
    if n > 0 {
      assert (Spaces(n) + c)[1..] == Spaces(n - 1) + c;
      NotBlank(n - 1, c);
    } else {
      assert Spaces(0) + c == c && LStrip(c) == c;
      RStripKeepsFirst(c);
    }
  }

  lemma {:induction false} RStripKeepsFirst(c: string)
    requires c != "" && !IsSpace(c[0])
    ensures RStrip(c) != ""
  {
    if IsSpace(c[|c| - 1]) { RStripKeepsFirst(c[..|c| - 1]); }
  }

  // ---- a printed tree is readable -------------------------------------------

  predicate HasParent(c: string) { StartsWithDash(c) || KeyColon(c).Some? }

  /** `moved` is what `found` becomes `shift` columns to the right, with `last` the dash before
      a header without a parent. */
  predicate Moves(found: Found, moved: Found, parent: bool, shift: nat, last: nat) {
    found.Read? ==>
      moved == Read(if found.value.None? then None
                  else Some((found.value.value.0, if parent then found.value.value.1 + shift else last)))
  }

  lemma {:induction false} HeaderShift(c: string, off: nat, unit: Option<nat>, shift: nat, last: nat)
    ensures Moves(HeaderFrom(c, off, unit), HeaderFrom(c, off + shift, Some(last)), HasParent(c), shift, last)
    decreases |c|
  {
    if StartsWithDash(c) {
      var skip := Lead(c[2..]);
      var x := c[2..][skip..];
      HeaderShift(x, off + 2 + skip, Some(off), shift, off + shift);
      UnderDash(x, off + 2 + skip, off);
      MovesUnderDash(HeaderFrom(x, off + 2 + skip, Some(off)), HeaderFrom(x, off + 2 + skip + shift, Some(off + shift)),
                     HasParent(x), off, shift, last);
      HeaderStep(c, off, unit);
      StepMoved(c, off, shift, last);
    } else {
      PlainHeaderShift(c, off, unit, shift, last);
    }
  }

  lemma StepMoved(c: string, off: nat, shift: nat, last: nat)
    requires StartsWithDash(c)
    ensures var skip := Lead(c[2..]);
            HeaderFrom(c, off + shift, Some(last))
            == HeaderFrom(c[2..][skip..], off + 2 + skip + shift, Some(off + shift))
  {
    HeaderStep(c, off + shift, Some(last));
  }

  /** The column of a header is the dash `off` when its line has no parent of its own. */
  predicate Keyless(found: Found, off: nat) { found.Read? && found.value.Some? ==> found.value.value.1 == off }

  lemma UnderDash(x: string, off: nat, dash: nat)
    ensures HasParent(x) || Keyless(HeaderFrom(x, off, Some(dash)), dash)
  {
  }

  lemma MovesUnderDash(found: Found, moved: Found, parent: bool, dash: nat, shift: nat, last: nat)
    requires Moves(found, moved, parent, shift, dash + shift)
    requires parent || Keyless(found, dash)
    ensures Moves(found, moved, true, shift, last)
  {
  }

  lemma PlainHeaderShift(c: string, off: nat, unit: Option<nat>, shift: nat, last: nat)
    requires !StartsWithDash(c)
    ensures Moves(HeaderFrom(c, off, unit), HeaderFrom(c, off + shift, Some(last)), HasParent(c), shift, last)
  {
  }

  lemma HeaderUnderDash(c: string)
    requires c != "" && c[0] != ' '
    ensures HeaderFrom("- " + c, 0, None) == HeaderFrom(c, 2, Some(0))
  {
    assert ("- " + c)[2..] == c && c[0..] == c;
  }

  lemma NoHashUnderDash(c: string)
    requires NoHash(c, OUTSIDE, true)
    ensures NoHash("- " + c, OUTSIDE, true)
  {
    assert ("- " + c)[1..] == " " + c && (" " + c)[1..] == c;
  }

  lemma CleanUnderDash(c: string)
    requires CleanHead(c)
    ensures CleanHead("- " + c)
  {
    assert ("- " + c)[|c| + 1] == c[|c| - 1] && ("- " + c)[1] == ' ';
  }

  /** A dash in front moves the parent column of a header with the line. */
  lemma DashIsReadable(p: Piece, n: nat)
    requires Readable(p) && p.indent == n + 2
    ensures Readable(Piece(n, "- " + p.content, p.body))
  {
    var content := "- " + p.content;
    CleanUnderDash(p.content);
    NoHashUnderDash(p.content);
    DashedBlockHeader(p.content);
    DashHeadsItsBody(p, n, content, BlockHeader(p.content), BlockHeader(content));
    IsReadable(Piece(n, content, p.body), BlockHeader(content));
  }

  lemma IsReadable(p: Piece, h: Found)
    requires CleanHead(p.content) && NoHash(p.content, OUTSIDE, true) && h == BlockHeader(p.content)
             && HeadsItsBody(p, h)
    ensures Readable(p)
  {
  }

  lemma DashHeadsItsBody(p: Piece, n: nat, content: string,
                         h: Found, dashed: Found)
    requires HeadsItsBody(p, h) && p.indent == n + 2
    requires h.Read? && dashed == Read(if h.value.None? then None else Some((h.value.value.0, h.value.value.1 + 2)))
    ensures HeadsItsBody(Piece(n, content, p.body), dashed)
  {
  }

  lemma DashedBlockHeader(c: string)
    requires CleanHead(c) && BlockHeader(c).Read?
    ensures var r := BlockHeader(c).value;
            BlockHeader("- " + c) == Read(if r.None? then None else Some((r.value.0, r.value.1 + 2)))
  {
    HeaderUnderDash(c);
    DashedHeader(c);
  }

  lemma DashedHeader(c: string)
    requires BlockHeader(c).Read?
    ensures var r := BlockHeader(c).value;
            HeaderFrom(c, 2, Some(0)) == Read(if r.None? then None else Some((r.value.0, r.value.1 + 2)))
  {
    HeaderShift(c, 0, None, 2, 0);
    if BlockHeader(c).value.Some? { HeaderHasParent(c); }
  }

  lemma HeaderHasParent(c: string)
    requires BlockHeader(c).Read? && BlockHeader(c).value.Some?
    ensures StartsWithDash(c) || KeyColon(c).Some?
  {
  }

  lemma ScalarIsReadable(p: Printed, n: nat)
    requires Carries(p)
    ensures Readable(Piece(n, Show(p), None))
  {
    ScalarLine(p);
    ShownIsRead(p);
    ShownIsInline(p);
    NoHashInScalar(p, true);
  }

  lemma KeyIsReadable(key: Printed, v: Tree, n: nat)
    requires CarriesKey(key) && Legal(v)
    ensures Readable(KeyPiece(key, v, n)[0])
  {
    KeyLineIsClean(key, v);
    KeyLineHasNoHash(key, v);
    KeyLineHeader(key, v, 0, None);
  }

  lemma LoneDashIsReadable(n: nat)
    ensures Readable(Piece(n, "-", None))
  {
    assert KeyColonFrom("-", 1, OUTSIDE) == None;
    StripNothing("-");
    NoHashInLast("-", OUTSIDE, true);
  }

  lemma BlockItemIsReadable(d: nat, text: string, n: nat)
    requires Legal(Block(d, text))
    ensures Readable(Piece(n, "- " + HeaderText(d), Some(Text(n, d, text))))
  {
    var h := HeaderText(d);
    HeaderLine(d);
    HeaderIsClean(d);
    NoHashInLast("- " + h, OUTSIDE, true);
    assert ("- " + h)[2..] == h && h[0..] == h && ("- " + h)[|h| + 1] == h[|h| - 1];
    assert HeaderFrom("- " + h, 0, None) == HeaderFrom(h, 2, Some(0));
  }

  lemma Join2(a: seq<Piece>, b: seq<Piece>, n: nat)
    requires AllReadable(a) && AllReadable(b)
    requires LastStops(a, n) && (b != [] ==> b[0].indent <= n && LastStops(b, n))
    ensures AllReadable(a + b) && LastStops(a + b, n)
  {
    var c := a + b;
    forall i | 0 <= i < |c| - 1 ensures c[i].body.Some? ==> c[i + 1].indent <= c[i].body.value.column {
      if i >= |a| { assert c[i] == b[i - |a|] && c[i + 1] == b[i - |a| + 1]; }
    }
    if b == [] { assert c == a; } else { assert c[|c| - 1] == b[|b| - 1]; }
  }

  lemma {:induction false} TreeIsReadable(t: Tree, n: nat)
    requires Legal(t) && !t.Absent? && !t.Block?
    ensures AllReadable(TreePieces(t, n)) && LastStops(TreePieces(t, n), n)
    decreases t, 0
  {
    match t {
      case Scalar(s) => ScalarIsReadable(s, n);
      case Mapping(es) => KeysAreReadable(es, n);
      case Sequence(items) => ItemsAreReadable(items, n);
    }
  }

  lemma {:induction false} KeysAreReadable(es: seq<Pair>, n: nat)
    requires forall e | e in es :: CarriesKey(KeyOf(e)) && Legal(e.value)
    ensures AllReadable(KeyPieces(es, n)) && LastStops(KeyPieces(es, n), n)
    decreases es
  {
    if es != [] {
      KeyPieceIsReadable(KeyOf(es[0]), es[0].value, n);
      KeysAreReadable(es[1..], n);
      Join2(KeyPiece(KeyOf(es[0]), es[0].value, n), KeyPieces(es[1..], n), n);
    }
  }

  lemma {:induction false} KeyPieceIsReadable(key: Printed, v: Tree, n: nat)
    requires CarriesKey(key) && Legal(v)
    ensures AllReadable(KeyPiece(key, v, n)) && LastStops(KeyPiece(key, v, n), n)
    decreases v, 1
  {
    var ps := KeyPiece(key, v, n);
    KeyIsReadable(key, v, n);
    if v.Mapping? || v.Sequence? {
      TreeIsReadable(v, n + 2);
      assert ps[1..] == TreePieces(v, n + 2);
      OnePiece(ps, n);
    } else {
      assert ps == [ps[0]];
      Alone(ps[0], n);
    }
  }

  lemma Alone(p: Piece, n: nat)
    requires Readable(p) && (p.body.Some? ==> n <= p.body.value.column)
    ensures AllReadable([p]) && LastStops([p], n)
  {
  }

  /** A readable head without a body, in front of readable pieces. */
  lemma OnePiece(ps: seq<Piece>, n: nat)
    requires ps != [] && Readable(ps[0]) && ps[0].body.None?
    requires AllReadable(ps[1..]) && LastStops(ps[1..], n)
    ensures AllReadable(ps) && LastStops(ps, n)
  {
    assert ps == [ps[0]] + ps[1..];
    forall i | 0 <= i < |ps| - 1 ensures ps[i].body.Some? ==> ps[i + 1].indent <= ps[i].body.value.column {
      if i > 0 { assert ps[i] == ps[1..][i - 1] && ps[i + 1] == ps[1..][i]; }
    }
    if |ps| > 1 { assert ps[|ps| - 1] == ps[1..][|ps| - 2]; }
  }

  lemma {:induction false} ItemsAreReadable(items: seq<Tree>, n: nat)
    requires forall it | it in items :: Legal(it)
    ensures AllReadable(ItemsPieces(items, n)) && LastStops(ItemsPieces(items, n), n)
    decreases items
  {
    if items != [] {
      ItemPieceIsReadable(items[0], n);
      ItemsAreReadable(items[1..], n);
      Join2(ItemPiece(items[0], n), ItemsPieces(items[1..], n), n);
    }
  }

  lemma {:induction false} ItemPieceIsReadable(it: Tree, n: nat)
    requires Legal(it)
    ensures AllReadable(ItemPiece(it, n)) && LastStops(ItemPiece(it, n), n)
    decreases it, 1
  {
    match it {
      case Absent => LoneDashIsReadable(n);
      case Block(d, text) => BlockItemIsReadable(d, text, n);
      case _ =>
        TreeIsReadable(it, n + 2);
        FirstIsReadable(TreePieces(it, n + 2));
        DashIsReadable(TreePieces(it, n + 2)[0], n);
        DashedAreReadable(TreePieces(it, n + 2), n);
    }
  }

  lemma FirstIsReadable(ps: seq<Piece>)
    requires ps != [] && AllReadable(ps)
    ensures Readable(ps[0])
  {
    assert ps[0] in ps;
  }

  lemma FirstAndRest(ps: seq<Piece>, ds: seq<Piece>)
    requires |ds| == |ps| > 0 && ds[1..] == ps[1..] && Readable(ds[0]) && forall p | p in ps :: Readable(p)
    ensures forall p | p in ds :: Readable(p)
  {
    forall p | p in ds ensures Readable(p) {
      if p != ds[0] {
        assert p in ds[1..] && p in ps[1..] && p in ps;
      }
    }
  }

  lemma DashedAreReadable(ps: seq<Piece>, n: nat)
    requires ps != [] && AllReadable(ps) && LastStops(ps, n + 2)
    requires Readable(Dash(ps, n)[0])
    ensures AllReadable(Dash(ps, n)) && LastStops(Dash(ps, n), n)
  {
    var ds := Dash(ps, n);
    assert forall i | 1 <= i < |ps| :: ds[i] == ps[i];
    assert ds[1..] == ps[1..];
    FirstAndRest(ps, ds);
    forall i | 0 <= i < |ds| - 1 ensures ds[i].body.Some? ==> ds[i + 1].indent <= ds[i].body.value.column {
      assert ds[i].body == ps[i].body && ds[i + 1].indent == ps[i + 1].indent;
    }
  }

  // ---- the document around it -----------------------------------------------

  predicate DocLine(l: string) { !IsSeparator(l) && forall c | c in l :: !IsBreak(c) }

  lemma IndentedIsDocLine(m: nat, l: string)
    requires m > 0 && forall c | c in l :: !IsBreak(c)
    ensures DocLine(Spaces(m) + l)
  {
    if |Spaces(m) + l| >= 3 { assert (Spaces(m) + l)[..3][0] == ' '; }
  }

  lemma {:induction false} PrintedAreDocLines(ps: seq<Piece>, notes: seq<Note>)
    requires AllFit(notes, ps) && forall p | p in ps :: Readable(p)
    ensures forall l | l in Lines(ps, notes) :: DocLine(l)
  {
    if ps != [] {
      var p := ps[0];
      assert p in ps && forall q | q in ps[1..] :: q in ps;
      assert forall i | 0 <= i < |ps| - 1 :: ps[1..][i] == ps[i + 1] && notes[1..][i] == notes[i + 1];
      PrintedAreDocLines(ps[1..], notes[1..]);
      PieceIsDocLines(p, notes[0]);
    }
  }

  lemma HeadIsDocLine(n: nat, c: string, note: Note)
    requires CleanHead(c) && (note.Note? ==> forall x | x in note.text :: !IsBreak(x))
    ensures DocLine(Spaces(n) + c + NoteText(note))
  {
    var l, tail := Spaces(n) + c + NoteText(note), c + NoteText(note);
    assert l == Spaces(n) + tail;
    forall x | x in tail ensures !IsBreak(x) { assert x in c || x == ' ' || x == '#' || x in note.text; }
    if n > 0 {
      IndentedIsDocLine(n, tail);
    } else {
      assert l == tail;
      if note.Note? {
        assert NoteText(note)[note.gap + 1] == '#' && '#' in NoteText(note);
        HashIsNoSeparator(l);
      } else {
        assert l == c;
        if IsSeparator(c) { SeparatorEnds(c); }
      }
    }
  }

  /** A separator line is three dashes, or ends in white space. */
  lemma SeparatorEnds(l: string)
    requires IsSeparator(l)
    ensures l == "---" || IsSpace(l[|l| - 1])
  {
    if |l| == 3 { assert l[..3] == l; } else { assert l[3..][|l| - 4] == l[|l| - 1] && l[|l| - 1] in l[3..]; }
  }

  lemma HashIsNoSeparator(l: string)
    requires '#' in l
    ensures !IsSeparator(l)
  {
    var k :| 0 <= k < |l| && l[k] == '#';
    if k >= 3 { assert l[3..][k - 3] == '#' && '#' in l[3..]; } else if |l| >= 3 { assert l[..3][k] == '#'; }
  }

  lemma BodyIsDocLines(m: nat, text: string)
    requires m > 0 && Verbatim(text)
    ensures forall l | l in BodyLines(m, SplitLines(text)) :: DocLine(l)
  {
    var lines := SplitLines(text);
    SplitVerbatim(text);
    forall l | l in BodyLines(m, lines) ensures DocLine(l) {
      var i :| 0 <= i < |lines| && l == BodyLines(m, lines)[i];
      assert lines[i] in lines;
      IndentedIsDocLine(m, lines[i]);
    }
  }

  lemma PieceIsDocLines(p: Piece, note: Note)
    requires Readable(p) && Fits(note, p)
    ensures forall l | l in PieceLines(p, note) :: DocLine(l)
  {
    HeadIsDocLine(p.indent, p.content, note);
    match p.body {
      case None => HeadAndBody(Spaces(p.indent) + p.content + NoteText(note), []);
      case Some(Text(column, d, text)) =>
        BodyIsDocLines(column + d, text);
        HeadAndBody(Spaces(p.indent) + p.content + NoteText(note), BodyLines(column + d, SplitLines(text)));
    }
  }

  lemma HeadAndBody(head: string, body: seq<string>)
    requires DocLine(head) && forall l | l in body :: DocLine(l)
    ensures forall l | l in [head] + body :: DocLine(l)
  {
  }

  lemma {:induction false} SplitLFOfLine(l: string, rest: string)
    requires forall c | c in l :: c != '\n'
    ensures SplitLF(l + "\n" + rest) == [l] + SplitLF(rest)
  {
    if l == "" {
      assert (l + "\n" + rest)[1..] == rest;
    } else {
      assert (l + "\n" + rest)[1..] == l[1..] + "\n" + rest && l[0] in l;
      assert l == [l[0]] + l[1..] && forall c | c in l[1..] :: c in l;
      SplitLFOfLine(l[1..], rest);
    }
  }

  lemma {:induction false} SplitLFOfLines(ls: seq<string>)
    requires forall l | l in ls :: forall c | c in l :: c != '\n'
    ensures SplitLF(Terminated(ls)) == ls + [""]
  {
    if ls != [] {
      assert ls[0] in ls && forall l | l in ls[1..] :: l in ls;
      SplitLFOfLine(ls[0], Terminated(ls[1..]));
      SplitLFOfLines(ls[1..]);
      assert ls + [""] == [ls[0]] + (ls[1..] + [""]);
    }
  }

  lemma {:induction false} NoSeparatorAmong(ls: seq<string>)
    requires forall l | l in ls :: !IsSeparator(l)
    ensures LinesBeforeSeparator(ls) == |ls|
  {
    if ls != [] {
      assert ls[0] in ls && forall l | l in ls[1..] :: l in ls;
      NoSeparatorAmong(ls[1..]);
    }
  }

  lemma {:induction false} JoinWithFinalBreak(ls: seq<string>)
    ensures Join(ls + [""]) == Terminated(ls)
  {
    if ls != [] {
      assert (ls + [""])[1..] == ls[1..] + [""];
      JoinWithFinalBreak(ls[1..]);
    }
  }

  lemma FirstBreakAt(s: string, n: nat)
    requires n < |s| && IsBreak(s[n]) && forall i | 0 <= i < n :: !IsBreak(s[i])
    ensures FirstBreak(s) == n
  {
    assert !(FirstBreak(s) < n);
    assert !(n < FirstBreak(s));
  }

  lemma SplitFirstLine(l: string, rest: string)
    requires forall c | c in l :: !IsBreak(c)
    ensures SplitLines(l + "\n" + rest) == [l] + SplitLines(rest)
  {
    var s := l + "\n" + rest;
    assert forall i | 0 <= i < |l| :: s[i] == l[i] && l[i] in l;
    assert s[|l|] == '\n';
    FirstBreakAt(s, |l|);
    assert s[..|l|] == l && s[|l| + 1..] == rest;
  }

  lemma {:induction false} SplitLinesOfTerminated(ls: seq<string>)
    requires forall l | l in ls :: forall c | c in l :: !IsBreak(c)
    ensures SplitLines(Terminated(ls)) == ls
  {
    if ls != [] {
      assert ls[0] in ls && forall x | x in ls[1..] :: x in ls;
      SplitFirstLine(ls[0], Terminated(ls[1..]));
      SplitLinesOfTerminated(ls[1..]);
      assert ls == [ls[0]] + ls[1..];
    }
  }

  lemma OneDocument(ls: seq<string>)
    requires ls != [] && forall l | l in ls :: DocLine(l)
    ensures Load(Terminated(ls)) == LoadPieces([Terminated(ls)]) && SplitLines(Terminated(ls)) == ls
  {
    forall l | l in ls ensures forall c | c in l :: c != '\n' && !IsBreak(c) { assert DocLine(l); }
    SplitLFOfLines(ls);
    forall l | l in ls + [""] ensures !IsSeparator(l) { assert l in ls || l == ""; }
    NoSeparatorAmong(ls + [""]);
    JoinWithFinalBreak(ls);
    assert "" + Join(ls + [""]) == Terminated(ls);
    SplitLinesOfTerminated(ls);
  }

  /** Loading what was printed returns exactly the one tree, whatever comments stand behind its lines,
      block scalars verbatim; an absent root prints to the empty text, which holds no document. */
  lemma LoadUndoesRender(t: Tree, notes: seq<Note>)
    requires Legal(t) && !t.Block? && AllFit(notes, Printout(t))
    ensures Load(Render(t, notes)) == Read(if t.Absent? then [] else [Meaning(t)])
  {
    if t.Absent? {
      assert SplitLF("") == [""] && LinesBeforeSeparator([""]) == 1;
      assert SplitDocuments([""], true) == ["" + Join([""])];
    } else {
      var ps := TreePieces(t, 0);
      TreeIsReadable(t, 0);
      PrintedAreDocLines(ps, notes);
      FirstLine(ps, notes);
      OneDocument(Lines(ps, notes));
      ReadPieces(ps, notes);
      ParsePrinted(t, 0, []);
      assert EntriesOf(ps) + [] == EntriesOf(ps);
      assert EntriesOf(ps)[0].indent == 0;
      OneValue(Terminated(Lines(ps, notes)), EntriesOf(ps), Meaning(t));
    }
  }

  lemma OneValue(piece: string, entries: seq<Entry>, v: Value)
    requires Entries(SplitLines(piece)) == Read(entries) && entries != [] && entries[0].indent == 0
    requires ParseBlock(entries, 0) == Got(v, [])
    ensures LoadPieces([piece]) == Read([v])
  {
    assert ParseDocument(entries) == Read(v);
    LoadOne(piece, entries, v);
  }

  lemma LoadOne(piece: string, entries: seq<Entry>, v: Value)
    requires Entries(SplitLines(piece)) == Read(entries) && entries != [] && ParseDocument(entries) == Read(v)
    ensures LoadPieces([piece]) == Read([v])
  {
    assert [piece][1..] == [] && [v] + [] == [v];
    assert LoadPieces([]) == Read([]);
  }

  /** So a printed tree is read back as one document iff its root is not absent. */
  lemma OneDocumentIffNotAbsent(t: Tree, notes: seq<Note>)
    requires Legal(t) && !t.Block? && AllFit(notes, Printout(t))
    ensures Load(Render(t, notes)) == Read([Meaning(t)]) <==> !t.Absent?
  {
    LoadUndoesRender(t, notes);
  }

  // ---- one key and one value ---------------------------------------------------

  lemma {:induction false} QuotesAfterSum(a: string, b: string, q: Quotes)
    ensures QuotesAfter(a + b, q) == QuotesAfter(b, QuotesAfter(a, q))
  {
    if a == "" {
      assert a + b == b;
    } else {
      assert (a + b)[0] == a[0] && (a + b)[1..] == a[1..] + b;
      QuotesAfterSum(a[1..], b, q.After(a[0]));
    }
  }

  /** Text without the quote that is open, or without any where none is, leaves the quotes as they are. */
  lemma {:induction false} QuotesStay(s: string, q: Quotes)
    requires q.inDouble || '\'' !in s
    requires q.inSingle || '"' !in s
    requires !(q.inDouble && q.inSingle)
    requires q.inDouble ==> '"' !in s
    requires q.inSingle ==> '\'' !in s
    ensures QuotesAfter(s, q) == q
  {
    if s != "" {
      assert s[0] in s && forall c | c in s[1..] :: c in s;
      QuotesStay(s[1..], q);
    }
  }

  /** A quoted form is closed, and so is a plain one without quotes in it. */
  lemma ShownIsClosed(p: Printed)
    requires InQuotes(p) || (p.style.Plain? && '"' !in p.text && '\'' !in p.text)
    ensures Closed(Show(p))
  {
    if p.style.Plain? {
      QuotesStay(p.text, OUTSIDE);
    } else {
      var quote := Show(p)[0];
      var open := OUTSIDE.After(quote);
      QuotedIsClosed(p.text, quote);
      assert Show(p) == [quote] + (p.text + [quote]);
      assert ([quote] + (p.text + [quote]))[1..] == p.text + [quote];
    }
  }

  lemma {:induction false} QuotedIsClosed(s: string, quote: char)
    requires (quote == '"' || quote == '\'') && quote !in s
    ensures QuotesAfter(s + [quote], OUTSIDE.After(quote)) == OUTSIDE
  {
    var x := s + [quote];
    if s == "" {
      assert x == [quote] && x[1..] == "";
    } else {
      assert x[0] == s[0] && s[0] in s && x[1..] == s[1..] + [quote];
      QuotedIsClosed(s[1..], quote);
    }
  }

  /** One line of a key and a value, each plain or quoted, with or without a comment behind it, loads as
      one mapping of the key's text to the value's text. */
  lemma KeyAndValueAreRead(style: Style, name: string, value: Printed, note: Note)
    requires CarriesKey(Printed(style, name)) && Carries(value)
    requires note.Note? ==> && (forall c | c in note.text :: !IsBreak(c))
                            && (value.style.Plain? ==> '"' !in value.text && '\'' !in value.text)
    ensures Load(Show(Printed(style, name)) + ": " + Show(value) + NoteText(note) + "\n")
            == Read([VMap(map[name := VStr(value.text)])])
  {
    var key, t := Printed(style, name), Mapping([Pair(style, name, Scalar(value))]);
    var line := Show(key) + ": " + Show(value);
    OnePair(style, name, value);
    if note.Note? {
      ShownIsClosed(key);
      ShownIsClosed(value);
      ClosedSum(Show(key), Show(value));
    }
    OneLine(Piece(0, line, None), note);
    assert AllFit([note], [Piece(0, line, None)]);
    LoadUndoesRender(t, [note]);
  }

  lemma OnePair(style: Style, name: string, value: Printed)
    requires CarriesKey(Printed(style, name)) && Carries(value)
    ensures var key, t := Printed(style, name), Mapping([Pair(style, name, Scalar(value))]);
            && Legal(t) && Printout(t) == [Piece(0, Show(key) + ": " + Show(value), None)]
            && Meaning(t) == VMap(map[name := VStr(value.text)])
  {
    var key, v := Printed(style, name), Scalar(value);
    var es := [Pair(style, name, v)];
    var piece := Piece(0, KeyLine(key, v), None);
    assert es[1..] == [] && KeyOf(es[0]) == key;
    assert KeyPieces(es, 0) == [piece] + [];
    assert MapMeaning(es) == map[name := VStr(value.text)] + map[];
    assert KeyLine(key, v) == Show(key) + ": " + Show(value);
  }

  lemma ClosedSum(a: string, b: string)
    requires Closed(a) && Closed(b)
    ensures Closed(a + ": " + b)
  {
    QuotesAfterSum(a, ": " + b, OUTSIDE);
    QuotesAfterSum(": ", b, OUTSIDE);
    QuotesStay(": ", OUTSIDE);
    assert a + ": " + b == a + (": " + b);
  }

  lemma OneLine(p: Piece, note: Note)
    requires p.indent == 0 && p.body.None?
    ensures Terminated(Lines([p], [note])) == p.content + NoteText(note) + "\n"
  {
    var raw := p.content + NoteText(note);
    assert Spaces(0) + p.content == p.content;
    assert [p][1..] == [] && Lines([p], [note]) == [raw];
    assert Terminated([raw]) == raw + "\n" + "";
  }

  /** A line that is blank or holds only a comment is skipped. */
  lemma SkippedLine(gap: nat, note: string, rest: seq<string>)
    ensures Entries([Spaces(gap)] + rest) == Entries(rest)
    ensures Entries([Spaces(gap) + "#" + note] + rest) == Entries(rest)
  {
    var blank, comment := Spaces(gap), Spaces(gap) + "#" + note;
    NoHashInSpaces(gap, "");
    assert Spaces(gap) + "" == Spaces(gap) && blank[0..] == blank;
    NoHashNoComment(blank, 0, OUTSIDE);
    RStripSpaces("", gap);
    assert "" + Spaces(gap) == Spaces(gap);
    NoTabBeforeHash(blank);
    SkipsBlank([blank] + rest, rest);
    NoTabBeforeComment(blank, note);
    if gap > 0 { SpacesBeforeHash(comment, 0, gap, OUTSIDE); } else { assert comment[..0] == ""; }
    assert comment[..gap] == Spaces(gap);
    SkipsBlank([comment] + rest, rest);
  }

  lemma SkipsBlank(raws: seq<string>, rest: seq<string>)
    requires raws != [] && raws[1..] == rest && Holds(raws[0], "")
    ensures Entries(raws) == Entries(rest)
  {
    if Entries(rest).Read? { assert [] + Entries(rest).value == Entries(rest).value; }
  }

  // ---- no block scalar at the root -------------------------------------------

  /** Text whose first line is `l`. */
  predicate StartsWithLine(s: string, l: string) {
    |l| <= |s| && s[..|l|] == l && (|l| == |s| || s[|l|] == '\n')
  }

  lemma {:induction false} FirstOfSplitLF(l: string, rest: string)
    requires '\n' !in l && (rest == "" || rest[0] == '\n')
    ensures SplitLF(l + rest)[0] == l
  {
    var s := l + rest;
    if l == "" {
      assert s == rest;
    } else {
      assert s[0] == l[0] && l[0] in l && s[1..] == l[1..] + rest && forall c | c in l[1..] :: c in l;
      FirstOfSplitLF(l[1..], rest);
      assert [l[0]] + l[1..] == l;
    }
  }

  /** The first document text starts with the first line, if that is no separator. */
  lemma FirstDocument(ls: seq<string>)
    requires ls != [] && !IsSeparator(ls[0])
    ensures SplitDocuments(ls, true) != [] && StartsWithLine(SplitDocuments(ls, true)[0], ls[0])
  {
    var k, l := LinesBeforeSeparator(ls), ls[0];
    if k == |ls| {
      assert SplitDocuments(ls, true)[0] == "" + Join(ls);
      if |ls| > 1 { assert Join(ls) == l + "\n" + Join(ls[1..]); }
    } else {
      assert k > 0 && ls[..k][0] == l;
      assert SplitDocuments(ls, true)[0] == "" + Terminated(ls[..k]);
      assert Terminated(ls[..k]) == l + "\n" + Terminated(ls[..k][1..]);
    }
  }

  lemma FirstOfSplitLines(s: string, l: string)
    requires StartsWithLine(s, l) && l != "" && forall c | c in l :: !IsBreak(c)
    ensures SplitLines(s) != [] && SplitLines(s)[0] == l
  {
    forall i | 0 <= i < |l| ensures !IsBreak(s[i]) { assert s[i] == s[..|l|][i] && l[i] in l; }
    if |l| < |s| { FirstBreakAt(s, |l|); } else { assert s == l; }
  }

  /** A block scalar has no place at the root: its header is refused there. */
  lemma RootHeaderIsRefused(d: nat)
    requires 1 <= d <= 9
    ensures BlockHeader(HeaderText(d)) == Raised
  {
    HeaderLine(d);
  }

  lemma RootLineIsRefused(raws: seq<string>, d: nat)
    requires 1 <= d <= 9 && raws != [] && raws[0] == HeaderText(d)
    ensures Entries(raws) == Raised
  {
    var h := HeaderText(d);
    HeaderIsClean(d);
    NoHashInHeader(d, true);
    WholeLine(0, h, NoNote);
    LineFacts(0, h);
    assert Spaces(0) + h == h && h + "" == h;
    NextIsLine(raws, h, 0, h);
    RootHeaderIsRefused(d);
  }

  /** Loading any text whose first line is a literal header raises, whatever follows it. */
  lemma RootBlockIsRefused(d: nat, rest: string)
    requires 1 <= d <= 9 && (rest == "" || rest[0] == '\n')
    ensures Load(HeaderText(d) + rest) == Raised
  {
    var h, ls := HeaderText(d), SplitLF(HeaderText(d) + rest);
    assert h[0] == '|' && h[2] == '+' && '0' <= h[1] <= '9' && |h| == 3;
    assert forall c | c in h :: !IsBreak(c) && c != '\n';
    FirstOfSplitLF(h, rest);
    assert h[..3][0] != "---"[0];
    FirstDocument(ls);
    var piece := SplitDocuments(ls, true)[0];
    FirstOfSplitLines(piece, h);
    RootLineIsRefused(SplitLines(piece), d);
  }
}
