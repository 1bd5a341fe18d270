/** The text half of the chart reader: comments, block scalar headers and bodies, and the list
    of (indent, content) entries that the parser works on. Every YamlSubsetError is Raised. */
module ChartText {
  import opened Wrappers

  /** What was read, or the one exception that the reader raises, its message left out. */
  datatype Reading<+T> = Read(value: T) | Raised

  // ---- Python's str ---------------------------------------------------------

  /** str.isspace, and what strip() removes. */
  predicate IsSpace(c: char) {
    || '\t' <= c <= '\r' || '\U{1C}' <= c <= ' ' || c == '\U{85}' || c == '\U{A0}'
    || c == '\U{1680}' || '\U{2000}' <= c <= '\U{200A}' || c == '\U{2028}' || c == '\U{2029}'
    || c == '\U{202F}' || c == '\U{205F}' || c == '\U{3000}'
  }

  /** The line boundaries of str.splitlines; each of them is also a space. */
  predicate IsBreak(c: char) {
    || '\n' <= c <= '\r' || '\U{1C}' <= c <= '\U{1E}' || c == '\U{85}'
    || c == '\U{2028}' || c == '\U{2029}'
  }

  function LStrip(s: string): string {
    if s != [] && IsSpace(s[0]) then LStrip(s[1..]) else s
  }

  function RStrip(s: string): string {
    if s != [] && IsSpace(s[|s| - 1]) then RStrip(s[..|s| - 1]) else s
  }

  function Strip(s: string): string { RStrip(LStrip(s)) }

  /** The number of leading U+0020. */
  function Lead(s: string): (n: nat)
    ensures n <= |s|
  {
    if s != [] && s[0] == ' ' then 1 + Lead(s[1..]) else 0
  }

  function Spaces(n: nat): (s: string)
    ensures |s| == n && forall i | 0 <= i < n :: s[i] == ' '
  {
    seq(n, i => ' ')
  }

  predicate Blank(s: string) { Strip(s) == "" }

  predicate StartsWithDash(s: string) { |s| >= 2 && s[0] == '-' && s[1] == ' ' }

  /** `str.splitlines`: CR LF is one boundary, and a final boundary opens no line. */
  function SplitLines(s: string): seq<string> {
    if s == "" then []
    else
      var n := FirstBreak(s);
      if n == |s| then [s]
      else if s[n] == '\r' && n + 1 < |s| && s[n + 1] == '\n' then [s[..n]] + SplitLines(s[n + 2..])
      else [s[..n]] + SplitLines(s[n + 1..])
  }

  function FirstBreak(s: string): (n: nat)
    ensures n <= |s| && (n < |s| ==> IsBreak(s[n]))
    ensures forall i | 0 <= i < n :: !IsBreak(s[i])
  {
    if s == "" || IsBreak(s[0]) then 0 else 1 + FirstBreak(s[1..])
  }

  // ---- comments and key colons ----------------------------------------------

  /** The quote state of both scans: a quote of one kind is text inside the other kind. */
  datatype Quotes = Quotes(inSingle: bool, inDouble: bool) {
    predicate Outside() { !inSingle && !inDouble }

    function After(c: char): Quotes {
      if c == '\'' && !inDouble then Quotes(!inSingle, inDouble)
      else if c == '"' && !inSingle then Quotes(inSingle, !inDouble)
      else this
    }
  }

  const OUTSIDE := Quotes(false, false)

  function StripCommentFrom(line: string, i: nat, q: Quotes): string
    requires i <= |line|
    decreases |line| - i
  {
    if i == |line| then RStrip(line)
    else if line[i] == '#' && q.Outside() && (i == 0 || IsSpace(line[i - 1])) then RStrip(line[..i])
    else StripCommentFrom(line, i + 1, q.After(line[i]))
  }

  method StripComment(line: string) returns (r: string)
    ensures r == StripCommentFrom(line, 0, OUTSIDE)
  {
    var q := OUTSIDE;
    for i := 0 to |line|
      invariant StripCommentFrom(line, 0, OUTSIDE) == StripCommentFrom(line, i, q)
    {
      var c := line[i];
      if c == '\'' && !q.inDouble {
        q := q.(inSingle := !q.inSingle);
      } else if c == '"' && !q.inSingle {
        q := q.(inDouble := !q.inDouble);
      } else if c == '#' && !q.inSingle && !q.inDouble {
        if i == 0 || IsSpace(line[i - 1]) {
          return RStrip(line[..i]);
        }
      }
    }
    return RStrip(line);
  }

  function KeyColonFrom(content: string, i: nat, q: Quotes): (r: Option<nat>)
    requires i <= |content|
    ensures r.Some? ==> i <= r.value < |content| && content[r.value] == ':'
    decreases |content| - i
  {
    if i == |content| then None
    else if content[i] == ':' && q.Outside() && (i + 1 == |content| || content[i + 1] == ' ') then Some(i)
    else KeyColonFrom(content, i + 1, q.After(content[i]))
  }

  /** The colon that ends a mapping key: outside quotes, before a space or the end. */
  function KeyColon(content: string): (r: Option<nat>)
    ensures r.Some? ==> r.value < |content| && content[r.value] == ':'
  {
    KeyColonFrom(content, 0, OUTSIDE)
  }

  method FindKeyColon(content: string) returns (r: Option<nat>)
    ensures r == KeyColon(content)
  {
    var q := OUTSIDE;
    for i := 0 to |content|
      invariant KeyColon(content) == KeyColonFrom(content, i, q)
    {
      var c := content[i];
      if c == '\'' && !q.inDouble {
        q := q.(inSingle := !q.inSingle);
      } else if c == '"' && !q.inSingle {
        q := q.(inDouble := !q.inDouble);
      } else if c == ':' && !q.inSingle && !q.inDouble {
        if i + 1 == |content| || content[i + 1] == ' ' {
          return Some(i);
        }
      }
    }
    return None;
  }

  /** `_parse_scalar`: one pair of outer quotes is dropped. */
  function ParseScalar(s: string): string {
    var r := Strip(s);
    if |r| >= 2 && r[0] == r[|r| - 1] && (r[0] == '\'' || r[0] == '"') then r[1..|r| - 1] else r
  }

  // ---- block scalars --------------------------------------------------------

  datatype Chomp = Clip | StripBreaks | Keep
  datatype Header = Header(folded: bool, chomp: Chomp, digit: Option<nat>)

  predicate IsDigit(c: char) { '1' <= c <= '9' }
  predicate IsChomp(c: char) { c == '+' || c == '-' }
  function Digit(c: char): nat
    requires IsDigit(c)
  {
    c as int - '0' as int
  }
  function ChompOf(c: char): Chomp { if c == '+' then Keep else StripBreaks }

  /** A full match of `|` or `>` with the two indicators in either order, each at most once. */
  function MatchHeader(v: string): Option<Header> {
    if v == "" || (v[0] != '|' && v[0] != '>') then None
    else
      var f := v[0] == '>';
      if |v| == 1 then Some(Header(f, Clip, None))
      else if |v| == 2 && IsDigit(v[1]) then Some(Header(f, Clip, Some(Digit(v[1]))))
      else if |v| == 2 && IsChomp(v[1]) then Some(Header(f, ChompOf(v[1]), None))
      else if |v| == 3 && IsDigit(v[1]) && IsChomp(v[2]) then Some(Header(f, ChompOf(v[2]), Some(Digit(v[1]))))
      else if |v| == 3 && IsChomp(v[1]) && IsDigit(v[2]) then Some(Header(f, ChompOf(v[1]), Some(Digit(v[2]))))
      else None
  }

  /** The value of a header behind its dashes, and the column of the node that owns it. */
  function HeaderOf(value: string, n: Option<nat>): Reading<Option<(Header, nat)>> {
    if value == "" || (value[0] != '|' && value[0] != '>') then Read(None)
    else if MatchHeader(value).None? || n.None? then Raised
    else Read(Some((MatchHeader(value).value, n.value)))
  }

  /** The offset of the parent node of a header, counted from `off`; `unit` is the last dash. */
  function HeaderFrom(rest: string, off: nat, unit: Option<nat>): Reading<Option<(Header, nat)>>
    decreases |rest|
  {
    if StartsWithDash(rest) then
      var skip := Lead(rest[2..]);
      HeaderFrom(rest[2 + skip..], off + 2 + skip, Some(off))
    else
      var colon := KeyColon(rest);
      if colon.Some? then HeaderOf(Strip(rest[colon.value + 1..]), Some(off)) else HeaderOf(Strip(rest), unit)
  }

  function BlockHeader(content: string): Reading<Option<(Header, nat)>> { HeaderFrom(content, 0, None) }

  lemma HeaderStep(rest: string, off: nat, unit: Option<nat>)
    requires StartsWithDash(rest)
    ensures var skip := Lead(rest[2..]);
            HeaderFrom(rest, off, unit) == HeaderFrom(rest[2..][skip..], off + 2 + skip, Some(off))
  {
    var skip := Lead(rest[2..]);
    assert rest[2..][skip..] == rest[2 + skip..];
  }

  method FindBlockHeader(content: string) returns (r: Reading<Option<(Header, nat)>>)
    ensures r == BlockHeader(content)
  {
    var off: nat, unit: Option<nat>, rest := 0, None, content;
    while StartsWithDash(rest)
      invariant BlockHeader(content) == HeaderFrom(rest, off, unit)
      decreases |rest|
    {
      HeaderStep(rest, off, unit);
      unit := Some(off);
      rest := rest[2..];
      off := off + 2;
      var stripped := rest[Lead(rest)..];
      off := off + |rest| - |stripped|;
      rest := stripped;
    }
    r := HeaderAfterDashes(rest, off, unit);
  }

  method HeaderAfterDashes(rest: string, off: nat, unit: Option<nat>) returns (r: Reading<Option<(Header, nat)>>)
    requires !StartsWithDash(rest)
    ensures r == HeaderFrom(rest, off, unit)
  {
    var colon := FindKeyColon(rest);
    var value, n;
    if colon.Some? {
      value, n := Strip(rest[colon.value + 1..]), Some(off);
    } else {
      value, n := Strip(rest), unit;
    }
    if value == "" || (value[0] != '|' && value[0] != '>') {
      return Read(None);
    }
    var m := MatchHeader(value);
    if m.None? || n.None? {
      return Raised;
    }
    return Read(Some((m.value, n.value)));
  }

  function Repeat(c: char, n: nat): (s: string)
    ensures |s| == n && forall i | 0 <= i < n :: s[i] == c
  {
    seq(n, i => c)
  }

  predicate MoreIndented(line: string) { line != "" && (line[0] == ' ' || line[0] == '\t') }

  /** What `_fold` has gathered: the text, the last non-blank line and the blank lines since. */
  datatype Folding = Folding(text: string, prev: Option<string>, blanks: nat)

  function FoldStep(f: Folding, line: string): Folding {
    if line == "" then f.(blanks := f.blanks + 1)
    else
      var glue :=
        if f.prev.None? then Repeat('\n', f.blanks)
        else if MoreIndented(line) || MoreIndented(f.prev.value) then Repeat('\n', f.blanks + 1)
        else if f.blanks > 0 then Repeat('\n', f.blanks)
        else " ";
      Folding(f.text + glue + line, Some(line), 0)
  }

  function FoldFirst(lines: seq<string>, n: nat): Folding
    requires n <= |lines|
  {
    if n == 0 then Folding("", None, 0) else FoldStep(FoldFirst(lines, n - 1), lines[n - 1])
  }

  method Fold(lines: seq<string>) returns (text: string, blanks: nat)
    ensures text == FoldFirst(lines, |lines|).text && blanks == FoldFirst(lines, |lines|).blanks
  {
    text, blanks := "", 0;
    var prev: Option<string> := None;
    for i := 0 to |lines|
      invariant Folding(text, prev, blanks) == FoldFirst(lines, i)
    {
      var line := lines[i];
      if line == "" {
        blanks := blanks + 1;
      } else {
        if prev.None? {
          text := text + Repeat('\n', blanks) + line;
        } else {
          if MoreIndented(line) || MoreIndented(prev.value) {
            text := text + Repeat('\n', blanks + 1);
          } else if blanks > 0 {
            text := text + Repeat('\n', blanks);
          } else {
            text := text + " ";
          }
          text := text + line;
        }
        prev := Some(line);
        blanks := 0;
      }
    }
  }

  function TrimBlanks(lines: seq<string>): (r: seq<string>)
    ensures |r| <= |lines|
  {
    if lines != [] && lines[|lines| - 1] == "" then TrimBlanks(lines[..|lines| - 1]) else lines
  }

  function Join(lines: seq<string>): string {
    if lines == [] then "" else if |lines| == 1 then lines[0] else lines[0] + "\n" + Join(lines[1..])
  }

  /** `_block_scalar_text`: the value of a block scalar from its de-indented lines. */
  function BlockText(folded: bool, chomp: Chomp, lines: seq<string>): string {
    var kept := if chomp == Keep then lines else TrimBlanks(lines);
    var body := if folded then FoldFirst(kept, |kept|).text
                else Join(if chomp == Keep then TrimBlanks(kept) else kept);
    var trailing := if folded then FoldFirst(kept, |kept|).blanks
                    else if chomp == Keep then |kept| - |TrimBlanks(kept)| else 0;
    if body == "" then if chomp == Keep then Repeat('\n', trailing) else ""
    else if chomp == StripBreaks then body
    else if chomp == Keep then body + "\n" + Repeat('\n', trailing)
    else body + "\n"
  }

  method BlockScalarText(folded: bool, chomp: Chomp, lines0: seq<string>) returns (r: string)
    ensures r == BlockText(folded, chomp, lines0)
  {
    var lines := lines0;
    while lines != [] && lines[|lines| - 1] == "" && chomp != Keep
      invariant chomp == Keep ==> lines == lines0
      invariant TrimBlanks(lines) == TrimBlanks(lines0)
      decreases |lines|
    {
      lines := lines[..|lines| - 1];
    }
    var text, trailing := "", 0;
    if !folded {
      var body := lines;
      if chomp == Keep {
        while body != [] && body[|body| - 1] == ""
          invariant TrimBlanks(body) == TrimBlanks(lines)
          invariant trailing == |lines| - |body|
          decreases |body|
        {
          body := body[..|body| - 1];
          trailing := trailing + 1;
        }
      }
      text := Join(body);
    } else {
      text, trailing := Fold(lines);
    }
    if text == "" {
      return if chomp == Keep then Repeat('\n', trailing) else "";
    }
    if chomp == StripBreaks {
      return text;
    }
    if chomp == Keep {
      return text + "\n" + Repeat('\n', trailing);
    }
    return text + "\n";
  }

  // ---- the entry list -------------------------------------------------------

  datatype Entry = Line(indent: nat, content: string) | Body(indent: nat, text: string)

  /** The raw body lines after a header of parent column n, and the indent they are cut at. */
  datatype Taken = Taken(count: nat, indent: Option<nat>)

  function TakeBody(raws: seq<string>, n: nat, indent: Option<nat>): (r: Reading<Taken>)
    ensures r.Read? ==> r.value.count <= |raws|
  {
    if raws == [] then Read(Taken(0, indent))
    else if Blank(raws[0]) then More(TakeBody(raws[1..], n, indent))
    else
      var lead := Lead(raws[0]);
      if lead <= n then Read(Taken(0, indent))
      else
        var cut := if indent.Some? then indent.value else lead;
        if lead < cut then Raised else More(TakeBody(raws[1..], n, Some(cut)))
  }

  function More(r: Reading<Taken>): Reading<Taken> {
    if r.Raised? then Raised else Read(r.value.(count := r.value.count + 1))
  }

  function Drop(line: string, n: nat): string { if n <= |line| then line[n..] else "" }

  function Cut(lines: seq<string>, n: nat): (r: seq<string>)
    ensures |r| == |lines| && forall i | 0 <= i < |lines| :: r[i] == Drop(lines[i], n)
  {
    seq(|lines|, i requires 0 <= i < |lines| => Drop(lines[i], n))
  }

  function BeforeHash(raw: string): string {
    if raw == "" || raw[0] == '#' then "" else [raw[0]] + BeforeHash(raw[1..])
  }

  function Prepend(head: seq<Entry>, r: Reading<seq<Entry>>): Reading<seq<Entry>> {
    if r.Raised? then Raised else Read(head + r.value)
  }

  /** What one raw line at the head of the text becomes, and how many lines it takes. */
  datatype Chunk = Chunk(entries: seq<Entry>, lines: nat)

  function NextChunk(raws: seq<string>): (r: Reading<Chunk>)
    requires raws != []
    ensures r.Read? ==> 1 <= r.value.lines <= |raws|
  {
    var raw := raws[0];
    if '\t' in BeforeHash(raw) then Raised
    else
      var stripped := StripCommentFrom(raw, 0, OUTSIDE);
      if Blank(stripped) then Read(Chunk([], 1))
      else LineChunk(raws, Lead(stripped), Strip(stripped))
  }

  /** A line with content: alone, or with the body that its header announces. */
  function LineChunk(raws: seq<string>, indent: nat, content: string): (r: Reading<Chunk>)
    requires raws != []
    ensures r.Read? ==> 1 <= r.value.lines <= |raws|
  {
    HeaderChunk(raws, indent, content, BlockHeader(content))
  }

  function HeaderChunk(raws: seq<string>, indent: nat, content: string,
                       header: Reading<Option<(Header, nat)>>): (r: Reading<Chunk>)
    requires raws != []
    ensures r.Read? ==> 1 <= r.value.lines <= |raws|
  {
    if header.Raised? then Raised
    else if header.value.None? then Read(Chunk([Line(indent, content)], 1))
    else
      var (h, off) := header.value.value;
      BlockChunk(raws, indent, content, h, indent + off)
  }

  /** The indent a body is cut at: the parent column plus the digit, else the first body line's. */
  function GivenCut(h: Header, n: nat): Option<nat> {
    if h.digit.Some? then Some(n + h.digit.value) else None
  }

  function FinalCut(indent: Option<nat>, n: nat): nat {
    if indent.Some? then indent.value else n + 1
  }

  /** A header line of parent column n and its body. */
  function BlockChunk(raws: seq<string>, indent: nat, content: string, h: Header, n: nat): (r: Reading<Chunk>)
    requires raws != []
    ensures r.Read? ==> 1 <= r.value.lines <= |raws|
  {
    var taken := TakeBody(raws[1..], n, GivenCut(h, n));
    if taken.Raised? then Raised
    else
      var cut := FinalCut(taken.value.indent, n);
      var text := BlockText(h.folded, h.chomp, Cut(raws[1..1 + taken.value.count], cut));
      Read(Chunk([Line(indent, content), Body(cut, text)], 1 + taken.value.count))
  }

  /** `_preprocess` on the split lines of a document. */
  function Entries(raws: seq<string>): Reading<seq<Entry>> {
    if raws == [] then Read([])
    else
      var chunk := NextChunk(raws);
      if chunk.Raised? then Raised
      else Prepend(chunk.value.entries, Entries(raws[chunk.value.lines..]))
  }

  /** One more line of a body. */
  lemma BodyStep(raws: seq<string>, n: nat, first: Option<nat>, k: nat, indent: Option<nat>)
    requires k < |raws| && TakeBody(raws, n, first) == Plus(k, TakeBody(raws[k..], n, indent))
    ensures var lead := Lead(raws[k]); var cut := if indent.Some? then indent.value else lead;
            TakeBody(raws, n, first) ==
            if Blank(raws[k]) then Plus(k + 1, TakeBody(raws[k + 1..], n, indent))
            else if lead <= n then Read(Taken(k, indent))
            else if lead < cut then Raised
            else Plus(k + 1, TakeBody(raws[k + 1..], n, Some(cut)))
  {
    var rest := raws[k..];
    assert rest[0] == raws[k] && rest[1..] == raws[k + 1..];
  }

  /** The inner loop of `_preprocess`: the body lines at the head of what is left. */
  method CollectBody(raws: seq<string>, n: nat, first: Option<nat>) returns (r: Reading<Taken>)
    ensures r == TakeBody(raws, n, first)
  {
    var k := 0;
    var blockIndent: Option<nat> := first;
    assert raws[0..] == raws;
    while k < |raws|
      invariant 0 <= k <= |raws|
      invariant TakeBody(raws, n, first) == Plus(k, TakeBody(raws[k..], n, blockIndent))
    {
      var line := raws[k];
      BodyStep(raws, n, first, k, blockIndent);
      if !Blank(line) {
        var lead := Lead(line);
        if lead <= n {
          break;
        }
        if blockIndent.None? {
          blockIndent := Some(lead);
        }
        if lead < blockIndent.value {
          return Raised;
        }
      }
      k := k + 1;
    }
    return Read(Taken(k, blockIndent));
  }

  /** One turn of the outer loop of `_preprocess`, at the head of the lines that are left. */
  method ReadChunk(raws: seq<string>) returns (r: Reading<Chunk>)
    requires raws != []
    ensures r == NextChunk(raws)
  {
    var raw := raws[0];
    if '\t' in BeforeHash(raw) {
      return Raised;
    }
    var stripped := StripComment(raw);
    if Blank(stripped) {
      return Read(Chunk([], 1));
    }
    r := ReadLine(raws, Lead(stripped), Strip(stripped));
  }

  method ReadLine(raws: seq<string>, indent: nat, content: string) returns (r: Reading<Chunk>)
    requires raws != []
    ensures r == LineChunk(raws, indent, content)
  {
    var header := FindBlockHeader(content);
    r := ReadHeaded(raws, indent, content, header);
  }

  method ReadHeaded(raws: seq<string>, indent: nat, content: string, header: Reading<Option<(Header, nat)>>)
    returns (r: Reading<Chunk>)
    requires raws != []
    ensures r == HeaderChunk(raws, indent, content, header)
  {
    if header.Raised? {
      return Raised;
    }
    if header.value.None? {
      return Read(Chunk([Line(indent, content)], 1));
    }
    var (h, off) := header.value.value;
    r := ReadBlock(raws, indent, content, h, indent + off);
  }

  /** The rest of that turn when the line ends in a block scalar header of parent column n. */
  method ReadBlock(raws: seq<string>, indent: nat, content: string, h: Header, n: nat) returns (r: Reading<Chunk>)
    requires raws != []
    ensures r == BlockChunk(raws, indent, content, h, n)
  {
    var taken := CollectBody(raws[1..], n, GivenCut(h, n));
    if taken.Raised? {
      return Raised;
    }
    var cut := FinalCut(taken.value.indent, n);
    var text := BlockScalarText(h.folded, h.chomp, Cut(raws[1..1 + taken.value.count], cut));
    return Read(Chunk([Line(indent, content), Body(cut, text)], 1 + taken.value.count));
  }

  method Preprocess(raws: seq<string>) returns (r: Reading<seq<Entry>>)
    ensures r == Entries(raws)
  {
    var lines: seq<Entry> := [];
    var k := 0;
    assert raws[0..] == raws;
    PrependNothing(Entries(raws));
    while k < |raws|
      invariant 0 <= k <= |raws|
      invariant Entries(raws) == Prepend(lines, Entries(raws[k..]))
      decreases |raws| - k
    {
      var chunk := ReadChunk(raws[k..]);
      if chunk.Raised? {
        return Raised;
      }
      assert raws[k..][chunk.value.lines..] == raws[k + chunk.value.lines..];
      k := k + chunk.value.lines;
      PrependPrepend(lines, chunk.value.entries, Entries(raws[k..]));
      lines := lines + chunk.value.entries;
    }
    assert lines + [] == lines;
    return Read(lines);
  }

  lemma PrependNothing(r: Reading<seq<Entry>>)
    ensures Prepend([], r) == r
  {
    if r.Read? { assert [] + r.value == r.value; }
  }

  lemma PrependPrepend(a: seq<Entry>, b: seq<Entry>, r: Reading<seq<Entry>>)
    ensures Prepend(a, Prepend(b, r)) == Prepend(a + b, r)
  {
    if r.Read? { assert a + (b + r.value) == a + b + r.value; }
  }

  /** TakeBody after m more lines. */
  ghost function Plus(m: nat, r: Reading<Taken>): Reading<Taken> {
    if r.Raised? then Raised else Read(r.value.(count := r.value.count + m))
  }
}
