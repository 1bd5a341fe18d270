/** Reading undoes printing. A tree of mappings, sequences, absent values, plain and quoted scalars and
    literal block scalars is printed as YAML text and loaded back, character for character. */
module ChartRoundTrip {
  import opened ChartText
  import opened ChartParse
  import opened Wrappers

  datatype Tree =
    | Absent
    | Scalar(s: Printed)
    | Block(digit: nat, text: string)
    | Mapping(entries: seq<Pair>)
    | Sequence(items: seq<Tree>)

  datatype Pair = Pair(style: Style, key: string, value: Tree)

  function KeyOf(e: Pair): Printed { Printed(e.style, e.key) }

  /** A key or a scalar, and how it is written. */
  datatype Printed = Printed(style: Style, text: string)
  datatype Style = Double | Single | Plain

  function Show(p: Printed): string {
    match p.style case Double => "\"" + p.text + "\"" case Single => "'" + p.text + "'" case Plain => p.text
  }

  predicate Inline(s: string) { forall c | c in s :: c != '\t' && !IsBreak(c) }

  /** Text that a quoted form can carry: anything on one line but its own quote and a tab. */
  predicate InQuotes(p: Printed) {
    !p.style.Plain? && Inline(p.text) && (if p.style.Double? then '"' else '\'') !in p.text
  }

  /** Text that a plain form can carry anywhere: no white space around it, no comment in it, no dash that
      opens an item, no document separator. */
  predicate PlainText(s: string) {
    && Inline(s) && s != "" && !IsSpace(s[0]) && !IsSpace(s[|s| - 1])
    && (forall i | 0 <= i < |s| && s[i] == '#' :: i > 0 && !IsSpace(s[i - 1]))
    && s != "-" && s != "---" && !(|s| >= 2 && s[0] == '-' && s[1] == ' ')
  }

  /** A plain scalar also ends no key, opens no block scalar, and is not wrapped in one kind of quote. */
  predicate Carries(p: Printed) {
    if !p.style.Plain? then InQuotes(p)
    else
      var s := p.text;
      && PlainText(s) && s[0] != '|' && s[0] != '>'
      && (forall i | 0 <= i < |s| && s[i] == ':' :: i + 1 < |s| && s[i + 1] != ' ')
      && !(|s| >= 2 && s[0] == s[|s| - 1] && (s[0] == '\'' || s[0] == '"'))
  }

  /** A plain key holds no quote and no colon before a space. */
  predicate CarriesKey(p: Printed) {
    if !p.style.Plain? then InQuotes(p)
    else
      && PlainText(p.text) && '"' !in p.text && '\'' !in p.text
      && forall i | 0 <= i < |p.text| - 1 && p.text[i] == ':' :: p.text[i + 1] != ' '
  }

  /** Text a block scalar carries verbatim: LF is its only line boundary, and it ends with one. */
  predicate Verbatim(s: string) {
    && (s == "" || s[|s| - 1] == '\n')
    && forall c | c in s :: IsBreak(c) ==> c == '\n'
  }

  predicate Legal(t: Tree) {
    match t
    case Absent => true
    case Scalar(s) => Carries(s)
    case Block(d, text) => 1 <= d <= 9 && Verbatim(text)
    case Mapping(es) => es != [] && forall e | e in es :: CarriesKey(KeyOf(e)) && Legal(e.value)
    case Sequence(items) => items != [] && forall it | it in items :: Legal(it)
  }

  /** The value a tree stands for. A repeated key keeps its last value, as in a Python dict. */
  function Meaning(t: Tree): Value {
    match t
    case Absent => VNone
    case Scalar(s) => VStr(s.text)
    case Block(_, text) => VStr(text)
    case Mapping(es) => VMap(MapMeaning(es))
    case Sequence(items) => VList(ListMeaning(items))
  }

  function MapMeaning(es: seq<Pair>): map<string, Value> {
    if es == [] then map[] else map[es[0].key := Meaning(es[0].value)] + MapMeaning(es[1..])
  }

  function ListMeaning(items: seq<Tree>): seq<Value> {
    if items == [] then [] else [Meaning(items[0])] + ListMeaning(items[1..])
  }

  /** With distinct keys every entry is in the mapping with its own value. */
  lemma {:induction false} KeysOfMeaning(es: seq<Pair>)
    ensures forall k :: k in MapMeaning(es) <==> exists i | 0 <= i < |es| :: es[i].key == k
  {
    if es != [] {
      KeysOfMeaning(es[1..]);
      assert forall i | 0 < i < |es| :: es[i] == es[1..][i - 1];
      forall k | k in MapMeaning(es[1..]) ensures exists i | 0 <= i < |es| :: es[i].key == k {
        var i :| 0 <= i < |es[1..]| && es[1..][i].key == k;
        assert es[i + 1].key == k;
      }
    }
  }

  lemma {:induction false} DistinctKeysKeepEveryEntry(es: seq<Pair>)
    requires forall i, j | 0 <= i < j < |es| :: es[i].key != es[j].key
    ensures forall k :: k in MapMeaning(es) <==> exists i | 0 <= i < |es| :: es[i].key == k
    ensures forall i | 0 <= i < |es| :: es[i].key in MapMeaning(es) && MapMeaning(es)[es[i].key] == Meaning(es[i].value)
  {
    KeysOfMeaning(es);
    if es != [] {
      DistinctKeysKeepEveryEntry(es[1..]);
      assert forall i | 0 < i < |es| :: es[i] == es[1..][i - 1];
    }
  }

  // ---- printing -------------------------------------------------------------

  /** A literal header that keeps every line break, with an explicit indentation digit. */
  function HeaderText(d: nat): string
    requires 1 <= d <= 9
  {
    "|" + ['0' + d as char] + "+"
  }

  function KeyLine(key: Printed, v: Tree): string
    requires Legal(v)
  {
    Show(key) + ":" + match v
                       case Scalar(s) => " " + Show(s)
                       case Block(d, _) => " " + HeaderText(d)
                       case _ => ""
  }

  /** A printed line and, if it ends in a block header, the column and text of the body below. */
  datatype Piece = Piece(indent: nat, content: string, body: Option<Body>)
  datatype Body = Text(column: nat, digit: nat, text: string)

  function Dash(ps: seq<Piece>, n: nat): seq<Piece>
    requires ps != []
  {
    [Piece(n, "- " + ps[0].content, ps[0].body)] + ps[1..]
  }

  /** A tree printed at column n: children two columns further in, items after a dash. */
  function TreePieces(t: Tree, n: nat): (ps: seq<Piece>)
    requires Legal(t) && !t.Absent? && !t.Block?
    ensures ps != [] && ps[0].indent == n
    decreases t, 0
  {
    match t
    case Scalar(s) => [Piece(n, Show(s), None)]
    case Mapping(es) => KeyPieces(es, n)
    case Sequence(items) => ItemsPieces(items, n)
  }

  function KeyPieces(es: seq<Pair>, n: nat): (ps: seq<Piece>)
    requires forall e | e in es :: CarriesKey(KeyOf(e)) && Legal(e.value)
    ensures es != [] ==> ps != []
    ensures ps != [] ==> es != [] && ps[0].indent == n && ps[0].content == KeyLine(KeyOf(es[0]), es[0].value)
    decreases es
  {
    if es == [] then [] else KeyPiece(KeyOf(es[0]), es[0].value, n) + KeyPieces(es[1..], n)
  }

  function KeyPiece(key: Printed, v: Tree, n: nat): (ps: seq<Piece>)
    requires CarriesKey(key) && Legal(v)
    ensures ps != [] && ps[0].indent == n && ps[0].content == KeyLine(key, v)
    decreases v, 1
  {
    match v
    case Block(d, text) => [Piece(n, KeyLine(key, v), Some(Text(n, d, text)))]
    case Mapping(_) => [Piece(n, KeyLine(key, v), None)] + TreePieces(v, n + 2)
    case Sequence(_) => [Piece(n, KeyLine(key, v), None)] + TreePieces(v, n + 2)
    case _ => [Piece(n, KeyLine(key, v), None)]
  }

  function ItemsPieces(items: seq<Tree>, n: nat): (ps: seq<Piece>)
    requires forall it | it in items :: Legal(it)
    ensures items != [] ==> ps != []
    ensures ps != [] ==> ps[0].indent == n && IsDash(ps[0].content)
    decreases items
  {
    if items == [] then [] else ItemPiece(items[0], n) + ItemsPieces(items[1..], n)
  }

  function ItemPiece(it: Tree, n: nat): (ps: seq<Piece>)
    requires Legal(it)
    ensures ps != [] && ps[0].indent == n && IsDash(ps[0].content)
    decreases it, 1
  {
    match it
    case Absent => [Piece(n, "-", None)]
    case Block(d, text) => [Piece(n, "- " + HeaderText(d), Some(Text(n, d, text)))]
    case _ => Dash(TreePieces(it, n + 2), n)
  }

  function BodyLines(m: nat, lines: seq<string>): (r: seq<string>)
    ensures |r| == |lines| && forall i | 0 <= i < |lines| :: r[i] == Spaces(m) + lines[i]
  {
    seq(|lines|, i requires 0 <= i < |lines| => Spaces(m) + lines[i])
  }

  /** What stands behind a printed line: nothing, or a comment after at least one space. */
  datatype Note = NoNote | Note(gap: nat, text: string)

  function NoteText(note: Note): string {
    match note case NoNote => "" case Note(gap, text) => Spaces(gap + 1) + "#" + text
  }

  /** A body stands `digit` columns to the right of its parent column. */
  function PieceLines(p: Piece, note: Note): seq<string> {
    [Spaces(p.indent) + p.content + NoteText(note)]
    + if p.body.Some? then BodyLines(p.body.value.column + p.body.value.digit, SplitLines(p.body.value.text)) else []
  }

  function Lines(ps: seq<Piece>, notes: seq<Note>): seq<string>
    requires |notes| == |ps|
  {
    if ps == [] then [] else PieceLines(ps[0], notes[0]) + Lines(ps[1..], notes[1..])
  }

  /** The printed pieces of a root; an absent one has none. */
  function Printout(t: Tree): seq<Piece>
    requires Legal(t) && !t.Block?
  {
    if t.Absent? then [] else TreePieces(t, 0)
  }

  function Render(t: Tree, notes: seq<Note>): string
    requires Legal(t) && !t.Block? && |notes| == |Printout(t)|
  {
    Terminated(Lines(Printout(t), notes))
  }

  // ---- the entries of printed pieces ----------------------------------------

  function BodyEntries(p: Piece): seq<Entry> {
    if p.body.Some? then [ChartText.Body(p.body.value.column + p.body.value.digit, p.body.value.text)] else []
  }

  function EntriesOf(ps: seq<Piece>): seq<Entry> {
    if ps == [] then [] else [Line(ps[0].indent, ps[0].content)] + BodyEntries(ps[0]) + EntriesOf(ps[1..])
  }

  /** Everything after the first line. */
  function Below(ps: seq<Piece>): seq<Entry>
    requires ps != []
  {
    BodyEntries(ps[0]) + EntriesOf(ps[1..])
  }

  lemma {:induction false} EntriesOfConcat(a: seq<Piece>, b: seq<Piece>)
    ensures EntriesOf(a + b) == EntriesOf(a) + EntriesOf(b)
  {
    if a == [] {
      assert a + b == b;
    } else {
      assert (a + b)[1..] == a[1..] + b;
      EntriesOfConcat(a[1..], b);
    }
  }

  lemma BelowConcat(a: seq<Piece>, b: seq<Piece>)
    requires a != []
    ensures Below(a + b) == Below(a) + EntriesOf(b)
  {
    var c := a + b;
    assert c[0] == a[0] && c[1..] == a[1..] + b;
    EntriesOfConcat(a[1..], b);
    assert Below(c) == BodyEntries(a[0]) + (EntriesOf(a[1..]) + EntriesOf(b));
  }

  lemma EntriesConcat(a: seq<Piece>, b: seq<Piece>)
    ensures EntriesOf(a + b) == EntriesOf(a) + EntriesOf(b)
    ensures a != [] ==> Below(a + b) == Below(a) + EntriesOf(b)
  {
    EntriesOfConcat(a, b);
    if a != [] { BelowConcat(a, b); }
  }

  // ---- what the string scans say about printed lines ------------------------

  lemma {:induction false} ColonSkipsText(line: string, i: nat, j: nat, q: Quotes)
    requires i <= j <= |line| && !q.Outside() && !(q.inSingle && q.inDouble)
    requires forall k | i <= k < j :: line[k] != if q.inDouble then '"' else '\''
    ensures KeyColonFrom(line, i, q) == KeyColonFrom(line, j, q)
    decreases j - i
  {
    if i < j { ColonSkipsText(line, i + 1, j, q); }
  }

  /** Outside quotes a colon that no space follows ends no key. */
  lemma {:induction false} ColonSkipsPlain(line: string, i: nat, j: nat)
    requires i <= j <= |line|
    requires forall k | i <= k < j :: line[k] != '"' && line[k] != '\''
    requires forall k | i <= k < j && line[k] == ':' :: k + 1 < |line| && line[k + 1] != ' '
    ensures KeyColonFrom(line, i, OUTSIDE) == KeyColonFrom(line, j, OUTSIDE)
    decreases j - i
  {
    if i < j { ColonSkipsPlain(line, i + 1, j); }
  }

  lemma ColonSkipsQuote(line: string, p: Printed)
    requires InQuotes(p) && |p.text| + 2 <= |line| && line[..|p.text| + 2] == Show(p)
    ensures KeyColon(line) == KeyColonFrom(line, |p.text| + 2, OUTSIDE)
  {
    var s, show := p.text, Show(p);
    var j := |s| + 1;
    assert line[0] == show[0] && line[j] == show[j];
    forall k | 0 < k < j ensures line[k] != show[0] {
      assert line[k] == show[k] == s[k - 1] && s[k - 1] in s;
    }
    ColonSkipsText(line, 1, j, OUTSIDE.After(show[0]));
  }

  lemma ColonSkipsKey(line: string, p: Printed)
    requires CarriesKey(p) && |Show(p)| < |line| && line[..|Show(p)|] == Show(p) && line[|Show(p)|] == ':'
    ensures KeyColon(line) == KeyColonFrom(line, |Show(p)|, OUTSIDE)
  {
    if p.style.Plain? {
      var s := p.text;
      forall k | 0 <= k < |s| ensures line[k] == s[k] && s[k] in s { assert line[k] == line[..|s|][k]; }
      ColonSkipsPlain(line, 0, |s|);
    } else {
      ColonSkipsQuote(line, p);
    }
  }

  /** No colon at all ends a key where none stands before a space or at the end. */
  lemma {:induction false} NoColonEnds(line: string, i: nat, q: Quotes)
    requires i <= |line| && forall k | i <= k < |line| && line[k] == ':' :: k + 1 < |line| && line[k + 1] != ' '
    ensures KeyColonFrom(line, i, q) == None
    decreases |line| - i
  {
    if i < |line| { NoColonEnds(line, i + 1, q.After(line[i])); }
  }

  /** A key or a scalar, read by itself, is its text. */
  lemma ShownIsRead(p: Printed)
    requires Carries(p) || CarriesKey(p)
    ensures Show(p) != "" && !IsSpace(Show(p)[0]) && !IsSpace(Show(p)[|Show(p)| - 1])
    ensures Strip(Show(p)) == Show(p) && ParseScalar(Show(p)) == p.text
  {
    var show := Show(p);
    if p.style.Plain? {
      if |show| >= 2 { assert show[0] in show; }
    } else {
      assert show[1..|show| - 1] == p.text;
    }
    StripNothing(show);
  }

  lemma ScalarLine(p: Printed)
    requires Carries(p)
    ensures !IsDash(Show(p)) && KeyColon(Show(p)) == None && !IsHeader(Show(p))
    ensures ParseScalar(Show(p)) == p.text && Strip(Show(p)) == Show(p)
  {
    ShownIsRead(p);
    if p.style.Plain? {
      NoColonEnds(Show(p), 0, OUTSIDE);
    } else {
      assert Show(p)[..|p.text| + 2] == Show(p);
      ColonSkipsQuote(Show(p), p);
    }
  }

  lemma StripNothing(s: string)
    requires s != "" && !IsSpace(s[0]) && !IsSpace(s[|s| - 1])
    ensures Strip(s) == s
  {
  }

  lemma StripSpaceBefore(s: string)
    requires s != "" && !IsSpace(s[0]) && !IsSpace(s[|s| - 1])
    ensures Strip(" " + s) == s
  {
    assert (" " + s)[1..] == s && LStrip(s) == s;
    StripNothing(s);
  }

  lemma HeaderLine(d: nat)
    requires 1 <= d <= 9
    ensures MatchHeader(HeaderText(d)) == Some(ChartText.Header(false, Keep, Some(d)))
    ensures !IsDash(HeaderText(d)) && KeyColon(HeaderText(d)) == None
    ensures Strip(HeaderText(d)) == HeaderText(d)
  {
    var h := HeaderText(d);
    assert |h| == 3 && h[0] == '|' && h[1] == '0' + d as char && h[2] == '+';
    assert IsDigit(h[1]) && Digit(h[1]) == d;
    assert h[1] != '"' && h[1] != '\'';
    assert KeyColonFrom(h, 3, OUTSIDE) == None;
    assert KeyColonFrom(h, 2, OUTSIDE) == None;
    assert KeyColonFrom(h, 1, OUTSIDE) == None;
    StripNothing(h);
  }

  /** How a key line is read: its key, and what follows the colon. */
  lemma KeyLineParts(key: Printed, v: Tree)
    requires CarriesKey(key) && Legal(v)
    ensures var c := KeyLine(key, v);
            && !IsDash(c) && KeyColon(c) == Some(|Show(key)|)
            && ParseScalar(c[..|Show(key)|]) == key.text
            && Strip(c[|Show(key)| + 1..]) == match v
                                              case Scalar(s) => Show(s)
                                              case Block(d, _) => HeaderText(d)
                                              case _ => ""
  {
    var c, n := KeyLine(key, v), |Show(key)|;
    ShownIsRead(key);
    KeyLineStarts(key, v);
    ColonSkipsKey(c, key);
    match v {
      case Scalar(s) =>
        assert c[n + 1..] == " " + Show(s);
        ShownIsRead(s);
        StripSpaceBefore(Show(s));
      case Block(d, _) =>
        assert c[n + 1..] == " " + HeaderText(d);
        HeaderLine(d);
        StripSpaceBefore(HeaderText(d));
      case _ => assert c[n + 1..] == "";
    }
  }

  lemma KeyLineStarts(key: Printed, v: Tree)
    requires CarriesKey(key) && Legal(v)
    ensures var c, n := KeyLine(key, v), |Show(key)|;
            && n < |c| && c[..n] == Show(key) && c[n] == ':' && (n + 1 == |c| || c[n + 1] == ' ') && !IsDash(c)
  {
    ShownIsRead(key);
  }

  lemma KeyLineHeader(key: Printed, v: Tree, off: nat, unit: Option<nat>)
    requires CarriesKey(key) && Legal(v)
    ensures HeaderFrom(KeyLine(key, v), off, unit)
            == Read(if v.Block? then Some((ChartText.Header(false, Keep, Some(v.digit)), off)) else None)
  {
    KeyLineParts(key, v);
    if v.Block? { HeaderLine(v.digit); }
  }

  // ---- parsing the entries --------------------------------------------------

  ghost predicate EndsAt(rest: seq<Entry>, n: nat) { rest == [] || rest[0].indent <= n }

  predicate Deep(p: Piece, n: nat) {
    p.indent >= n && (p.body.Some? ==> p.body.value.column >= n && p.body.value.digit >= 1)
  }

  lemma {:induction false} TreeIsDeep(t: Tree, n: nat)
    requires Legal(t) && !t.Absent? && !t.Block?
    ensures forall p | p in TreePieces(t, n) :: Deep(p, n)
    decreases t, 0
  {
    match t {
      case Scalar(_) =>
      case Mapping(es) => KeysAreDeep(es, n);
      case Sequence(items) => ItemsAreDeep(items, n);
    }
  }

  lemma {:induction false} KeysAreDeep(es: seq<Pair>, n: nat)
    requires forall e | e in es :: CarriesKey(KeyOf(e)) && Legal(e.value)
    ensures forall p | p in KeyPieces(es, n) :: Deep(p, n)
    decreases es
  {
    if es != [] {
      var v := es[0].value;
      var first := KeyPiece(KeyOf(es[0]), v, n);
      if v.Mapping? || v.Sequence? { TreeIsDeep(v, n + 2); }
      forall p | p in first ensures Deep(p, n) {
        if p != first[0] { assert p in first[1..] && first[1..] == TreePieces(v, n + 2); }
      }
      KeysAreDeep(es[1..], n);
    }
  }

  lemma {:induction false} ItemsAreDeep(items: seq<Tree>, n: nat)
    requires forall it | it in items :: Legal(it)
    ensures forall p | p in ItemsPieces(items, n) :: Deep(p, n)
    decreases items
  {
    if items != [] {
      var first := ItemPiece(items[0], n);
      if !items[0].Absent? && !items[0].Block? {
        TreeIsDeep(items[0], n + 2);
        var ps := TreePieces(items[0], n + 2);
        assert ps[0] in ps && first[1..] == ps[1..] && forall p | p in ps[1..] :: p in ps;
      }
      forall p | p in first ensures Deep(p, n) {
        if p != first[0] { assert p in first[1..]; }
      }
      ItemsAreDeep(items[1..], n);
    }
  }

  lemma {:induction false} DeepPiecesDeepEntries(ps: seq<Piece>, n: nat)
    requires forall p | p in ps :: Deep(p, n)
    ensures forall e | e in EntriesOf(ps) :: e.indent >= n
    ensures ps != [] ==> forall e | e in BodyEntries(ps[0]) :: e.indent > n
  {
    if ps != [] {
      assert ps[0] in ps && forall p | p in ps[1..] :: p in ps;
      DeepPiecesDeepEntries(ps[1..], n);
    }
  }

  lemma {:induction false} DeeperIsTheTail(tail: seq<Entry>, rest: seq<Entry>, n: nat)
    requires forall e | e in tail :: e.indent > n
    requires EndsAt(rest, n)
    ensures Deeper(tail + rest, n) == |tail|
  {
    if tail == [] {
      assert tail + rest == rest;
    } else {
      assert (tail + rest)[1..] == tail[1..] + rest;
      assert tail[0] in tail && forall e | e in tail[1..] :: e in tail;
      DeeperIsTheTail(tail[1..], rest, n);
    }
  }

  // One unfolding of each parse function, on a list given by its first line.

  lemma BlockIsScalar(c: string, n: nat, rest: seq<Entry>)
    requires !IsDash(c) && KeyColon(c) == None && !IsHeader(c)
    requires rest == [] || rest[0].indent < n
    ensures ParseBlock([Line(n, c)] + rest, n) == Got(VStr(ParseScalar(c)), rest)
  {
    assert ([Line(n, c)] + rest)[1..] == rest;
  }

  lemma BlockIsMapping(ls: seq<Entry>, n: nat)
    requires ls != [] && ls[0].indent == n && ls[0].Line? && !IsDash(ls[0].content) && KeyColon(ls[0].content).Some?
    ensures var r := ParseMapping(ls, n); ParseBlock(ls, n) == if r.Fail? then Fail else Got(VMap(r.value), r.rest)
  {
  }

  lemma BlockIsSequence(ls: seq<Entry>, n: nat)
    requires ls != [] && ls[0].indent == n && IsDashLine(ls[0])
    ensures var r := ParseSequence(ls, n); ParseBlock(ls, n) == if r.Fail? then Fail else Got(VList(r.value), r.rest)
  {
  }

  lemma BlockIsBody(c: string, n: nat, m: nat, text: string)
    requires !IsDash(c) && KeyColon(c) == None && IsHeader(c)
    ensures ParseBlock([Line(n, c), ChartText.Body(m, text)], n) == Got(VStr(text), [])
  {
    var ls := [Line(n, c), ChartText.Body(m, text)];
    assert ls[1..] == [ChartText.Body(m, text)] && ls[1..][1..] == [];
  }

  lemma EntryParts(c: string, n: nat, rest: seq<Entry>)
    requires !IsDash(c) && KeyColon(c).Some?
    ensures var ls := [Line(n, c)] + rest;
            var colon := KeyColon(c).value;
            var value := Strip(c[colon + 1..]);
            var header := BlockHeader(c);
            var v := if value == "" then ParseChild(ls, n)
                     else if header.Raised? then Fail
                     else if header.value.Some? then TakeBlockBody(rest)
                     else Got(VStr(ParseScalar(value)), rest);
            ParseEntry(ls, n) == if v.Fail? then Fail else Got((ParseScalar(c[..colon]), v.value), v.rest)
  {
    assert ([Line(n, c)] + rest)[1..] == rest;
  }

  lemma ChildParts(c: string, n: nat, rest: seq<Entry>)
    ensures ParseChild([Line(n, c)] + rest, n)
            == if rest != [] && rest[0].indent > n then ParseBlock(rest, rest[0].indent) else Got(VNone, rest)
  {
    assert ([Line(n, c)] + rest)[1..] == rest;
  }

  lemma EntriesThen(a: seq<Piece>, b: seq<Piece>, rest: seq<Entry>)
    ensures EntriesOf(a + b) + rest == EntriesOf(a) + (EntriesOf(b) + rest)
  {
    EntriesConcat(a, b);
    assert EntriesOf(a) + EntriesOf(b) + rest == EntriesOf(a) + (EntriesOf(b) + rest);
  }

  lemma EntriesSplit(ps: seq<Piece>, rest: seq<Entry>)
    requires ps != []
    ensures EntriesOf(ps) + rest == [Line(ps[0].indent, ps[0].content)] + (Below(ps) + rest)
    ensures EntriesOf(ps) == [Line(ps[0].indent, ps[0].content)] + Below(ps)
  {
    Reassociate([Line(ps[0].indent, ps[0].content)], BodyEntries(ps[0]), EntriesOf(ps[1..]), rest);
  }

  lemma Reassociate(a: seq<Entry>, b: seq<Entry>, c: seq<Entry>, d: seq<Entry>)
    ensures a + b + c == a + (b + c) && a + b + c + d == a + ((b + c) + d)
  {
  }

  lemma MappingStep(ls: seq<Entry>, n: nat)
    requires ls != [] && ls[0].indent == n
    ensures var entry := ParseEntry(ls, n);
            entry.Got? && ParseMapping(entry.rest, n).Got? ==>
            ParseMapping(ls, n) == Got(map[entry.value.0 := entry.value.1] + ParseMapping(entry.rest, n).value,
                                       ParseMapping(entry.rest, n).rest)
  {
  }

  lemma SequenceStep(ls: seq<Entry>, n: nat)
    requires ls != [] && ls[0].indent == n && IsDashLine(ls[0])
    ensures var item := ParseItem(ls, n);
            item.Got? && ParseSequence(item.rest, n).Got? ==>
            ParseSequence(ls, n) == Got([item.value] + ParseSequence(item.rest, n).value,
                                        ParseSequence(item.rest, n).rest)
  {
  }

  /** An item is parsed from its own lines, at the column after the dash. */
  lemma DashedItem(head: string, tail: seq<Entry>, n: nat, rest: seq<Entry>, v: Value)
    requires forall e | e in tail :: e.indent > n
    requires EndsAt(rest, n)
    requires ParseBlock([Line(n + 2, head)] + tail, n + 2) == Got(v, [])
    ensures ParseItem([Line(n, "- " + head)] + tail + rest, n) == Got(v, rest)
  {
    var ls, item := [Line(n, "- " + head)] + tail + rest, [Line(n + 2, head)] + tail;
    assert ls[1..] == tail + rest;
    DeeperIsTheTail(tail, rest, n);
    assert ("- " + head)[2..] == head;
    assert ItemLines(ls, n) == item;
    assert ls[|item|..] == rest;
  }

  /** A printed tree at column n, followed by shallower entries, parses back. */
  lemma {:induction false} ParsePrinted(t: Tree, n: nat, rest: seq<Entry>)
    requires Legal(t) && !t.Absent? && !t.Block?
    requires rest == [] || rest[0].indent < n
    ensures ParseBlock(EntriesOf(TreePieces(t, n)) + rest, n) == Got(Meaning(t), rest)
    decreases t, 0
  {
    match t {
      case Scalar(s) =>
        ScalarLine(s);
        assert EntriesOf(TreePieces(t, n)) + rest == [Line(n, Show(s))] + rest;
        BlockIsScalar(Show(s), n, rest);
      case Mapping(es) =>
        KeyLineParts(KeyOf(es[0]), es[0].value);
        BlockIsMapping(EntriesOf(KeyPieces(es, n)) + rest, n);
        ParseKeys(es, n, rest);
      case Sequence(items) =>
        BlockIsSequence(EntriesOf(ItemsPieces(items, n)) + rest, n);
        ParseItems(items, n, rest);
    }
  }

  lemma {:induction false} ParseKeys(es: seq<Pair>, n: nat, rest: seq<Entry>)
    requires forall e | e in es :: CarriesKey(KeyOf(e)) && Legal(e.value)
    requires rest == [] || rest[0].indent < n
    ensures ParseMapping(EntriesOf(KeyPieces(es, n)) + rest, n) == Got(MapMeaning(es), rest)
    decreases es
  {
    if es == [] {
      assert EntriesOf(KeyPieces(es, n)) + rest == rest;
    } else {
      var first, more := KeyPiece(KeyOf(es[0]), es[0].value, n), KeyPieces(es[1..], n);
      EntriesThen(first, more, rest);
      ParseKey(KeyOf(es[0]), es[0].value, n, EntriesOf(more) + rest);
      ParseKeys(es[1..], n, rest);
      MappingStep(EntriesOf(first) + (EntriesOf(more) + rest), n);
    }
  }

  /** What follows the colon decides the value: nothing, a scalar, or a block header. */
  lemma EntryIsScalar(c: string, n: nat, rest: seq<Entry>, key: string, s: string)
    requires !IsDash(c) && KeyColon(c).Some? && ParseScalar(c[..KeyColon(c).value]) == key
    requires Strip(c[KeyColon(c).value + 1..]) != "" && ParseScalar(Strip(c[KeyColon(c).value + 1..])) == s
    requires BlockHeader(c) == Read(None)
    ensures ParseEntry([Line(n, c)] + rest, n) == Got((key, VStr(s)), rest)
  {
    EntryParts(c, n, rest);
  }

  lemma EntryIsBody(c: string, n: nat, m: nat, text: string, rest: seq<Entry>, key: string)
    requires !IsDash(c) && KeyColon(c).Some? && ParseScalar(c[..KeyColon(c).value]) == key
    requires Strip(c[KeyColon(c).value + 1..]) != "" && BlockHeader(c).Read? && BlockHeader(c).value.Some?
    ensures ParseEntry([Line(n, c)] + ([ChartText.Body(m, text)] + rest), n) == Got((key, VStr(text)), rest)
  {
    EntryParts(c, n, [ChartText.Body(m, text)] + rest);
    assert ([ChartText.Body(m, text)] + rest)[1..] == rest;
  }

  lemma EntryIsChild(c: string, n: nat, below: seq<Entry>, key: string)
    requires !IsDash(c) && KeyColon(c).Some? && ParseScalar(c[..KeyColon(c).value]) == key
    requires Strip(c[KeyColon(c).value + 1..]) == ""
    ensures ParseEntry([Line(n, c)] + below, n)
            == if below == [] || below[0].indent <= n then Got((key, VNone), below)
               else var r := ParseBlock(below, below[0].indent);
                    if r.Fail? then Fail else Got((key, r.value), r.rest)
  {
    EntryParts(c, n, below);
    ChildParts(c, n, below);
  }

  /** A key with nothing below it on lines of its own. */
  lemma ParseLeafKey(key: Printed, v: Tree, n: nat, rest: seq<Entry>)
    requires CarriesKey(key) && Legal(v) && EndsAt(rest, n) && (v.Absent? || v.Scalar?)
    ensures ParseEntry([Line(n, KeyLine(key, v))] + rest, n) == Got((key.text, Meaning(v)), rest)
  {
    KeyLineParts(key, v);
    KeyLineHeader(key, v, 0, None);
    match v {
      case Absent => EntryIsChild(KeyLine(key, v), n, rest, key.text);
      case Scalar(s) =>
        ScalarLine(s);
        EntryIsScalar(KeyLine(key, v), n, rest, key.text, s.text);
    }
  }

  lemma ParseBlockKey(key: Printed, v: Tree, n: nat, rest: seq<Entry>)
    requires CarriesKey(key) && Legal(v) && v.Block?
    ensures ParseEntry([Line(n, KeyLine(key, v))] + ([ChartText.Body(n + v.digit, v.text)] + rest), n)
            == Got((key.text, Meaning(v)), rest)
  {
    KeyLineParts(key, v);
    KeyLineHeader(key, v, 0, None);
    EntryIsBody(KeyLine(key, v), n, n + v.digit, v.text, rest, key.text);
  }

  /** A key with a mapping or a sequence below it, which parses. */
  lemma ParseTreeKey(key: Printed, v: Tree, n: nat, below: seq<Entry>, rest: seq<Entry>)
    requires CarriesKey(key) && Legal(v) && !v.Absent? && !v.Scalar? && !v.Block?
    requires below != [] && below[0].indent == n + 2 && ParseBlock(below + rest, n + 2) == Got(Meaning(v), rest)
    ensures ParseEntry([Line(n, KeyLine(key, v))] + (below + rest), n) == Got((key.text, Meaning(v)), rest)
  {
    KeyLineParts(key, v);
    EntryIsChild(KeyLine(key, v), n, below + rest, key.text);
  }

  /** What stands below the line of a key. */
  lemma BelowKey(key: Printed, v: Tree, n: nat)
    requires CarriesKey(key) && Legal(v)
    ensures Below(KeyPiece(key, v, n)) == match v
                                          case Absent => []
                                          case Scalar(_) => []
                                          case Block(d, text) => [ChartText.Body(n + d, text)]
                                          case _ => EntriesOf(TreePieces(v, n + 2))
  {
    match v {
      case Absent =>
      case Scalar(_) =>
      case Block(_, _) =>
      case _ => assert KeyPiece(key, v, n)[1..] == TreePieces(v, n + 2);
    }
  }

  lemma {:induction false} ParseKey(key: Printed, v: Tree, n: nat, rest: seq<Entry>)
    requires CarriesKey(key) && Legal(v) && EndsAt(rest, n)
    ensures ParseEntry(EntriesOf(KeyPiece(key, v, n)) + rest, n) == Got((key.text, Meaning(v)), rest)
    decreases v, 1
  {
    var ps := KeyPiece(key, v, n);
    EntriesSplit(ps, rest);
    BelowKey(key, v, n);
    match v {
      case Absent =>
        assert Below(ps) + rest == rest;
        ParseLeafKey(key, v, n, rest);
      case Scalar(s) =>
        assert Below(ps) + rest == rest;
        ParseLeafKey(key, v, n, rest);
      case Block(d, text) => ParseBlockKey(key, v, n, rest);
      case _ =>
        ParsePrinted(v, n + 2, rest);
        ParseTreeKey(key, v, n, Below(ps), rest);
    }
  }

  lemma {:induction false} ParseItems(items: seq<Tree>, n: nat, rest: seq<Entry>)
    requires forall it | it in items :: Legal(it)
    requires rest == [] || rest[0].indent < n
    ensures ParseSequence(EntriesOf(ItemsPieces(items, n)) + rest, n) == Got(ListMeaning(items), rest)
    decreases items
  {
    if items == [] {
      assert EntriesOf(ItemsPieces(items, n)) + rest == rest;
    } else {
      var first, more := ItemPiece(items[0], n), ItemsPieces(items[1..], n);
      EntriesThen(first, more, rest);
      ParsePrintedItem(items[0], n, EntriesOf(more) + rest);
      ParseItems(items[1..], n, rest);
      SequenceStep(EntriesOf(first) + (EntriesOf(more) + rest), n);
    }
  }

  lemma {:induction false} ParsePrintedItem(it: Tree, n: nat, rest: seq<Entry>)
    requires Legal(it) && EndsAt(rest, n)
    ensures ParseItem(EntriesOf(ItemPiece(it, n)) + rest, n) == Got(Meaning(it), rest)
    decreases it, 1
  {
    match it {
      case Absent => AbsentItem(n, rest);
      case Block(d, text) => BlockItem(d, text, n, rest);
      case _ =>
        TreeIsDeep(it, n + 2);
        DeepPiecesDeepEntries(TreePieces(it, n + 2), n + 2);
        ParsePrinted(it, n + 2, []);
        DashedTree(TreePieces(it, n + 2), n, rest, Meaning(it));
    }
  }

  lemma AbsentItem(n: nat, rest: seq<Entry>)
    requires EndsAt(rest, n)
    ensures ParseItem(EntriesOf([Piece(n, "-", None)]) + rest, n) == Got(VNone, rest)
  {
    EntriesSplit([Piece(n, "-", None)], rest);
    assert Below([Piece(n, "-", None)]) + rest == rest;
    ChildParts("-", n, rest);
  }

  lemma BlockItem(d: nat, text: string, n: nat, rest: seq<Entry>)
    requires 1 <= d <= 9 && EndsAt(rest, n)
    ensures ParseItem(EntriesOf([Piece(n, "- " + HeaderText(d), Some(Text(n, d, text)))]) + rest, n)
            == Got(VStr(text), rest)
  {
    var ps := [Piece(n, "- " + HeaderText(d), Some(Text(n, d, text)))];
    EntriesSplit(ps, []);
    assert Below(ps) == [ChartText.Body(n + d, text)];
    HeaderLine(d);
    BodyAfter(HeaderText(d), n + 2, n + d, text);
    DashedItem(HeaderText(d), [ChartText.Body(n + d, text)], n, rest, VStr(text));
  }

  lemma BodyAfter(c: string, n: nat, m: nat, text: string)
    requires !IsDash(c) && KeyColon(c) == None && IsHeader(c)
    ensures ParseBlock([Line(n, c)] + [ChartText.Body(m, text)], n) == Got(VStr(text), [])
  {
    assert [Line(n, c)] + [ChartText.Body(m, text)] == [Line(n, c), ChartText.Body(m, text)];
    BlockIsBody(c, n, m, text);
  }

  lemma DashedTree(ps: seq<Piece>, n: nat, rest: seq<Entry>, v: Value)
    requires ps != [] && ps[0].indent == n + 2
    requires forall e | e in EntriesOf(ps) :: e.indent >= n + 2
    requires EndsAt(rest, n)
    requires ParseBlock(EntriesOf(ps) + [], n + 2) == Got(v, [])
    ensures ParseItem(EntriesOf(Dash(ps, n)) + rest, n) == Got(v, rest)
  {
    var tail := Below(ps);
    assert EntriesOf(ps) + [] == EntriesOf(ps);
    EntriesSplit(ps, []);
    EntriesSplit(Dash(ps, n), rest);
    assert Dash(ps, n)[1..] == ps[1..];
    assert Below(Dash(ps, n)) == tail;
    assert forall e | e in tail :: e in EntriesOf(ps);
    DashedItem(ps[0].content, tail, n, rest, v);
  }
}
