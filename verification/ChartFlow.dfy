/** One-line flow sequences, which the parser keeps as opaque text: the split at top-level commas
    and the reading of the elements. */
module ChartFlow {
  import opened ChartText
  import Strings

  // ---- the split -------------------------------------------------------------

  /** The elements from the text that is left, given the element under way and the quote state. */
  function SplitFrom(body: string, cur: string, q: Quotes): Reading<seq<string>> {
    if body == "" then (if q.Outside() then Read([cur]) else Raised)
    else
      var r := q.After(body[0]);
      if body[0] == ',' && r.Outside() then
        match SplitFrom(body[1..], "", r) case Raised => Raised case Read(rest) => Read([cur] + rest)
      else SplitFrom(body[1..], cur + [body[0]], r)
  }

  function Put(items: seq<string>, r: Reading<seq<string>>): Reading<seq<string>> {
    match r case Raised => Raised case Read(rest) => Read(items + rest)
  }

  lemma PutMore(items: seq<string>, cur: string, r: Reading<seq<string>>)
    ensures Put(items, match r case Raised => Raised case Read(rest) => Read([cur] + rest)) == Put(items + [cur], r)
  {
    if r.Read? { assert items + ([cur] + r.value) == items + [cur] + r.value; }
  }

  method SplitFlowItems(body: string) returns (r: Reading<seq<string>>)
    ensures r == SplitFrom(body, "", OUTSIDE)
  {
    var items: seq<string>, cur, q := [], "", OUTSIDE;
    assert body[0..] == body;
    var all := SplitFrom(body, "", OUTSIDE);
    if all.Read? { assert [] + all.value == all.value; }
    for i := 0 to |body|
      invariant Put(items, SplitFrom(body[i..], cur, q)) == SplitFrom(body, "", OUTSIDE)
    {
      var c := body[i];
      assert body[i..][1..] == body[i + 1..];
      if c == '\'' && !q.inDouble {
        q := q.(inSingle := !q.inSingle);
      } else if c == '"' && !q.inSingle {
        q := q.(inDouble := !q.inDouble);
      }
      if c == ',' && !q.inSingle && !q.inDouble {
        PutMore(items, cur, SplitFrom(body[i + 1..], "", q));
        items := items + [cur];
        cur := "";
      } else {
        cur := cur + [c];
      }
    }
    if q.inSingle || q.inDouble {
      return Raised;
    }
    return Read(items + [cur]);
  }

  lemma {:induction false} SplitIsNotEmpty(body: string, cur: string, q: Quotes)
    ensures SplitFrom(body, cur, q).Read? ==> SplitFrom(body, cur, q).value != []
    decreases |body|
  {
    if body != "" {
      var r := q.After(body[0]);
      SplitIsNotEmpty(body[1..], if body[0] == ',' && r.Outside() then "" else cur + [body[0]], r);
    }
  }

  /** Nothing is lost: the elements, joined by commas, are the text. */
  lemma {:induction false} SplitLosesNothing(body: string, cur: string, q: Quotes)
    requires SplitFrom(body, cur, q).Read?
    ensures SplitFrom(body, cur, q).value != [] && Strings.Join(SplitFrom(body, cur, q).value, ',') == cur + body
    decreases |body|
  {
    SplitIsNotEmpty(body, cur, q);
    if body == "" {
      assert cur + body == cur;
    } else {
      var r := q.After(body[0]);
      assert body == [body[0]] + body[1..];
      if body[0] == ',' && r.Outside() {
        SplitLosesNothing(body[1..], "", r);
        var rest := SplitFrom(body[1..], "", r).value;
        assert ([cur] + rest)[1..] == rest;
        assert "" + body[1..] == body[1..];
        assert cur + [','] + body[1..] == cur + body;
      } else {
        SplitLosesNothing(body[1..], cur + [body[0]], r);
        assert cur + [body[0]] + body[1..] == cur + body;
      }
    }
  }

  // ---- the elements ----------------------------------------------------------

  predicate IsQuote(c: char) { c == '\'' || c == '"' }

  /** One element: a quoted text without escapes, or a plain one without brackets. */
  function Element(part: string): Reading<string> {
    var raw := Strip(part);
    if raw == "" then Raised
    else if IsQuote(raw[0]) then
      if |raw| < 2 || raw[|raw| - 1] != raw[0] then Raised
      else
        var inside := raw[1..|raw| - 1];
        if raw[0] in inside || '\\' in inside then Raised else Read(inside)
    else if '[' in raw || ']' in raw || '{' in raw || '}' in raw then Raised
    else Read(raw)
  }

  function Elements(parts: seq<string>): Reading<seq<string>> {
    if parts == [] then Read([])
    else match Element(parts[0])
      case Raised => Raised
      case Read(x) => match Elements(parts[1..]) case Raised => Raised case Read(xs) => Read([x] + xs)
  }

  function WithoutTrailingComma(parts: seq<string>): seq<string> {
    if |parts| > 1 && Strip(parts[|parts| - 1]) == "" then parts[..|parts| - 1] else parts
  }

  function FlowList(value: string): Reading<seq<string>> {
    var text := Strip(value);
    if |text| < 2 || text[0] != '[' || text[|text| - 1] != ']' then Raised
    else
      var body := Strip(text[1..|text| - 1]);
      if body == "" then Read([])
      else match SplitFrom(body, "", OUTSIDE)
        case Raised => Raised
        case Read(parts) => Elements(WithoutTrailingComma(parts))
  }

  method ReadFlowList(value: string) returns (r: Reading<seq<string>>)
    ensures r == FlowList(value)
  {
    var text := Strip(value);
    if |text| < 2 || text[0] != '[' || text[|text| - 1] != ']' {
      return Raised;
    }
    var body := Strip(text[1..|text| - 1]);
    if body == "" {
      return Read([]);
    }
    var split := SplitFlowItems(body);
    if split.Raised? {
      return Raised;
    }
    r := ReadElements(WithoutTrailingComma(split.value));
  }

  method ReadElements(parts: seq<string>) returns (r: Reading<seq<string>>)
    ensures r == Elements(parts)
  {
    var items: seq<string> := [];
    if Elements(parts).Read? { assert [] + Elements(parts).value == Elements(parts).value; }
    for i := 0 to |parts|
      invariant Put(items, Elements(parts[i..])) == Elements(parts)
    {
      assert parts[i..][1..] == parts[i + 1..];
      var x := Element(parts[i]);
      if x.Raised? {
        return Raised;
      }
      PutMore(items, x.value, Elements(parts[i + 1..]));
      items := items + [x.value];
    }
    assert items + [] == items;
    return Read(items);
  }

  // ---- reading back ----------------------------------------------------------

  /** A text that double quotes can carry in a flow sequence. */
  predicate Carried(s: string) { '"' !in s && '\\' !in s }

  function Quote(s: string): string { "\"" + s + "\"" }

  /** The elements, quoted, after commas and spaces. */
  function Print(items: seq<string>): string {
    if items == [] then "" else if |items| == 1 then Quote(items[0]) else Quote(items[0]) + ", " + Print(items[1..])
  }

  const INSIDE := Quotes(false, true)

  /** Inside double quotes commas and apostrophes are text. */
  lemma {:induction false} QuotedIsOneElement(s: string, rest: string, cur: string)
    requires Carried(s)
    ensures SplitFrom(s + "\"" + rest, cur, INSIDE) == SplitFrom(rest, cur + s + "\"", OUTSIDE)
    decreases |s|
  {
    var t := s + "\"" + rest;
    if s == "" {
      assert t[0] == '"' && t[1..] == rest;
      assert cur + ['"'] == cur + s + "\"";
    } else {
      assert t[0] == s[0] && s[0] in s && t[1..] == s[1..] + "\"" + rest;
      assert forall c | c in s[1..] :: c in s;
      QuotedIsOneElement(s[1..], rest, cur + [s[0]]);
      assert cur + [s[0]] + s[1..] + "\"" == cur + s + "\"";
    }
  }

  lemma QuoteIsRead(s: string, rest: string, cur: string)
    requires Carried(s)
    ensures SplitFrom(Quote(s) + rest, cur, OUTSIDE) == SplitFrom(rest, cur + Quote(s), OUTSIDE)
  {
    var t := Quote(s) + rest;
    assert t[0] == '"' && t[1..] == s + "\"" + rest;
    QuotedIsOneElement(s, rest, cur + ['"']);
    assert cur + ['"'] + s + "\"" == cur + Quote(s);
  }

  /** What the split makes of the printed list: each element quoted, all but the first after a space. */
  function Parts(items: seq<string>, lead: string): seq<string> {
    if items == [] then [] else [lead + Quote(items[0])] + Parts(items[1..], " ")
  }

  lemma {:induction false} PrintIsSplit(items: seq<string>, lead: string)
    requires items != [] && forall s | s in items :: Carried(s)
    ensures SplitFrom(Print(items), lead, OUTSIDE) == Read(Parts(items, lead))
  {
    assert items[0] in items;
    var q := Quote(items[0]);
    if |items| == 1 {
      assert q + "" == q && Print(items) == q;
      QuoteIsRead(items[0], "", lead);
      assert SplitFrom("", lead + q, OUTSIDE) == Read([lead + q]);
      assert Parts(items[1..], " ") == [] && Parts(items, lead) == [lead + q];
    } else {
      var rest := ", " + Print(items[1..]);
      assert Print(items) == q + rest;
      QuoteIsRead(items[0], rest, lead);
      assert rest[0] == ',' && rest[1..] == " " + Print(items[1..]) && rest[1..][1..] == Print(items[1..]);
      assert SplitFrom(rest[1..], "", OUTSIDE) == SplitFrom(Print(items[1..]), "" + [' '], OUTSIDE);
      assert "" + [' '] == " ";
      assert forall s | s in items[1..] :: s in items;
      PrintIsSplit(items[1..], " ");
    }
  }

  lemma QuotedElement(lead: string, s: string)
    requires Carried(s) && (lead == "" || lead == " ")
    ensures Element(lead + Quote(s)) == Read(s) && Strip(lead + Quote(s)) == Quote(s)
  {
    var q := Quote(s);
    StripOfQuoted(lead, s);
    assert q[0] == '"' && q[|q| - 1] == '"' && q[1..|q| - 1] == s;
  }

  lemma StripOfQuoted(lead: string, s: string)
    requires lead == "" || lead == " "
    ensures Strip(lead + Quote(s)) == Quote(s)
  {
    var t, q := lead + Quote(s), Quote(s);
    assert q[0] == '"' && q[|q| - 1] == '"';
    assert LStrip(q) == q && RStrip(q) == q;
    if lead == "" {
      assert t == q;
    } else {
      assert t[0] == ' ' && t[1..] == q;
      assert LStrip(t) == LStrip(q);
    }
  }

  lemma {:induction false} PartsAreRead(items: seq<string>, lead: string)
    requires (lead == "" || lead == " ") && forall s | s in items :: Carried(s)
    ensures Elements(Parts(items, lead)) == Read(items)
  {
    if items != [] {
      assert items[0] in items && forall s | s in items[1..] :: s in items;
      QuotedElement(lead, items[0]);
      PartsAreRead(items[1..], " ");
      var ps := Parts(items, lead);
      assert ps[0] == lead + Quote(items[0]) && ps[1..] == Parts(items[1..], " ");
      assert [items[0]] + items[1..] == items;
    }
  }

  lemma {:induction false} PartsAreQuoted(items: seq<string>, lead: string)
    requires (lead == "" || lead == " ") && items != [] && forall s | s in items :: Carried(s)
    ensures var ps := Parts(items, lead); |ps| == |items| && Strip(ps[|ps| - 1]) != ""
  {
    assert items[0] in items && forall s | s in items[1..] :: s in items;
    QuotedElement(lead, items[0]);
    if |items| > 1 {
      PartsAreQuoted(items[1..], " ");
    } else {
      assert Parts(items[1..], " ") == [];
    }
  }

  lemma {:induction false} PrintIsQuoted(items: seq<string>)
    requires items != []
    ensures var t := Print(items); |t| >= 2 && t[0] == '"' && t[|t| - 1] == '"'
  {
    if |items| > 1 { PrintIsQuoted(items[1..]); }
  }

  lemma StripOfFramed(t: string)
    requires t != "" && !IsSpace(t[0]) && !IsSpace(t[|t| - 1])
    ensures Strip(t) == t
  {
    assert LStrip(t) == t;
  }

  /** Every list of texts without a double quote or a backslash, printed quoted, is read back: commas,
      brackets and apostrophes in the elements included. */
  lemma FlowListIsReadBack(items: seq<string>)
    requires forall s | s in items :: Carried(s)
    ensures FlowList("[" + Print(items) + "]") == Read(items)
  {
    var body := Print(items);
    var text := "[" + body + "]";
    assert text[0] == '[' && text[|text| - 1] == ']' && text[1..|text| - 1] == body;
    StripOfFramed(text);
    if items == [] {
      assert Strip("") == "";
    } else {
      PrintIsQuoted(items);
      StripOfFramed(body);
      PrintIsSplit(items, "");
      PartsAreQuoted(items, "");
      PartsAreRead(items, "");
    }
  }
}
