/** Which texts are flow sequences, and of what: the exact grammar of one element, of the split at commas,
    and of the whole. */
module ChartFlowRules {
  import opened ChartText
  import opened ChartFlow
  import opened ChartReadBack
  import Strings

  // ---- the split -------------------------------------------------------------

  /** No comma stands outside quotes. */
  predicate CommaFree(part: string, q: Quotes) {
    part == "" || (!(part[0] == ',' && q.Outside()) && CommaFree(part[1..], q.After(part[0])))
  }

  /** Elements without a comma outside quotes, each with its quotes closed. */
  ghost predicate Whole(parts: seq<string>) {
    parts != [] && forall p | p in parts :: CommaFree(p, OUTSIDE) && Closed(p)
  }

  lemma {:induction false} CommaFreeSum(a: string, b: string, q: Quotes)
    ensures CommaFree(a + b, q) <==> CommaFree(a, q) && CommaFree(b, QuotesAfter(a, q))
  {
    if a == "" {
      assert a + b == b;
    } else {
      assert (a + b)[0] == a[0] && (a + b)[1..] == a[1..] + b;
      CommaFreeSum(a[1..], b, q.After(a[0]));
    }
  }

  lemma OneMore(cur: string, c: char, q: Quotes)
    requires q == QuotesAfter(cur, OUTSIDE) && CommaFree(cur, OUTSIDE) && !(c == ',' && q.Outside())
    ensures QuotesAfter(cur + [c], OUTSIDE) == q.After(c) && CommaFree(cur + [c], OUTSIDE)
  {
    QuotesAfterSum(cur, [c], OUTSIDE);
    CommaFreeSum(cur, [c], OUTSIDE);
    assert [c][1..] == "";
  }

  /** The split fails iff the quotes of the text are open at its end, and else gives whole elements. */
  lemma {:induction false} SplitIsWhole(body: string, cur: string, q: Quotes)
    requires q == QuotesAfter(cur, OUTSIDE) && CommaFree(cur, OUTSIDE)
    ensures SplitFrom(body, cur, q).Read? <==> QuotesAfter(body, q).Outside()
    ensures SplitFrom(body, cur, q).Read? ==> Whole(SplitFrom(body, cur, q).value)
    decreases |body|
  {
    if body != "" {
      var c, r := body[0], q.After(body[0]);
      if c == ',' && r.Outside() {
        assert r == q;
        assert QuotesAfter("", OUTSIDE) == OUTSIDE == r;
        SplitIsWhole(body[1..], "", r);
      } else {
        OneMore(cur, c, q);
        SplitIsWhole(body[1..], cur + [c], r);
      }
    }
  }

  /** Whole elements, joined by commas, are split into themselves. */
  lemma {:induction false} WholeIsSplit(parts: seq<string>)
    requires Whole(parts)
    ensures SplitFrom(Strings.Join(parts, ','), "", OUTSIDE) == Read(parts)
  {
    assert parts[0] in parts;
    if |parts| == 1 {
      SplitOverPart(parts[0], "", "", OUTSIDE);
      assert parts[0] + "" == parts[0] && "" + parts[0] == parts[0];
      assert Strings.Join(parts, ',') == parts[0] && parts == [parts[0]];
    } else {
      var rest := Strings.Join(parts[1..], ',');
      assert forall p | p in parts[1..] :: p in parts;
      WholeIsSplit(parts[1..]);
      SplitOverPart(parts[0], "," + rest, "", OUTSIDE);
      assert parts[0] + [','] + rest == parts[0] + ("," + rest) && "" + parts[0] == parts[0];
      assert ("," + rest)[1..] == rest && parts == [parts[0]] + parts[1..];
    }
  }

  lemma {:induction false} SplitOverPart(part: string, rest: string, cur: string, q: Quotes)
    requires CommaFree(part, q)
    ensures SplitFrom(part + rest, cur, q) == SplitFrom(rest, cur + part, QuotesAfter(part, q))
    decreases |part|
  {
    if part == "" {
      assert part + rest == rest && cur + part == cur;
    } else {
      assert (part + rest)[0] == part[0] && (part + rest)[1..] == part[1..] + rest;
      SplitOverPart(part[1..], rest, cur + [part[0]], q.After(part[0]));
      assert cur + [part[0]] + part[1..] == cur + part;
    }
  }

  /** The exact grammar: a text splits into these elements iff it is them, whole, joined by commas. */
  lemma SplitIff(body: string, parts: seq<string>)
    ensures SplitFrom(body, "", OUTSIDE) == Read(parts) <==> Whole(parts) && Strings.Join(parts, ',') == body
  {
    assert QuotesAfter("", OUTSIDE) == OUTSIDE;
    SplitIsWhole(body, "", OUTSIDE);
    if SplitFrom(body, "", OUTSIDE) == Read(parts) {
      SplitLosesNothing(body, "", OUTSIDE);
      assert "" + body == body;
    }
    if Whole(parts) && Strings.Join(parts, ',') == body { WholeIsSplit(parts); }
  }

  // ---- an element ------------------------------------------------------------

  /** An element between white space: quoted, without its own quote and without a backslash, or plain,
      without a bracket or a brace. */
  predicate IsElement(part: string, item: string) {
    var raw := Strip(part);
    || (raw == "'" + item + "'" && '\'' !in item && '\\' !in item)
    || (raw == "\"" + item + "\"" && '"' !in item && '\\' !in item)
    || (raw == item && item != "" && item[0] != '\'' && item[0] != '"'
        && '[' !in item && ']' !in item && '{' !in item && '}' !in item)
  }

  lemma ElementIff(part: string, item: string)
    ensures Element(part) == Read(item) <==> IsElement(part, item)
  {
    var raw := Strip(part);
    if raw == "'" + item + "'" || raw == "\"" + item + "\"" { assert raw[1..|raw| - 1] == item; }
    if |raw| >= 2 && raw[0] == raw[|raw| - 1] { assert raw == [raw[0]] + raw[1..|raw| - 1] + [raw[0]]; }
  }

  lemma {:induction false} ElementsIff(parts: seq<string>, items: seq<string>)
    ensures Elements(parts) == Read(items) <==>
            |parts| == |items| && forall i | 0 <= i < |parts| :: IsElement(parts[i], items[i])
  {
    if parts != [] {
      var x := Element(parts[0]);
      if x.Read? { ElementIff(parts[0], x.value); }
      if items != [] {
        ElementIff(parts[0], items[0]);
        ElementsIff(parts[1..], items[1..]);
        EachIff(parts, items);
        assert items == [items[0]] + items[1..];
      }
    }
  }

  lemma EachIff(parts: seq<string>, items: seq<string>)
    requires parts != [] && items != []
    ensures |parts| == |items| && (forall i | 0 <= i < |parts| :: IsElement(parts[i], items[i])) <==>
            && IsElement(parts[0], items[0]) && |parts[1..]| == |items[1..]|
            && forall i | 0 <= i < |parts[1..]| :: IsElement(parts[1..][i], items[1..][i])
  {
    if |parts| == |items| && IsElement(parts[0], items[0])
       && (forall i | 0 <= i < |parts[1..]| :: IsElement(parts[1..][i], items[1..][i])) {
      forall i | 0 < i < |parts| ensures IsElement(parts[i], items[i]) {
        assert IsElement(parts[1..][i - 1], items[1..][i - 1]);
      }
    }
    if |parts| == |items| && forall i | 0 <= i < |parts| :: IsElement(parts[i], items[i]) {
      forall i | 0 <= i < |parts[1..]| ensures IsElement(parts[1..][i], items[1..][i]) {
        assert IsElement(parts[i + 1], items[i + 1]);
      }
    }
  }

  // ---- the sequence ----------------------------------------------------------

  /** Brackets around nothing, or around whole elements joined by commas, with at most one comma behind
      the last. */
  ghost predicate IsFlowList(value: string, items: seq<string>) {
    exists inside :: Strip(value) == "[" + inside + "]"
      && (if Strip(inside) == "" then items == [] else Lists(Strip(inside), items))
  }

  ghost predicate Lists(body: string, items: seq<string>) {
    exists parts :: Whole(parts) && Strings.Join(parts, ',') == body && ListsParts(parts, items)
  }

  predicate ListsParts(parts: seq<string>, items: seq<string>) {
    if |parts| > 1 && Strip(parts[|parts| - 1]) == "" then
      |items| == |parts| - 1 && forall i | 0 <= i < |items| :: IsElement(parts[i], items[i])
    else |items| == |parts| && forall i | 0 <= i < |items| :: IsElement(parts[i], items[i])
  }

  lemma PartsAre(parts: seq<string>, items: seq<string>)
    ensures Elements(WithoutTrailingComma(parts)) == Read(items) <==> ListsParts(parts, items)
  {
    ElementsIff(WithoutTrailingComma(parts), items);
  }

  lemma ListsIff(body: string, items: seq<string>)
    ensures Lists(body, items) <==>
            SplitFrom(body, "", OUTSIDE).Read? && ListsParts(SplitFrom(body, "", OUTSIDE).value, items)
  {
    var r := SplitFrom(body, "", OUTSIDE);
    if r.Read? { SplitIff(body, r.value); }
    if Lists(body, items) {
      var parts :| Whole(parts) && Strings.Join(parts, ',') == body && ListsParts(parts, items);
      SplitIff(body, parts);
    }
  }

  /** A value is read as a list of texts iff it has that form, and else it raises. */
  lemma FlowListIff(value: string, items: seq<string>)
    ensures FlowList(value) == Read(items) <==> IsFlowList(value, items)
  {
    var text := Strip(value);
    if |text| >= 2 && text[0] == '[' && text[|text| - 1] == ']' {
      var inside := text[1..|text| - 1];
      assert text == "[" + inside + "]" && FlowList(value) == Inside(inside);
      FramedIff(text, inside, items);
      InsideIff(inside, items);
    } else {
      forall inside ensures text != "[" + inside + "]" { Framed(inside); }
    }
  }

  lemma Framed(inside: string)
    ensures var t := "[" + inside + "]"; |t| >= 2 && t[0] == '[' && t[|t| - 1] == ']'
  {
  }

  function Inside(inside: string): Reading<seq<string>> {
    var body := Strip(inside);
    if body == "" then Read([])
    else match SplitFrom(body, "", OUTSIDE)
      case Raised => Raised
      case Read(parts) => Elements(WithoutTrailingComma(parts))
  }

  lemma InsideIff(inside: string, items: seq<string>)
    ensures Inside(inside) == Read(items) <==>
            if Strip(inside) == "" then items == [] else Lists(Strip(inside), items)
  {
    var body := Strip(inside);
    if body != "" {
      ListsIff(body, items);
      var r := SplitFrom(body, "", OUTSIDE);
      if r.Read? { PartsAre(r.value, items); }
    }
  }

  lemma FramedIff(text: string, inside: string, items: seq<string>)
    requires text == "[" + inside + "]"
    ensures (exists i :: text == "[" + i + "]" && (if Strip(i) == "" then items == [] else Lists(Strip(i), items)))
            <==> if Strip(inside) == "" then items == [] else Lists(Strip(inside), items)
  {
    forall i | text == "[" + i + "]" ensures i == inside {
      assert text[1..|text| - 1] == i && text[1..|text| - 1] == inside;
    }
  }
}
