/** When a route is reachable through an ingress entry at all, and when the coverage test can tell:
    reachability is a match of the entry's elements with the pattern's segments, and covering is that
    match together with an entry no deeper than the fixed part of the pattern. */
module IngressReach {
  import opened Ingress
  import Strings

  /** Some path that the pattern serves is admitted. */
  ghost predicate Reachable(p: Pattern, e: Entry) {
    exists vs, below :: Values(p.segments, vs) && Admits(e, Path(p, vs, below))
  }

  // ---- the match -------------------------------------------------------------

  predicate FitsSegment(s: Segment, x: string) { if s.Lit? then x == s.text else x != "" }

  /** All of a path's elements, the empty one before its first slash aside. */
  predicate FitsAll(ss: seq<Segment>, end: End, xs: seq<string>) {
    if ss == [] then
      match end case Plain => xs == [] case Subtree => xs != [] case Dollar => xs == [""]
    else xs != [] && FitsSegment(ss[0], xs[0]) && FitsAll(ss[1..], end, xs[1..])
  }

  /** The first elements of some path. */
  predicate FitsFirst(ss: seq<Segment>, end: End, xs: seq<string>) {
    if xs == [] then true
    else if ss == [] then
      match end case Plain => false case Subtree => true case Dollar => xs == [""]
    else FitsSegment(ss[0], xs[0]) && FitsFirst(ss[1..], end, xs[1..])
  }

  /** The elements that the entry names, after the empty one. */
  function Named(e: Entry): seq<string> {
    if e.pathType == EXACT then Elements(e.path)[1..] else Elements(Normalize(e.path))[1..]
  }

  predicate Rooted(e: Entry) {
    if e.pathType == EXACT then Elements(e.path)[0] == ""
    else e.pathType == PREFIX && Elements(Normalize(e.path))[0] == ""
  }

  predicate Fits(p: Pattern, e: Entry) {
    Rooted(e) &&
    if e.pathType == EXACT then FitsAll(p.segments, p.end, Named(e)) else FitsFirst(p.segments, p.end, Named(e))
  }

  // ---- the elements of a served path -----------------------------------------

  function Chosen(ss: seq<Segment>, vs: seq<string>): (xs: seq<string>)
    requires |vs| == |ss|
    ensures |xs| == |ss|
  {
    if ss == [] then [] else [if ss[0].Lit? then ss[0].text else vs[0]] + Chosen(ss[1..], vs[1..])
  }

  /** The elements after the last segment. */
  function After(end: End, below: string): seq<string> {
    match end case Plain => [] case Subtree => Elements(below) case Dollar => [""]
  }

  predicate StartsAtSlash(s: string) { s == "" || s[0] == '/' }

  lemma ElementsBehind(v: string, rest: string)
    requires '/' !in v && StartsAtSlash(rest)
    ensures Elements("/" + v + rest) == ["", v] + Elements(rest)[1..]
  {
    Strings.SplitOfOne(v, '/');
    if rest == "" {
      assert "/" + v + rest == "" + ['/'] + v;
      Strings.SplitOfAppend("", v, '/');
    } else {
      var tail := rest[1..];
      assert rest == ['/'] + tail && "/" + v + rest == "" + ['/'] + (v + ['/'] + tail);
      Strings.SplitOfAppend("", v + ['/'] + tail, '/');
      Strings.SplitOfAppend(v, tail, '/');
      assert [""] + ([v] + Elements(tail)) == ["", v] + Elements(tail);
    }
  }

  predicate SlashFree(ss: seq<Segment>, vs: seq<string>)
    requires |vs| == |ss|
  {
    forall x | x in Chosen(ss, vs) :: '/' !in x
  }

  lemma FillNext(v: string, more: seq<string>, fill: string, rest: string, tail: seq<string>)
    requires '/' !in v && StartsAtSlash(fill + rest) && Elements(fill + rest) == [""] + more + tail
    ensures StartsAtSlash(("/" + v + fill) + rest)
    ensures Elements(("/" + v + fill) + rest) == [""] + ([v] + more) + tail
  {
    ElementsBehind(v, fill + rest);
    assert ("/" + v + fill) + rest == "/" + v + (fill + rest);
    assert ([""] + more + tail)[1..] == more + tail;
    assert ["", v] + (more + tail) == [""] + ([v] + more) + tail;
  }

  lemma {:induction false} ElementsOfFill(ss: seq<Segment>, vs: seq<string>, rest: string)
    requires |vs| == |ss| && SlashFree(ss, vs) && StartsAtSlash(rest)
    ensures StartsAtSlash(Fill(ss, vs) + rest)
    ensures Elements(Fill(ss, vs) + rest) == [""] + Chosen(ss, vs) + Elements(rest)[1..]
  {
    if ss == [] {
      assert Fill(ss, vs) + rest == rest;
      StartsWithNothing(rest);
    } else {
      var v, more := if ss[0].Lit? then ss[0].text else vs[0], Chosen(ss[1..], vs[1..]);
      assert Chosen(ss, vs) == [v] + more && v in Chosen(ss, vs) && forall x | x in more :: x in Chosen(ss, vs);
      ElementsOfFill(ss[1..], vs[1..], rest);
      FillNext(v, more, Fill(ss[1..], vs[1..]), rest, Elements(rest)[1..]);
    }
  }

  lemma StartsWithNothing(s: string)
    requires StartsAtSlash(s)
    ensures Elements(s) == [""] + Elements(s)[1..]
  {
  }

  lemma ElementsOfRest(end: End, below: string)
    ensures StartsAtSlash(Rest(end, below)) && Elements(Rest(end, below))[1..] == After(end, below)
  {
    match end {
      case Plain =>
      case Subtree =>
        assert "/" + below == "" + ['/'] + below;
        Strings.SplitOfAppend("", below, '/');
      case Dollar =>
        assert "/" == "" + ['/'] + "";
        Strings.SplitOfAppend("", "", '/');
    }
  }

  lemma {:induction false} ChosenIsSlashFree(ss: seq<Segment>, vs: seq<string>)
    requires Values(ss, vs) && forall s | s in ss && s.Lit? :: Bare(s.text)
    ensures SlashFree(ss, vs)
  {
    if ss != [] {
      assert ss[0] in ss;
      assert forall i | 0 <= i < |ss| - 1 :: ss[1..][i] == ss[i + 1] && vs[1..][i] == vs[i + 1];
      ChosenIsSlashFree(ss[1..], vs[1..]);
    }
  }

  lemma ElementsOfPath(p: Pattern, vs: seq<string>, below: string)
    requires Legal(p) && Values(p.segments, vs)
    ensures Elements(Path(p, vs, below)) == [""] + (Chosen(p.segments, vs) + After(p.end, below))
  {
    ChosenIsSlashFree(p.segments, vs);
    ElementsOfRest(p.end, below);
    ElementsOfFill(p.segments, vs, Rest(p.end, below));
  }

  // ---- reachable means fits --------------------------------------------------

  lemma ValuesOfRest(ss: seq<Segment>, vs: seq<string>)
    requires Values(ss, vs) && ss != []
    ensures Values(ss[1..], vs[1..]) && FitsSegment(ss[0], Chosen(ss, vs)[0])
            && Chosen(ss, vs)[1..] == Chosen(ss[1..], vs[1..])
  {
    assert forall i | 0 <= i < |ss| - 1 :: ss[1..][i] == ss[i + 1] && vs[1..][i] == vs[i + 1];
  }

  lemma TailOfSum(a: seq<string>, b: seq<string>)
    requires a != []
    ensures (a + b)[0] == a[0] && (a + b)[1..] == a[1..] + b
  {
  }

  lemma {:induction false} ServedFitsAll(ss: seq<Segment>, end: End, vs: seq<string>, below: string)
    requires Values(ss, vs)
    ensures FitsAll(ss, end, Chosen(ss, vs) + After(end, below))
  {
    if ss == [] {
      assert Chosen(ss, vs) + After(end, below) == After(end, below);
    } else {
      ValuesOfRest(ss, vs);
      ServedFitsAll(ss[1..], end, vs[1..], below);
      TailOfSum(Chosen(ss, vs), After(end, below));
    }
  }

  lemma {:induction false} AllFitsFirst(ss: seq<Segment>, end: End, xs: seq<string>, n: nat)
    requires FitsAll(ss, end, xs) && n <= |xs|
    ensures FitsFirst(ss, end, xs[..n])
  {
    if n > 0 && ss != [] {
      AllFitsFirst(ss[1..], end, xs[1..], n - 1);
      assert xs[..n][1..] == xs[1..][..n - 1];
    }
  }

  /** Values that make a path of given elements; where they run out, any will do. */
  function Witness(ss: seq<Segment>, xs: seq<string>): (vs: seq<string>)
    ensures |vs| == |ss|
  {
    if ss == [] then []
    else [if xs != [] then xs[0] else "a"] + Witness(ss[1..], if xs != [] then xs[1..] else [])
  }

  lemma {:induction false} WitnessFits(ss: seq<Segment>, end: End, xs: seq<string>)
    requires FitsFirst(ss, end, xs) && forall x | x in xs :: '/' !in x
    ensures Values(ss, Witness(ss, xs))
    ensures var cs, n := Chosen(ss, Witness(ss, xs)), if |xs| < |ss| then |xs| else |ss|; cs[..n] == xs[..n]
    ensures |xs| > |ss| ==> match end case Plain => false case Subtree => true case Dollar => xs[|ss|..] == [""]
  {
    if ss != [] {
      var rest := if xs != [] then xs[1..] else [];
      assert xs != [] ==> xs[0] in xs;
      assert forall x | x in rest :: x in xs;
      WitnessFits(ss[1..], end, rest);
      var vs, ws := Witness(ss, xs), Witness(ss[1..], rest);
      assert vs == [vs[0]] + ws && vs[1..] == ws;
      forall i | 0 <= i < |ss| && ss[i].Wild? ensures vs[i] != "" && '/' !in vs[i] {
        if i > 0 { assert vs[i] == ws[i - 1] && ss[i] == ss[1..][i - 1]; }
      }
      if xs != [] { WitnessNext(ss, xs, vs, ws); }
    } else {
      assert xs[|ss|..] == xs;
    }
  }

  lemma WitnessNext(ss: seq<Segment>, xs: seq<string>, vs: seq<string>, ws: seq<string>)
    requires ss != [] && xs != [] && |ws| == |ss| - 1 && vs == [xs[0]] + ws && FitsSegment(ss[0], xs[0])
    requires var n := if |xs| - 1 < |ss| - 1 then |xs| - 1 else |ss| - 1; Chosen(ss[1..], ws)[..n] == xs[1..][..n]
    ensures var n := if |xs| < |ss| then |xs| else |ss|; Chosen(ss, vs)[..n] == xs[..n]
    ensures |xs| > |ss| ==> xs[1..][|ss| - 1..] == xs[|ss|..]
  {
    var n := if |xs| < |ss| then |xs| else |ss|;
    assert vs[1..] == ws;
    assert Chosen(ss, vs) == [xs[0]] + Chosen(ss[1..], ws);
    assert Chosen(ss, vs)[..n] == [xs[0]] + Chosen(ss[1..], ws)[..n - 1];
    assert xs[..n] == [xs[0]] + xs[1..][..n - 1];
  }

  /** The text below a subtree that gives the elements left. */
  function Remainder(ss: seq<Segment>, end: End, xs: seq<string>): string {
    if end.Subtree? && |xs| > |ss| then Strings.Join(xs[|ss|..], '/') else ""
  }

  /** The path of the witnesses starts with the elements asked for. */
  lemma WitnessPath(p: Pattern, xs: seq<string>)
    requires Legal(p) && FitsFirst(p.segments, p.end, xs) && forall x | x in xs :: '/' !in x
    ensures var vs, below := Witness(p.segments, xs), Remainder(p.segments, p.end, xs);
            && Values(p.segments, vs)
            && ElementWisePrefix([""] + xs, Elements(Path(p, vs, below)))
            && (|xs| > |p.segments| || (p.end.Plain? && |xs| == |p.segments|)
                ==> Elements(Path(p, vs, below)) == [""] + xs)
  {
    var ss := p.segments;
    var vs, below := Witness(ss, xs), Remainder(ss, p.end, xs);
    WitnessFits(ss, p.end, xs);
    ElementsOfPath(p, vs, below);
    if |xs| > |ss| { RemainderIsTheRest(ss, p.end, xs); }
    ChosenAreFirst(Chosen(ss, vs), After(p.end, below), xs, p.end);
  }

  lemma RemainderIsTheRest(ss: seq<Segment>, end: End, xs: seq<string>)
    requires |xs| > |ss| && forall x | x in xs :: '/' !in x
    requires match end case Plain => false case Subtree => true case Dollar => xs[|ss|..] == [""]
    ensures After(end, Remainder(ss, end, xs)) == xs[|ss|..]
  {
    assert forall x | x in xs[|ss|..] :: x in xs;
    if end.Subtree? { Strings.SplitOfJoin(xs[|ss|..], '/'); }
  }

  lemma ChosenAreFirst(cs: seq<string>, more: seq<string>, xs: seq<string>, end: End)
    requires var n := if |xs| < |cs| then |xs| else |cs|; cs[..n] == xs[..n]
    requires |xs| > |cs| ==> more == xs[|cs|..]
    requires end.Plain? ==> more == []
    ensures ElementWisePrefix([""] + xs, [""] + (cs + more))
    ensures |xs| > |cs| || (end.Plain? && |xs| == |cs|) ==> [""] + (cs + more) == [""] + xs
  {
    if |xs| > |cs| {
      assert cs[..|cs|] == cs && xs == xs[..|cs|] + xs[|cs|..];
    } else {
      assert xs[..|xs|] == xs;
      FirstElements(cs, more, xs);
      if |xs| == |cs| { assert cs[..|cs|] == cs; }
    }
  }

  lemma FirstElements(cs: seq<string>, more: seq<string>, xs: seq<string>)
    requires |xs| <= |cs| && cs[..|xs|] == xs
    ensures ElementWisePrefix([""] + xs, [""] + (cs + more))
  {
    assert ([""] + (cs + more))[..|xs| + 1] == [""] + cs[..|xs|];
  }

  lemma {:induction false} AllIsFirst(ss: seq<Segment>, end: End, xs: seq<string>)
    requires FitsAll(ss, end, xs)
    ensures FitsFirst(ss, end, xs) && (|xs| > |ss| || (end.Plain? && |xs| == |ss|))
  {
    if ss != [] { AllIsFirst(ss[1..], end, xs[1..]); }
  }

  lemma JoinInjective(a: string, b: string)
    requires Elements(a) == Elements(b)
    ensures a == b
  {
    Strings.JoinOfSplit(a, '/');
    Strings.JoinOfSplit(b, '/');
  }

  lemma ReachableFits(p: Pattern, e: Entry, vs: seq<string>, below: string)
    requires Legal(p) && Values(p.segments, vs) && Admits(e, Path(p, vs, below))
    ensures Fits(p, e)
  {
    var xs := Chosen(p.segments, vs) + After(p.end, below);
    ElementsOfPath(p, vs, below);
    ServedFitsAll(p.segments, p.end, vs, below);
    var all := [""] + xs;
    assert all[1..] == xs;
    if e.pathType != EXACT {
      var named := Elements(Normalize(e.path));
      assert named == all[..|named|];
      assert named[1..] == xs[..|named| - 1];
      AllFitsFirst(p.segments, p.end, xs, |named| - 1);
    }
  }

  lemma FitsReachable(p: Pattern, e: Entry)
    requires Legal(p) && Fits(p, e)
    ensures Reachable(p, e)
  {
    var xs := Named(e);
    var path := if e.pathType == EXACT then e.path else Normalize(e.path);
    Strings.SplitHasNoSeparator(path, '/');
    assert Elements(path) == [""] + xs && forall x | x in xs :: x in Elements(path);
    if e.pathType == EXACT { AllIsFirst(p.segments, p.end, xs); }
    WitnessPath(p, xs);
    var vs, below := Witness(p.segments, xs), Remainder(p.segments, p.end, xs);
    if e.pathType == EXACT { JoinInjective(Path(p, vs, below), e.path); }
    assert Admits(e, Path(p, vs, below));
  }

  /** A pattern can be reached through an entry iff the entry's elements fit its segments. */
  lemma ReachableIff(p: Pattern, e: Entry)
    requires Legal(p)
    ensures Reachable(p, e) <==> Fits(p, e)
  {
    if Reachable(p, e) {
      var vs, below :| Values(p.segments, vs) && Admits(e, Path(p, vs, below));
      ReachableFits(p, e, vs, below);
    }
    if Fits(p, e) { FitsReachable(p, e); }
  }

  // ---- when covering is reachability -----------------------------------------

  /** The literal segments before the first wildcard. */
  function Leading(ss: seq<Segment>): (k: nat)
    ensures k <= |ss| && NoWild(ss[..k]) && (k < |ss| ==> ss[k].Wild?)
  {
    if ss == [] || ss[0].Wild? then 0
    else
      var k := Leading(ss[1..]);
      assert ss[..k + 1] == [ss[0]] + ss[1..][..k];
      k + 1
  }

  /** The entry names the root of the subtree, its final slash included. */
  predicate NamesRoot(p: Pattern, e: Entry) {
    p.end.Subtree? && |Named(e)| == |p.segments| + 1 && Named(e)[|p.segments|] == ""
  }

  /** The entry says nothing about the pattern beyond its fixed part. */
  predicate Shallow(p: Pattern, e: Entry) {
    var fixed := Leading(p.segments);
    if e.pathType == EXACT then fixed == |p.segments| && (p.end.Plain? || NamesRoot(p, e))
    else |Named(e)| <= fixed || (fixed == |p.segments| && NamesRoot(p, e))
  }

  function Texts(ss: seq<Segment>): (xs: seq<string>)
    requires NoWild(ss)
    ensures |xs| == |ss|
  {
    if ss == [] then []
    else
      assert ss[0] in ss;
      [ss[0].text] + Texts(ss[1..])
  }

  lemma {:induction false} FixedElements(ss: seq<Segment>, rest: string)
    requires NoWild(ss) && (forall s | s in ss && s.Lit? :: Bare(s.text)) && StartsAtSlash(rest)
    ensures Elements(RenderSegments(ss) + rest) == [""] + Texts(ss) + Elements(rest)[1..]
    ensures StartsAtSlash(RenderSegments(ss) + rest)
  {
    if ss == [] {
      assert RenderSegments(ss) + rest == rest;
      StartsWithNothing(rest);
    } else {
      assert ss[0] in ss;
      FixedElements(ss[1..], rest);
      FillNext(ss[0].text, Texts(ss[1..]), RenderSegments(ss[1..]), rest, Elements(rest)[1..]);
    }
  }

  lemma ElementsOfFixed(ss: seq<Segment>)
    requires NoWild(ss) && forall s | s in ss && s.Lit? :: Bare(s.text)
    ensures Elements(RenderSegments(ss)) == [""] + Texts(ss)
    ensures Elements(RenderSegments(ss) + "/") == [""] + Texts(ss) + [""]
  {
    FixedElements(ss, "");
    assert RenderSegments(ss) + "" == RenderSegments(ss);
    FixedElements(ss, "/");
    ElementsOfRest(Dollar, "");
  }

  /** An entry that ends above the first wildcard fits iff it spells the literals. */
  lemma {:induction false} FitsAbove(ss: seq<Segment>, end: End, xs: seq<string>, k: nat)
    requires k <= |ss| && NoWild(ss[..k]) && |xs| <= k
    ensures FitsFirst(ss, end, xs) <==> xs == Texts(ss[..k])[..|xs|]
  {
    if xs != [] {
      assert ss[..k][0] == ss[0] && ss[..k][1..] == ss[1..][..k - 1] && ss[0] in ss[..k];
      assert NoWild(ss[1..][..k - 1]) by { assert forall s | s in ss[..k][1..] :: s in ss[..k]; }
      FitsAbove(ss[1..], end, xs[1..], k - 1);
      var t := Texts(ss[..k]);
      assert t == [ss[0].text] + Texts(ss[1..][..k - 1]);
      assert xs == [xs[0]] + xs[1..];
      assert t[..|xs|] == [ss[0].text] + Texts(ss[1..][..k - 1])[..|xs| - 1];
    }
  }

  lemma SpellsNext(ss: seq<Segment>, xs: seq<string>)
    requires NoWild(ss) && 0 < |ss| <= |xs|
    ensures NoWild(ss[1..])
    ensures xs[..|ss|] == Texts(ss) <==> xs[0] == ss[0].text && xs[1..][..|ss| - 1] == Texts(ss[1..])
    ensures xs[1..][|ss| - 1..] == xs[|ss|..]
  {
    var rest := ss[1..];
    assert forall s | s in rest :: s in ss;
    FrontIs(xs, ss[0].text, Texts(rest));
  }

  lemma FrontIs(xs: seq<string>, t: string, more: seq<string>)
    requires |xs| > |more|
    ensures xs[..|more| + 1] == [t] + more <==> xs[0] == t && xs[1..][..|more|] == more
    ensures xs[1..][|more|..] == xs[|more| + 1..]
  {
    var front := xs[..|more| + 1];
    assert xs[1..][..|more|] == front[1..] && front == [front[0]] + front[1..];
    assert ([t] + more)[1..] == more;
  }

  lemma {:induction false} FixedFitsAll(ss: seq<Segment>, end: End, xs: seq<string>)
    requires NoWild(ss)
    ensures FitsAll(ss, end, xs) <==> |xs| >= |ss| && xs[..|ss|] == Texts(ss) && FitsAll([], end, xs[|ss|..])
  {
    if ss == [] {
      assert xs[0..] == xs;
    } else {
      assert ss[0] in ss;
      if xs != [] {
        FixedFitsAll(ss[1..], end, xs[1..]);
        if |xs| >= |ss| { SpellsNext(ss, xs); }
      }
    }
  }

  lemma {:induction false} FixedFitsFirst(ss: seq<Segment>, end: End, xs: seq<string>)
    requires NoWild(ss) && |xs| > |ss|
    ensures FitsFirst(ss, end, xs) <==> xs[..|ss|] == Texts(ss) && FitsFirst([], end, xs[|ss|..])
  {
    if ss == [] {
      assert xs[0..] == xs;
    } else {
      assert ss[0] in ss;
      FixedFitsFirst(ss[1..], end, xs[1..]);
      SpellsNext(ss, xs);
    }
  }

  /** A text below a slash, element by element. */
  lemma BelowIff(e: Entry, fixed: string)
    ensures Below(e, fixed + "/")
            <==> e.pathType == PREFIX && ElementWisePrefix(Elements(Normalize(e.path)), Elements(fixed))
  {
    var n, t := Normalize(e.path), fixed + "/";
    ElementWiseIff(n, fixed);
    if HasPrefix(t, n + "/") {
      if |n| < |fixed| {
        assert t[..|n| + 1] == fixed[..|n| + 1];
      } else {
        assert t[..|n| + 1][..|n|] == n && t[..|fixed|] == fixed;
      }
    }
    if HasPrefix(fixed, n + "/") { assert t[..|n| + 1] == fixed[..|n| + 1]; }
  }

  lemma BelowFixedIff(p: Pattern, e: Entry, k: nat)
    requires Legal(p) && k <= |p.segments| && NoWild(p.segments[..k]) && e.pathType != EXACT
    ensures Below(e, RenderSegments(p.segments[..k]) + "/") <==> Fits(p, e) && |Named(e)| <= k
  {
    var pre, xs := p.segments[..k], Named(e);
    assert forall s | s in pre :: s in p.segments;
    BelowIff(e, RenderSegments(pre));
    ElementsOfFixed(pre);
    var named := Elements(Normalize(e.path));
    assert named == [named[0]] + xs;
    if |xs| <= k {
      FitsAbove(p.segments, p.end, xs, k);
      assert ([""] + Texts(pre))[..|named|] == [""] + Texts(pre)[..|xs|];
    }
  }

  lemma CoversWildIff(p: Pattern, e: Entry)
    requires Legal(p) && !NoWild(p.segments)
    ensures Covers(Render(p), e.path, e.pathType) <==> Fits(p, e) && Shallow(p, e)
  {
    var k := Leading(p.segments);
    assert p.segments[..|p.segments|] == p.segments;
    WildStatic(p, k);
    if e.pathType != EXACT { BelowFixedIff(p, e, k); }
  }

  function PathOf(e: Entry): string { if e.pathType == EXACT then e.path else Normalize(e.path) }

  /** The entry is the root of a fixed subtree. */
  lemma MeetsRootIff(p: Pattern, e: Entry)
    requires Legal(p) && NoWild(p.segments) && p.end.Subtree?
    ensures Meets(e, RenderSegments(p.segments) + "/") <==> Fits(p, e) && NamesRoot(p, e)
  {
    if Meets(e, RenderSegments(p.segments) + "/") { RootFits(p, e); }
    if Fits(p, e) && NamesRoot(p, e) { FitsRoot(p, e); }
  }

  lemma RootFits(p: Pattern, e: Entry)
    requires Legal(p) && NoWild(p.segments) && p.end.Subtree? && Meets(e, RenderSegments(p.segments) + "/")
    ensures Fits(p, e) && NamesRoot(p, e)
  {
    ElementsOfFixed(p.segments);
    TextsFit(p, Texts(p.segments) + [""], Texts(p.segments));
    assert Elements(PathOf(e)) == [""] + (Texts(p.segments) + [""]);
    assert Named(e) == Texts(p.segments) + [""];
  }

  lemma TextsFit(p: Pattern, xs: seq<string>, ts: seq<string>)
    requires NoWild(p.segments) && p.end.Subtree? && ts == Texts(p.segments) && |ts| == |p.segments| && xs == ts + [""]
    ensures FitsAll(p.segments, p.end, xs) && FitsFirst(p.segments, p.end, xs) && xs[|p.segments|] == ""
  {
    assert xs[..|ts|] == ts;
    FixedFitsAll(p.segments, p.end, xs);
    FixedFitsFirst(p.segments, p.end, xs);
  }

  lemma FitsRoot(p: Pattern, e: Entry)
    requires Legal(p) && NoWild(p.segments) && p.end.Subtree? && Fits(p, e) && NamesRoot(p, e)
    ensures Meets(e, RenderSegments(p.segments) + "/")
  {
    var ss, xs, path := p.segments, Named(e), PathOf(e);
    ElementsOfFixed(ss);
    FixedFitsAll(ss, p.end, xs);
    FixedFitsFirst(ss, p.end, xs);
    assert xs == xs[..|ss|] + [xs[|ss|]];
    assert Elements(path) == [Elements(path)[0]] + xs;
    assert Elements(path) == [""] + Texts(ss) + [""];
    JoinInjective(path, RenderSegments(ss) + "/");
  }

  lemma CoversPlainIff(p: Pattern, e: Entry)
    requires Legal(p) && NoWild(p.segments) && p.end.Plain?
    ensures Covers(Render(p), e.path, e.pathType) <==> Fits(p, e) && Shallow(p, e)
  {
    var ss := p.segments;
    CoversFixedPathIff(p, e);
    PlainPath(p);
    ReachableIff(p, e);
    if Admits(e, Render(p)) { assert Admits(e, Path(p, Constant(ss, "a"), "")); }
    if Fits(p, e) {
      LeadingOfFixed(ss);
      if |Named(e)| > |ss| { FixedFitsFirst(ss, p.end, Named(e)); }
    }
  }

  /** A fixed plain pattern serves its own text only. */
  lemma PlainPath(p: Pattern)
    requires Legal(p) && NoWild(p.segments) && p.end.Plain?
    ensures Values(p.segments, Constant(p.segments, "a"))
    ensures forall vs, below | Values(p.segments, vs) :: Path(p, vs, below) == Render(p)
  {
    forall vs, below | Values(p.segments, vs) ensures Path(p, vs, below) == Render(p) { FixedPattern(p, vs, below); }
  }

  lemma {:induction false} LeadingOfFixed(ss: seq<Segment>)
    requires NoWild(ss)
    ensures Leading(ss) == |ss|
  {
    if ss != [] {
      assert ss[0] in ss;
      LeadingOfFixed(ss[1..]);
    }
  }

  lemma CoversRootedIff(p: Pattern, e: Entry)
    requires Legal(p) && NoWild(p.segments) && !p.end.Plain?
    ensures Covers(Render(p), e.path, e.pathType) <==> Fits(p, e) && Shallow(p, e)
  {
    var ss := p.segments;
    LeadingOfFixed(ss);
    assert ss[..|ss|] == ss;
    CoversRoot(p, e);
    if p.end.Subtree? { MeetsRootIff(p, e); }
    if e.pathType != EXACT { BelowFixedIff(p, e, |ss|); }
  }

  /** Covering is a match by an entry no deeper than the pattern's fixed part. */
  lemma CoversFitsIff(p: Pattern, e: Entry)
    requires Legal(p)
    ensures Covers(Render(p), e.path, e.pathType) <==> Fits(p, e) && Shallow(p, e)
  {
    if !NoWild(p.segments) { CoversWildIff(p, e); }
    else if p.end.Plain? { CoversPlainIff(p, e); }
    else { CoversRootedIff(p, e); }
  }

  /** The coverage test tells reachability iff no entry fits the pattern deeper than its fixed part. */
  lemma CoversTellsReachabilityIff(p: Pattern, e: Entry)
    requires Legal(p)
    ensures (Reachable(p, e) <==> Covers(Render(p), e.path, e.pathType)) <==> (Fits(p, e) ==> Shallow(p, e))
  {
    ReachableIff(p, e);
    CoversFitsIff(p, e);
  }

  // ---- the report ------------------------------------------------------------

  ghost predicate ForeignReachable(ds: seq<Declared>, es: seq<Entry>) {
    exists i, j :: 0 <= i < |ds| && 0 <= j < |es| && ds[i].audience != PARTICIPANT && Reachable(ds[i].pattern, es[j])
  }

  /** An entry reaches into a pattern of another audience below its fixed part. */
  predicate DeepFit(ds: seq<Declared>, es: seq<Entry>) {
    exists i, j :: 0 <= i < |ds| && 0 <= j < |es| && ds[i].audience != PARTICIPANT
                   && Fits(ds[i].pattern, es[j]) && !Shallow(ds[i].pattern, es[j])
  }

  /** Each route taken by itself, as if it were alone in the mux: none of another audience is reachable
      iff nothing is reported foreign and no entry fits one deeper than its fixed part. */
  lemma ForeignReachableIff(ds: seq<Declared>, es: seq<Entry>)
    requires forall i | 0 <= i < |ds| :: Legal(ds[i].pattern)
    ensures ForeignReachable(ds, es) <==> Foreign(Table(ds), es) != [] || DeepFit(ds, es)
  {
    ForeignIff(ds, es);
    forall i, j | 0 <= i < |ds| && 0 <= j < |es|
      ensures Reachable(ds[i].pattern, es[j])
              <==> Means(ds[i].pattern, es[j]) || (Fits(ds[i].pattern, es[j]) && !Shallow(ds[i].pattern, es[j]))
    {
      ReachableIff(ds[i].pattern, es[j]);
      CoversFitsIff(ds[i].pattern, es[j]);
      CoversMeans(ds[i].pattern, es[j]);
    }
  }

  /** So an empty foreign report is the whole answer iff no entry fits deeper. */
  lemma EmptyReportIsTheAnswerIff(ds: seq<Declared>, es: seq<Entry>)
    requires (forall i | 0 <= i < |ds| :: Legal(ds[i].pattern)) && Foreign(Table(ds), es) == []
    ensures !ForeignReachable(ds, es) <==> !DeepFit(ds, es)
  {
    ForeignReachableIff(ds, es);
  }

  // ---- two routes the report misses ------------------------------------------

  /** One value of a parameter; and, without any parameter, a path below the operator route `/`,
      through an entry for participants. */
  lemma ReachableInPart()
    ensures var (p, e) := (Pattern([Lit("u"), Wild("x")], Plain), Entry("/u/a", EXACT));
            Legal(p) && Reachable(p, e) && !Covers(Render(p), e.path, e.pathType)
    ensures var (p, e) := (Pattern([], Subtree), Entry("/api/users/", PREFIX));
            Legal(p) && Reachable(p, e) && !Covers(Render(p), e.path, e.pathType)
  {
    OneValue();
    BelowTheRoot();
  }

  lemma OneValue()
    ensures var (p, e) := (Pattern([Lit("u"), Wild("x")], Plain), Entry("/u/a", EXACT));
            Legal(p) && Reachable(p, e) && !Covers(Render(p), e.path, e.pathType)
  {
    var (p, e) := (Pattern([Lit("u"), Wild("x")], Plain), Entry("/u/a", EXACT));
    TwoElements("u", "a");
    assert "/" + "u" + ("/" + "a") == e.path;
    assert Named(e) == ["u", "a"];
    OneParameterFits("u", "x", "a");
    assert p.segments[1].Wild? && p.segments[1] in p.segments;
    ReachableIff(p, e);
    CoversFitsIff(p, e);
  }

  lemma TwoElements(a: string, b: string)
    requires Bare(a) && Bare(b)
    ensures Elements("/" + a + ("/" + b)) == ["", a, b]
  {
    ElementsBehind(b, "");
    assert "/" + b + "" == "/" + b;
    ElementsBehind(a, "/" + b);
  }

  lemma OneParameterFits(text: string, name: string, value: string)
    requires value != ""
    ensures FitsAll([Lit(text), Wild(name)], Plain, [text, value])
  {
    var ss, xs := [Lit(text), Wild(name)], [text, value];
    assert ss[1..] == [Wild(name)] && ss[1..][1..] == [] && xs[1..] == [value] && xs[1..][1..] == [];
    assert FitsAll(ss[1..], Plain, xs[1..]);
  }

  lemma BelowTheRoot()
    ensures var (p, e) := (Pattern([], Subtree), Entry("/api/users/", PREFIX));
            Legal(p) && Reachable(p, e) && !Covers(Render(p), e.path, e.pathType)
  {
    TwoElements("api", "users");
    assert "/" + "api" + ("/" + "users") == "/api/users";
    assert Normalize("/api/users/") == "/api/users";
    DeepPrefixReachesTheRoot(Entry("/api/users/", PREFIX), "api", "users");
  }

  lemma DeepPrefixReachesTheRoot(e: Entry, a: string, b: string)
    requires e.pathType == PREFIX && Elements(Normalize(e.path)) == ["", a, b]
    ensures var p := Pattern([], Subtree); Legal(p) && Reachable(p, e) && !Covers(Render(p), e.path, e.pathType)
  {
    var p := Pattern([], Subtree);
    assert PREFIX != EXACT by { assert |PREFIX| == 6 && |EXACT| == 5; }
    assert Named(e) == [a, b];
    ReachableIff(p, e);
    CoversFitsIff(p, e);
  }
}
