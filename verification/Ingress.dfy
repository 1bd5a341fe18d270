/** The ingress coverage rule: a syntactic test on a mux pattern and an ingress entry, against what
    the pattern serves and what the entry admits. */
module Ingress {
  import Strings

  // ---- the rule --------------------------------------------------------------

  datatype Entry = Entry(path: string, pathType: string)

  const EXACT := "Exact"
  const PREFIX := "Prefix"

  predicate HasPrefix(s: string, p: string) { |p| <= |s| && s[..|p|] == p }

  function Normalize(path: string): string {
    if path != "" && path[|path| - 1] == '/' then path[..|path| - 1] else path
  }

  datatype Static = Static(prefix: string, hasParam: bool)

  /** The text before the first brace. */
  function StaticPrefix(pattern: string): Static {
    if pattern == "" then Static("", false)
    else if pattern[0] == '{' then Static("", true)
    else var r := StaticPrefix(pattern[1..]); Static([pattern[0]] + r.prefix, r.hasParam)
  }

  function Covers(pattern: string, path: string, pathType: string): bool {
    var s := StaticPrefix(pattern);
    if pathType == EXACT then !s.hasParam && pattern == path
    else if pathType == PREFIX then
      var p2 := Normalize(path) + "/";
      if s.hasParam then s.prefix == p2 || HasPrefix(s.prefix, p2)
      else pattern == Normalize(path) || HasPrefix(pattern, p2)
    else false
  }

  // ---- what it stands for ----------------------------------------------------

  /** The elements of a path. */
  function Elements(path: string): seq<string> { Strings.Split(path, '/') }

  predicate ElementWisePrefix(a: seq<string>, b: seq<string>) { |a| <= |b| && b[..|a|] == a }

  /** Kubernetes: Exact admits one path; Prefix matches element by element, one trailing slash of
      the entry ignored. */
  predicate Admits(e: Entry, request: string) {
    if e.pathType == EXACT then request == e.path
    else e.pathType == PREFIX && ElementWisePrefix(Elements(Normalize(e.path)), Elements(request))
  }

  datatype Segment = Lit(text: string) | Wild(name: string)

  /** How a pattern ends: after its last segment, in a subtree slash, or in `/{$}`. */
  datatype End = Plain | Subtree | Dollar

  datatype Pattern = Pattern(segments: seq<Segment>, end: End)

  predicate Bare(s: string) { '/' !in s && '{' !in s }

  /** A wildcard of one segment: `{$}` is an end, and `{name...}` would take the whole rest. */
  predicate WildName(name: string) {
    Bare(name) && name != "" && name != "$" && !(|name| >= 3 && name[|name| - 3..] == "...")
  }

  /** A wildcard fills a whole segment; a literal holds no brace. */
  predicate Legal(p: Pattern) {
    && (forall s | s in p.segments :: if s.Lit? then Bare(s.text) && s.text != "" else WildName(s.name))
    && (p.end.Plain? ==> p.segments != [])
  }

  function Text(s: Segment): string { match s case Lit(t) => t case Wild(n) => "{" + n + "}" }

  function RenderSegments(ss: seq<Segment>): string {
    if ss == [] then "" else "/" + Text(ss[0]) + RenderSegments(ss[1..])
  }

  function RenderEnd(e: End): string { match e case Plain => "" case Subtree => "/" case Dollar => "/{$}" }

  /** The pattern as the mux reads it. */
  function Render(p: Pattern): string { RenderSegments(p.segments) + RenderEnd(p.end) }

  /** Values for the segments; a wildcard takes any non-empty text without a slash. */
  predicate Values(ss: seq<Segment>, vs: seq<string>) {
    |vs| == |ss| && forall i | 0 <= i < |ss| && ss[i].Wild? :: vs[i] != "" && '/' !in vs[i]
  }

  function Fill(ss: seq<Segment>, vs: seq<string>): string
    requires |vs| == |ss|
  {
    if ss == [] then "" else "/" + (if ss[0].Lit? then ss[0].text else vs[0]) + Fill(ss[1..], vs[1..])
  }

  function Rest(e: End, below: string): string {
    match e case Plain => "" case Subtree => "/" + below case Dollar => "/"
  }

  /** The path served for some values and, in a subtree, some text below it. */
  function Path(p: Pattern, vs: seq<string>, below: string): string
    requires |vs| == |p.segments|
  {
    Fill(p.segments, vs) + Rest(p.end, below)
  }

  /** Every path the pattern serves is admitted by this one entry. */
  ghost predicate AllAdmitted(p: Pattern, e: Entry) {
    forall vs, below | Values(p.segments, vs) :: Admits(e, Path(p, vs, below))
  }

  // ---- admission as a test on strings ----------------------------------------

  /** Element-wise prefix is equality, or a text prefix that ends at a slash. */
  lemma ElementWiseIff(n: string, r: string)
    ensures ElementWisePrefix(Elements(n), Elements(r)) <==> r == n || HasPrefix(r, n + "/")
  {
    var a, b := Elements(n), Elements(r);
    Strings.JoinOfSplit(n, '/');
    Strings.JoinOfSplit(r, '/');
    if ElementWisePrefix(a, b) {
      assert b == a + b[|a|..];
      if |a| < |b| {
        Strings.JoinOfAppend(a, b[|a|..], '/');
      } else {
        assert a == b;
      }
    }
    if HasPrefix(r, n + "/") {
      var rest := r[|n| + 1..];
      assert r == n + "/" + rest;
      Strings.SplitOfAppend(n, rest, '/');
    }
  }

  // ---- the static prefix -----------------------------------------------------

  lemma {:induction false} StaticOfBare(a: string, b: string)
    requires '{' !in a
    ensures StaticPrefix(a + b) == Static(a + StaticPrefix(b).prefix, StaticPrefix(b).hasParam)
  {
    if a == "" {
      assert a + b == b;
    } else {
      assert (a + b)[0] == a[0] && a[0] in a && (a + b)[1..] == a[1..] + b;
      StaticOfBare(a[1..], b);
    }
  }

  predicate NoWild(ss: seq<Segment>) { forall s | s in ss :: s.Lit? }

  lemma {:induction false} NoWildSegments(ss: seq<Segment>, vs: seq<string>)
    requires NoWild(ss) && |vs| == |ss| && forall s | s in ss && s.Lit? :: Bare(s.text)
    ensures Fill(ss, vs) == RenderSegments(ss) && '{' !in RenderSegments(ss)
  {
    if ss != [] {
      assert ss[0] in ss;
      NoWildSegments(ss[1..], vs[1..]);
    }
  }

  lemma {:induction false} SegmentsAppend(a: seq<Segment>, b: seq<Segment>, vs: seq<string>)
    requires |vs| == |a| + |b|
    ensures RenderSegments(a + b) == RenderSegments(a) + RenderSegments(b)
    ensures Fill(a + b, vs) == Fill(a, vs[..|a|]) + Fill(b, vs[|a|..])
  {
    if a == [] {
      assert a + b == b && vs[0..] == vs;
    } else {
      assert (a + b)[1..] == a[1..] + b;
      SegmentsAppend(a[1..], b, vs[1..]);
      assert vs[..|a|][1..] == vs[1..][..|a| - 1] && vs[1..][|a| - 1..] == vs[|a|..];
    }
  }

  lemma {:induction false} FirstWild(ss: seq<Segment>) returns (k: nat)
    requires !NoWild(ss)
    ensures k < |ss| && ss[k].Wild? && NoWild(ss[..k])
  {
    if ss[0].Wild? {
      k := 0;
    } else {
      assert exists s | s in ss[1..] :: s.Wild?;
      var j := FirstWild(ss[1..]);
      k := j + 1;
      assert ss[..k] == [ss[0]] + ss[1..][..j];
    }
  }

  lemma RegroupPattern(a: string, name: string, t: string, e: string)
    ensures a + ("/" + ("{" + name + "}") + t) + e == a + "/" + ("{" + (name + "}" + t + e))
  {
  }

  lemma RegroupPath(a: string, v: string, t: string, e: string)
    ensures a + ("/" + v + t) + e == a + "/" + v + (t + e)
  {
  }

  /** The fixed text of a pattern with a wildcard. */
  lemma WildStatic(p: Pattern, k: nat)
    requires Legal(p) && k < |p.segments| && p.segments[k].Wild? && NoWild(p.segments[..k])
    ensures StaticPrefix(Render(p)) == Static(RenderSegments(p.segments[..k]) + "/", true)
  {
    WildRender(p.segments, k);
    var pre, name, t := RenderSegments(p.segments[..k]), p.segments[k].name, RenderSegments(p.segments[k + 1..]);
    RegroupPattern(pre, name, t, RenderEnd(p.end));
    NoWildSegments(p.segments[..k], Constant(p.segments[..k], ""));
    BraceIsFound(pre, name + "}" + t + RenderEnd(p.end));
  }

  lemma WildRender(ss: seq<Segment>, k: nat)
    requires k < |ss| && ss[k].Wild?
    ensures RenderSegments(ss) == RenderSegments(ss[..k])
            + ("/" + ("{" + ss[k].name + "}") + RenderSegments(ss[k + 1..]))
  {
    assert ss == ss[..k] + ss[k..] && ss[k..][1..] == ss[k + 1..];
    SegmentsAppend(ss[..k], ss[k..], Constant(ss, ""));
  }

  lemma WildFill(ss: seq<Segment>, k: nat, vs: seq<string>)
    requires k < |ss| && ss[k].Wild? && |vs| == |ss|
    ensures Fill(ss, vs) == Fill(ss[..k], vs[..k]) + ("/" + vs[k] + Fill(ss[k + 1..], vs[k + 1..]))
  {
    assert ss == ss[..k] + ss[k..] && ss[k..][1..] == ss[k + 1..] && vs[k..][1..] == vs[k + 1..];
    SegmentsAppend(ss[..k], ss[k..], vs);
  }

  lemma BraceIsFound(fixed: string, rest: string)
    requires '{' !in fixed
    ensures StaticPrefix(fixed + "/" + ("{" + rest)) == Static(fixed + "/", true)
  {
    StaticOfBare(fixed + "/", "{" + rest);
    assert fixed + "/" + "" == fixed + "/";
  }

  /** The shape of its paths. */
  lemma WildPath(p: Pattern, k: nat, vs: seq<string>, below: string) returns (tail: string)
    requires k < |p.segments| && p.segments[k].Wild? && NoWild(p.segments[..k]) && Legal(p) && |vs| == |p.segments|
    ensures Path(p, vs, below) == RenderSegments(p.segments[..k]) + "/" + vs[k] + tail
  {
    WildFill(p.segments, k, vs);
    NoWildSegments(p.segments[..k], vs[..k]);
    var t := Fill(p.segments[k + 1..], vs[k + 1..]);
    tail := t + Rest(p.end, below);
    RegroupPath(RenderSegments(p.segments[..k]), vs[k], t, Rest(p.end, below));
  }

  /** The paths of a pattern without a wildcard. */
  lemma FixedPattern(p: Pattern, vs: seq<string>, below: string)
    requires Legal(p) && NoWild(p.segments) && |vs| == |p.segments|
    ensures Path(p, vs, below)
            == RenderSegments(p.segments) + Rest(p.end, below)
    ensures StaticPrefix(Render(p))
            == if p.end.Dollar? then Static(RenderSegments(p.segments) + "/", true) else Static(Render(p), false)
  {
    NoWildSegments(p.segments, vs);
    var fixed := RenderSegments(p.segments);
    match p.end {
      case Plain =>
        StaticOfBare(fixed, "");
        assert fixed + "" == fixed;
      case Subtree =>
        StaticOfBare(fixed + "/", "");
        assert fixed + "/" + "" == fixed + "/";
      case Dollar =>
        var brace := "{$}";
        StaticOfBare(fixed + "/", brace);
        assert StaticPrefix(brace) == Static("", true);
        assert fixed + "/" + brace == fixed + "/{$}" && fixed + "/" + "" == fixed + "/";
    }
  }

  predicate Meets(e: Entry, text: string) {
    if e.pathType == EXACT then text == e.path else e.pathType == PREFIX && text == Normalize(e.path)
  }

  predicate Below(e: Entry, text: string) { e.pathType == PREFIX && HasPrefix(text, Normalize(e.path) + "/") }

  lemma AdmitsIff(e: Entry, request: string)
    ensures Admits(e, request) <==> Meets(e, request) || Below(e, request)
  {
    ElementWiseIff(Normalize(e.path), request);
  }

  lemma PrefixOfAppend(a: string, b: string, q: string)
    ensures HasPrefix(a, q) ==> HasPrefix(a + b, q)
    ensures |q| <= |a| ==> (HasPrefix(a, q) <==> HasPrefix(a + b, q))
  {
    if |q| <= |a| { assert (a + b)[..|q|] == a[..|q|]; }
  }

  /** A character that the entry fixes. */
  lemma FixedCharacter(e: Entry, request: string, i: nat)
    requires (Meets(e, request) || Below(e, request)) && i < |request|
    requires e.pathType == EXACT || i < |Normalize(e.path)| + 1
    ensures var text := if e.pathType == EXACT then e.path else Normalize(e.path) + "/";
            i < |text| && request[i] == text[i]
  {
  }

  /** Two paths that part right after the fixed text are both admitted only through that text. */
  lemma TwoPathsPart(e: Entry, fixed: string, t1: string, t2: string)
    requires Meets(e, fixed + "a" + t1) || Below(e, fixed + "a" + t1)
    requires Meets(e, fixed + "b" + t2) || Below(e, fixed + "b" + t2)
    ensures Below(e, fixed)
  {
    var r1, r2, n := fixed + "a" + t1, fixed + "b" + t2, Normalize(e.path);
    assert r1[|fixed|] == 'a' && r2[|fixed|] == 'b';
    assert fixed + ("a" + t1) == r1;
    PrefixOfAppend(fixed, "a" + t1, n + "/");
    if e.pathType == EXACT || |fixed| < |n| + 1 {
      FixedCharacter(e, r1, |fixed|);
      FixedCharacter(e, r2, |fixed|);
    }
  }

  function Constant(ss: seq<Segment>, v: string): (vs: seq<string>)
    ensures |vs| == |ss| && forall i | 0 <= i < |vs| :: vs[i] == v
  {
    seq(|ss|, _ => v)
  }

  lemma AllAdmittedIsBelow(p: Pattern, e: Entry, k: nat)
    requires Legal(p) && k < |p.segments| && p.segments[k].Wild? && NoWild(p.segments[..k]) && AllAdmitted(p, e)
    ensures Below(e, RenderSegments(p.segments[..k]) + "/")
  {
    var va, vb := Constant(p.segments, "a"), Constant(p.segments, "b");
    var t1 := WildPath(p, k, va, "");
    var t2 := WildPath(p, k, vb, "");
    assert Values(p.segments, va) && Values(p.segments, vb);
    assert Admits(e, Path(p, va, "")) && Admits(e, Path(p, vb, ""));
    AdmitsIff(e, Path(p, va, ""));
    AdmitsIff(e, Path(p, vb, ""));
    TwoPathsPart(e, RenderSegments(p.segments[..k]) + "/", t1, t2);
  }

  lemma BelowAdmitsAll(p: Pattern, e: Entry, k: nat)
    requires Legal(p) && k < |p.segments| && p.segments[k].Wild? && NoWild(p.segments[..k])
    requires Below(e, RenderSegments(p.segments[..k]) + "/")
    ensures AllAdmitted(p, e)
  {
    var fixed := RenderSegments(p.segments[..k]) + "/";
    forall vs, below | Values(p.segments, vs) ensures Admits(e, Path(p, vs, below)) {
      var t := WildPath(p, k, vs, below);
      PrefixOfAppend(fixed, vs[k] + t, Normalize(e.path) + "/");
      assert fixed + (vs[k] + t) == Path(p, vs, below);
      AdmitsIff(e, Path(p, vs, below));
    }
  }

  lemma CoversWithWild(p: Pattern, e: Entry)
    requires Legal(p) && !NoWild(p.segments)
    ensures AllAdmitted(p, e) <==> Covers(Render(p), e.path, e.pathType)
  {
    var k := FirstWild(p.segments);
    WildStatic(p, k);
    if AllAdmitted(p, e) { AllAdmittedIsBelow(p, e, k); }
    if Below(e, RenderSegments(p.segments[..k]) + "/") { BelowAdmitsAll(p, e, k); }
  }

  lemma CoversFixed(p: Pattern, e: Entry)
    requires Legal(p) && NoWild(p.segments)
    ensures var base := RenderSegments(p.segments) + "/";
            AllAdmitted(p, e) <==>
            match p.end
            case Plain => Covers(Render(p), e.path, e.pathType)
            case Subtree => Covers(Render(p), e.path, e.pathType) && !Meets(e, base)
            case Dollar => Covers(Render(p), e.path, e.pathType) || Meets(e, base)
  {
    var vs := Constant(p.segments, "a");
    assert Values(p.segments, vs);
    var plain := RenderSegments(p.segments);
    var base := plain + "/";
    forall ws, below | Values(p.segments, ws)
      ensures Path(p, ws, below) == plain + Rest(p.end, below)
    {
      FixedPattern(p, ws, below);
    }
    FixedPattern(p, vs, "");
    AdmitsIff(e, plain);
    AdmitsIff(e, base);
    match p.end {
      case Plain =>
        assert plain + "" == plain;
        assert Path(p, vs, "") == plain;
        assert Covers(Render(p), e.path, e.pathType) <==> Meets(e, plain) || Below(e, plain);
      case Subtree =>
        forall ws, below | Values(p.segments, ws) ensures Path(p, ws, below) == base + below {
          BaseAndBelow(plain, below);
        }
        SubtreeAdmitted(p, e, vs, base);
      case Dollar =>
        assert Path(p, vs, "") == base;
        assert Covers(Render(p), e.path, e.pathType) <==> Below(e, base);
    }
  }

  lemma BaseAndBelow(plain: string, below: string)
    ensures plain + ("/" + below) == plain + "/" + below
  {
  }

  lemma SubtreeAdmitted(p: Pattern, e: Entry, vs: seq<string>, base: string)
    requires Values(p.segments, vs) && (Covers(Render(p), e.path, e.pathType) <==> Meets(e, base) || Below(e, base))
    requires forall ws, below | Values(p.segments, ws) :: Path(p, ws, below) == base + below
    ensures AllAdmitted(p, e) <==> Covers(Render(p), e.path, e.pathType) && !Meets(e, base)
  {
    if AllAdmitted(p, e) {
      assert Admits(e, Path(p, vs, "a")) && Admits(e, Path(p, vs, "b"));
      TwoBelowAdmitted(e, base);
    }
    if Below(e, base) {
      SubtreeBase(e, base);
      forall ws, below | Values(p.segments, ws) ensures Admits(e, Path(p, ws, below)) {
        BelowAdmitted(e, base, below);
      }
    }
  }

  lemma TwoBelowAdmitted(e: Entry, base: string)
    requires Admits(e, base + "a") && Admits(e, base + "b")
    ensures Below(e, base) && !Meets(e, base)
  {
    assert base + "a" + "" == base + "a" && base + "b" + "" == base + "b";
    AdmitsIff(e, base + "a");
    AdmitsIff(e, base + "b");
    TwoPathsPart(e, base, "", "");
    SubtreeBase(e, base);
  }

  lemma BelowAdmitted(e: Entry, base: string, below: string)
    requires Below(e, base)
    ensures Admits(e, base + below)
  {
    PrefixOfAppend(base, below, Normalize(e.path) + "/");
    AdmitsIff(e, base + below);
  }

  lemma SubtreeBase(e: Entry, base: string)
    requires Below(e, base)
    ensures !Meets(e, base)
  {
  }

  /** The rule is exact: for every legal pattern and every entry, with the two shapes of pattern
      where it is not spelt out. */
  lemma CoversIff(p: Pattern, e: Entry)
    requires Legal(p)
    ensures AllAdmitted(p, e) <==>
            var covers, base := Covers(Render(p), e.path, e.pathType), RenderSegments(p.segments) + "/";
            if !NoWild(p.segments) || p.end.Plain? then covers
            else if p.end.Subtree? then covers && !Meets(e, base)
            else covers || Meets(e, base)
  {
    if NoWild(p.segments) { CoversFixed(p, e); } else { CoversWithWild(p, e); }
  }

  /** For one fixed path the test is reachability itself. */
  lemma CoversFixedPathIff(p: Pattern, e: Entry)
    requires Legal(p) && NoWild(p.segments) && p.end.Plain?
    ensures Covers(Render(p), e.path, e.pathType) <==> Admits(e, Render(p))
  {
    FixedPattern(p, Constant(p.segments, "a"), "");
    AdmitsIff(e, Render(p));
  }

  // ---- the report ------------------------------------------------------------

  datatype Route = Route(verb: string, pattern: string, audience: string)

  const PARTICIPANT := "participant"

  function MuxPattern(r: Route): string { r.verb + " " + r.pattern }

  predicate CoveredBySome(r: Route, es: seq<Entry>) {
    exists i :: 0 <= i < |es| && Covers(r.pattern, es[i].path, es[i].pathType)
  }

  function Uncovered(rs: seq<Route>, es: seq<Entry>): seq<string> {
    if rs == [] then []
    else
      (if rs[0].audience == PARTICIPANT && !CoveredBySome(rs[0], es) then [MuxPattern(rs[0])] else [])
      + Uncovered(rs[1..], es)
  }

  function ForeignLine(r: Route, e: Entry): seq<string> {
    if r.audience != PARTICIPANT && Covers(r.pattern, e.path, e.pathType)
    then [MuxPattern(r) + " (audience=" + r.audience + ", via ingress " + e.pathType + " " + e.path + ")"]
    else []
  }

  function ForeignThrough(rs: seq<Route>, e: Entry): seq<string> {
    if rs == [] then [] else ForeignLine(rs[0], e) + ForeignThrough(rs[1..], e)
  }

  function Foreign(rs: seq<Route>, es: seq<Entry>): seq<string> {
    if es == [] then [] else ForeignThrough(rs, es[0]) + Foreign(rs, es[1..])
  }

  predicate Matched(e: Entry, rs: seq<Route>) { exists i :: 0 <= i < |rs| && rs[i].pattern == e.path }

  function Dead(rs: seq<Route>, es: seq<Entry>): seq<string> {
    if es == [] then []
    else (if es[0].pathType == EXACT && !Matched(es[0], rs) then [es[0].path] else []) + Dead(rs, es[1..])
  }

  lemma {:induction false} UncoveredAppend(a: seq<Route>, b: seq<Route>, es: seq<Entry>)
    ensures Uncovered(a + b, es) == Uncovered(a, es) + Uncovered(b, es)
  {
    if a == [] { assert a + b == b; } else { assert (a + b)[1..] == a[1..] + b; UncoveredAppend(a[1..], b, es); }
  }

  lemma {:induction false} ThroughAppend(a: seq<Route>, b: seq<Route>, e: Entry)
    ensures ForeignThrough(a + b, e) == ForeignThrough(a, e) + ForeignThrough(b, e)
  {
    if a == [] { assert a + b == b; } else { assert (a + b)[1..] == a[1..] + b; ThroughAppend(a[1..], b, e); }
  }

  lemma {:induction false} ForeignAppend(rs: seq<Route>, a: seq<Entry>, b: seq<Entry>)
    ensures Foreign(rs, a + b) == Foreign(rs, a) + Foreign(rs, b)
  {
    if a == [] { assert a + b == b; } else { assert (a + b)[1..] == a[1..] + b; ForeignAppend(rs, a[1..], b); }
  }

  lemma {:induction false} DeadAppend(rs: seq<Route>, a: seq<Entry>, b: seq<Entry>)
    ensures Dead(rs, a + b) == Dead(rs, a) + Dead(rs, b)
  {
    if a == [] { assert a + b == b; } else { assert (a + b)[1..] == a[1..] + b; DeadAppend(rs, a[1..], b); }
  }

  /** The inner search of the first loop. */
  method IsCovered(r: Route, es: seq<Entry>) returns (covered: bool)
    ensures covered == CoveredBySome(r, es)
  {
    covered := false;
    var j := 0;
    while j < |es| && !covered
      invariant j <= |es| && covered == exists k :: 0 <= k < j && Covers(r.pattern, es[k].path, es[k].pathType)
    {
      covered := Covers(r.pattern, es[j].path, es[j].pathType);
      j := j + 1;
    }
  }

  /** The inner loop of the second. */
  method ForeignVia(rs: seq<Route>, e: Entry) returns (foreign: seq<string>)
    ensures foreign == ForeignThrough(rs, e)
  {
    foreign := [];
    for j := 0 to |rs|
      invariant foreign == ForeignThrough(rs[..j], e)
    {
      assert rs[..j + 1] == rs[..j] + [rs[j]];
      ThroughAppend(rs[..j], [rs[j]], e);
      assert ForeignThrough([rs[j]], e) == ForeignLine(rs[j], e);
      foreign := foreign + ForeignLine(rs[j], e);
    }
    assert rs[..|rs|] == rs;
  }

  method CoverageDiff(rs: seq<Route>, es: seq<Entry>) returns (uncovered: seq<string>, foreign: seq<string>)
    ensures uncovered == Strings.Sort(Strings.TextKey, Uncovered(rs, es))
    ensures foreign == Strings.Sort(Strings.TextKey, Foreign(rs, es))
  {
    uncovered, foreign := [], [];
    for i := 0 to |rs|
      invariant uncovered == Uncovered(rs[..i], es)
    {
      assert rs[..i + 1] == rs[..i] + [rs[i]];
      UncoveredAppend(rs[..i], [rs[i]], es);
      if rs[i].audience == PARTICIPANT {
        var covered := IsCovered(rs[i], es);
        if !covered {
          uncovered := uncovered + [MuxPattern(rs[i])];
        }
      }
    }
    assert rs[..|rs|] == rs;
    for i := 0 to |es|
      invariant foreign == Foreign(rs, es[..i])
    {
      assert es[..i + 1] == es[..i] + [es[i]];
      ForeignAppend(rs, es[..i], [es[i]]);
      assert Foreign(rs, [es[i]]) == ForeignThrough(rs, es[i]);
      var more := ForeignVia(rs, es[i]);
      foreign := foreign + more;
    }
    assert es[..|es|] == es;
    uncovered, foreign := Strings.Sort(Strings.TextKey, uncovered), Strings.Sort(Strings.TextKey, foreign);
  }

  method DeadExact(rs: seq<Route>, es: seq<Entry>) returns (dead: seq<string>)
    ensures dead == Strings.Sort(Strings.TextKey, Dead(rs, es))
  {
    dead := [];
    for i := 0 to |es|
      invariant dead == Dead(rs, es[..i])
    {
      assert es[..i + 1] == es[..i] + [es[i]];
      DeadAppend(rs, es[..i], [es[i]]);
      if es[i].pathType == EXACT {
        var found, j := false, 0;
        while j < |rs| && !found
          invariant j <= |rs| && found == exists k :: 0 <= k < j && rs[k].pattern == es[i].path
        {
          found := rs[j].pattern == es[i].path;
          j := j + 1;
        }
        if !found {
          dead := dead + [es[i].path];
        }
      }
    }
    assert es[..|es|] == es;
    dead := Strings.Sort(Strings.TextKey, dead);
  }

  // ---- what the report means -------------------------------------------------

  datatype Declared = Declared(verb: string, pattern: Pattern, audience: string)

  /** The routes of a table, rendered. */
  function Table(ds: seq<Declared>): (rs: seq<Route>)
    ensures |rs| == |ds| && forall i | 0 <= i < |ds| ::
            rs[i] == Route(ds[i].verb, Render(ds[i].pattern), ds[i].audience)
  {
    if ds == [] then [] else [Route(ds[0].verb, Render(ds[0].pattern), ds[0].audience)] + Table(ds[1..])
  }

  /** What covering stands for: every path is admitted. In two corners it is not spelt out: a fixed
      subtree is covered by an entry that is its root, and a fixed `/{$}` is not. */
  ghost predicate Means(p: Pattern, e: Entry) {
    var base := RenderSegments(p.segments) + "/";
    if !NoWild(p.segments) || p.end.Plain? then AllAdmitted(p, e)
    else if p.end.Subtree? then AllAdmitted(p, e) || Meets(e, base)
    else AllAdmitted(p, e) && !Meets(e, base)
  }

  lemma CoversMeans(p: Pattern, e: Entry)
    requires Legal(p)
    ensures Covers(Render(p), e.path, e.pathType) <==> Means(p, e)
  {
    CoversIff(p, e);
    if NoWild(p.segments) && !p.end.Plain? { CoversRoot(p, e); }
  }

  /** The root of a fixed subtree, or of `/{$}`, and the entry that is that path. */
  lemma CoversRoot(p: Pattern, e: Entry)
    requires Legal(p) && NoWild(p.segments) && !p.end.Plain?
    ensures var base := RenderSegments(p.segments) + "/";
            Covers(Render(p), e.path, e.pathType) <==> Below(e, base) || (p.end.Subtree? && Meets(e, base))
  {
    FixedPattern(p, Constant(p.segments, "a"), "");
    if Below(e, RenderSegments(p.segments) + "/") { SubtreeBase(e, RenderSegments(p.segments) + "/"); }
  }

  /** Both corners, on the path of one Exact entry: a subtree covered by the entry that is its root only,
      and an end that is wholly admitted and not covered. */
  lemma CornersOfCovering()
    ensures var (p, e) := (Pattern([Lit("static")], Subtree), Entry("/static/", EXACT));
            Legal(p) && Covers(Render(p), e.path, e.pathType) && !AllAdmitted(p, e)
    ensures var (p, e) := (Pattern([], Dollar), Entry("/", EXACT));
            Legal(p) && AllAdmitted(p, e) && !Covers(Render(p), e.path, e.pathType)
  {
    RootOfOne("static");
    assert "/" + "static" == "/static" && "/static" + "/" == "/static/";
    RootCorner(Pattern([Lit("static")], Subtree), Entry("/static/", EXACT));
    RootCorner(Pattern([], Dollar), Entry("/", EXACT));
  }

  lemma RootOfOne(text: string)
    ensures RenderSegments([Lit(text)]) == "/" + text
  {
    assert [Lit(text)][1..] == [];
  }

  lemma RootCorner(p: Pattern, e: Entry)
    requires Legal(p) && NoWild(p.segments) && !p.end.Plain?
    requires e.pathType == EXACT && e.path == RenderSegments(p.segments) + "/"
    ensures Covers(Render(p), e.path, e.pathType) <==> p.end.Subtree?
    ensures AllAdmitted(p, e) <==> p.end.Dollar?
  {
    assert EXACT != PREFIX by { assert |EXACT| == 5 && |PREFIX| == 6; }
    CoversIff(p, e);
    CoversRoot(p, e);
  }

  ghost predicate MeansSome(p: Pattern, es: seq<Entry>) { exists i :: 0 <= i < |es| && Means(p, es[i]) }

  lemma CoveredBySomeIff(r: Route, p: Pattern, es: seq<Entry>)
    requires Legal(p) && r.pattern == Render(p)
    ensures CoveredBySome(r, es) <==> MeansSome(p, es)
  {
    forall i | 0 <= i < |es| ensures Covers(r.pattern, es[i].path, es[i].pathType) <==> Means(p, es[i]) {
      CoversMeans(p, es[i]);
    }
  }

  /** Nothing is uncovered iff each participant route is wholly admitted by a single entry, the two
      corners as Means has them. */
  lemma {:induction false} UncoveredIff(ds: seq<Declared>, es: seq<Entry>)
    requires forall i | 0 <= i < |ds| :: Legal(ds[i].pattern)
    ensures Uncovered(Table(ds), es) == [] <==>
            forall i | 0 <= i < |ds| && ds[i].audience == PARTICIPANT :: MeansSome(ds[i].pattern, es)
  {
    if ds != [] {
      var rs := Table(ds);
      UncoveredIff(ds[1..], es);
      assert rs[1..] == Table(ds[1..]);
      CoveredBySomeIff(rs[0], ds[0].pattern, es);
      assert forall i | 0 < i < |ds| :: ds[i] == ds[1..][i - 1];
    }
  }

  lemma {:induction false} ThroughIff(rs: seq<Route>, e: Entry)
    ensures ForeignThrough(rs, e) == [] <==>
            forall i | 0 <= i < |rs| :: rs[i].audience != PARTICIPANT ==> !Covers(rs[i].pattern, e.path, e.pathType)
  {
    if rs != [] {
      ThroughIff(rs[1..], e);
      assert forall i | 0 < i < |rs| :: rs[i] == rs[1..][i - 1];
    }
  }

  /** Nothing is foreign iff no route of another audience is wholly admitted by any entry, the two
      corners as Means has them. */
  lemma {:induction false} ForeignIff(ds: seq<Declared>, es: seq<Entry>)
    requires forall i | 0 <= i < |ds| :: Legal(ds[i].pattern)
    ensures Foreign(Table(ds), es) == [] <==>
            forall i, j | 0 <= i < |ds| && 0 <= j < |es| && ds[i].audience != PARTICIPANT ::
                !Means(ds[i].pattern, es[j])
  {
    if es != [] {
      ForeignIff(ds, es[1..]);
      ThroughIff(Table(ds), es[0]);
      forall i | 0 <= i < |ds|
        ensures Covers(Table(ds)[i].pattern, es[0].path, es[0].pathType) <==> Means(ds[i].pattern, es[0])
      {
        CoversMeans(ds[i].pattern, es[0]);
      }
      assert forall j | 0 < j < |es| :: es[j] == es[1..][j - 1];
    }
  }

  /** An Exact entry that is reported dead exposes no route of any audience. */
  lemma {:induction false} DeadIsNotForeign(rs: seq<Route>, es: seq<Entry>, e: Entry)
    requires e.pathType == EXACT && e.path in Dead(rs, es)
    ensures ForeignThrough(rs, e) == [] && forall i | 0 <= i < |rs| :: !Covers(rs[i].pattern, e.path, e.pathType)
  {
    if es[0].pathType == EXACT && !Matched(es[0], rs) && es[0].path == e.path {
      ThroughIff(rs, e);
    } else {
      DeadIsNotForeign(rs, es[1..], e);
    }
  }
}
