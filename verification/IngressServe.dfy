/** What the mux serves through an ingress entry when all its routes are taken together: the most
    specific pattern takes a request, unclean paths are redirected, and so is a path that some pattern
    serves with a slash behind it. Which routes get through is decided by finitely many paths. */
module IngressServe {
  import opened Ingress
  import opened IngressReach
  import Strings

  // ---- the mux ---------------------------------------------------------------

  const GET := "GET"
  const HEAD := "HEAD"
  const CONNECT := "CONNECT"

  /** A route without a method takes every method; one for GET takes HEAD as well. */
  predicate Takes(own: string, verb: string) { own == "" || own == verb || (own == GET && verb == HEAD) }

  ghost predicate Serves(p: Pattern, path: string) {
    exists vs, below :: Values(p.segments, vs) && path == Path(p, vs, below)
  }

  /** The request is one of the route's, the other routes aside. */
  ghost predicate Asks(d: Declared, verb: string, path: string) { Takes(d.verb, verb) && Serves(d.pattern, path) }

  ghost predicate AsksWithin(a: Declared, b: Declared) {
    forall verb, path | Asks(a, verb, path) :: Asks(b, verb, path)
  }

  /** The more specific of two routes has a proper part of the other's requests. */
  ghost predicate Precedes(a: Declared, b: Declared) { AsksWithin(a, b) && !AsksWithin(b, a) }

  /** The elements below the root of a path that is its own cleaned form. */
  predicate CleanElements(xs: seq<string>) {
    xs != [] && forall k | 0 <= k < |xs| :: xs[k] != "." && xs[k] != ".." && (k < |xs| - 1 ==> xs[k] != "")
  }

  predicate Clean(path: string) { Elements(path)[0] == "" && CleanElements(Elements(path)[1..]) }

  /** The pattern serves the path with a slash behind it, and nothing below that. */
  ghost predicate IsRoot(p: Pattern, path: string) {
    !p.end.Plain? && p.segments != [] && Serves(Pattern(p.segments, Plain), path)
  }

  ghost predicate Redirected(ds: seq<Declared>, verb: string, path: string) {
    exists j :: 0 <= j < |ds| && Takes(ds[j].verb, verb) && IsRoot(ds[j].pattern, path)
  }

  predicate IsVerb(verb: string) { verb != "" && verb != CONNECT }

  /** Route i of the table gets the request: no more specific route does, and it is not redirected,
      which happens only where a subtree would take a path below its root. */
  ghost predicate Served(ds: seq<Declared>, i: nat, verb: string, path: string)
    requires i < |ds|
  {
    && IsVerb(verb) && Clean(path) && Asks(ds[i], verb, path)
    && (forall j | 0 <= j < |ds| && Asks(ds[j], verb, path) :: !Precedes(ds[j], ds[i]))
    && !(ds[i].pattern.end.Subtree? && Redirected(ds, verb, path))
  }

  ghost predicate ServedThrough(ds: seq<Declared>, i: nat, e: Entry)
    requires i < |ds|
  {
    exists verb, path :: Served(ds, i, verb, path) && Admits(e, path)
  }

  // ---- one route for a request -------------------------------------------------

  /** What the mux accepts at registration: of two routes that share a request one is more specific. */
  ghost predicate NoConflict(ds: seq<Declared>) {
    forall i, j | 0 <= i < |ds| && 0 <= j < |ds| && i != j ::
      Precedes(ds[i], ds[j]) || Precedes(ds[j], ds[i]) || Disjoint(ds[i], ds[j])
  }

  ghost predicate Disjoint(a: Declared, b: Declared) {
    forall verb, path | Asks(a, verb, path) :: !Asks(b, verb, path)
  }

  ghost function Rivals(ds: seq<Declared>, i: nat, verb: string, path: string): set<nat>
    requires i < |ds|
  {
    set k: nat | k < |ds| && Asks(ds[k], verb, path) && Precedes(ds[k], ds[i])
  }

  lemma {:induction false} SomeRouteWins(ds: seq<Declared>, i: nat, verb: string, path: string) returns (w: nat)
    requires i < |ds| && Asks(ds[i], verb, path)
    ensures w < |ds| && Asks(ds[w], verb, path) && Rivals(ds, w, verb, path) == {}
    decreases Rivals(ds, i, verb, path)
  {
    if Rivals(ds, i, verb, path) == {} { return i; }
    var k :| k in Rivals(ds, i, verb, path);
    assert forall m | m in Rivals(ds, k, verb, path) :: m in Rivals(ds, i, verb, path);
    assert k !in Rivals(ds, k, verb, path);
    w := SomeRouteWins(ds, k, verb, path);
  }

  /** Each clean request that some route asks for is served by exactly one, unless it is redirected. */
  lemma OneRouteServes(ds: seq<Declared>, i: nat, verb: string, path: string) returns (w: nat)
    requires NoConflict(ds) && i < |ds| && Asks(ds[i], verb, path)
    requires IsVerb(verb) && Clean(path) && !Redirected(ds, verb, path)
    ensures w < |ds| && forall j: nat | j < |ds| :: Served(ds, j, verb, path) <==> j == w
  {
    w := SomeRouteWins(ds, i, verb, path);
    forall j | 0 <= j < |ds| && Asks(ds[j], verb, path) ensures !Precedes(ds[j], ds[w]) {
      assert j !in Rivals(ds, w, verb, path);
    }
    assert Served(ds, w, verb, path);
  }

  // ---- a pattern's paths, element by element ----------------------------------

  lemma ServesIff(p: Pattern, path: string)
    requires Legal(p)
    ensures Serves(p, path) <==> Elements(path)[0] == "" && FitsAll(p.segments, p.end, Elements(path)[1..])
  {
    var e := Entry(path, EXACT);
    ReachableIff(p, e);
    assert Serves(p, path) <==> Reachable(p, e) by {
      if Serves(p, path) {
        var vs, below :| Values(p.segments, vs) && path == Path(p, vs, below);
        assert Admits(e, Path(p, vs, below));
      }
      if Reachable(p, e) {
        var vs, below :| Values(p.segments, vs) && Admits(e, Path(p, vs, below));
        assert path == Path(p, vs, below);
      }
    }
  }

  predicate FitsEach(ss: seq<Segment>, xs: seq<string>) {
    |ss| <= |xs| && forall k | 0 <= k < |ss| :: FitsSegment(ss[k], xs[k])
  }

  predicate EndsAt(end: End, n: nat, xs: seq<string>) {
    match end
    case Plain => |xs| == n
    case Subtree => |xs| > n
    case Dollar => |xs| == n + 1 && xs[n] == ""
  }

  lemma {:induction false} FitsAllIff(ss: seq<Segment>, end: End, xs: seq<string>)
    ensures FitsAll(ss, end, xs) <==> FitsEach(ss, xs) && EndsAt(end, |ss|, xs)
  {
    if ss != [] && xs != [] {
      FitsAllIff(ss[1..], end, xs[1..]);
      assert forall k | 0 < k < |ss| :: ss[k] == ss[1..][k - 1];
      assert forall k | 0 < k < |xs| :: xs[k] == xs[1..][k - 1];
      EachIff(ss, xs);
    }
  }

  lemma EachIff(ss: seq<Segment>, xs: seq<string>)
    requires ss != [] && xs != []
    ensures FitsEach(ss, xs) <==> FitsSegment(ss[0], xs[0]) && FitsEach(ss[1..], xs[1..])
  {
    if FitsEach(ss, xs) {
      forall k | 0 <= k < |ss| - 1 ensures FitsSegment(ss[1..][k], xs[1..][k]) {
        assert FitsSegment(ss[k + 1], xs[k + 1]);
      }
    }
    if FitsSegment(ss[0], xs[0]) && FitsEach(ss[1..], xs[1..]) {
      forall k | 0 < k < |ss| ensures FitsSegment(ss[k], xs[k]) {
        assert FitsSegment(ss[1..][k - 1], xs[1..][k - 1]);
      }
    }
  }

  /** The path of given elements. */
  lemma PathOfElements(xs: seq<string>)
    requires forall x | x in xs :: '/' !in x
    ensures Elements(Strings.Join([""] + xs, '/')) == [""] + xs && ([""] + xs)[1..] == xs
  {
    Strings.SplitOfJoin([""] + xs, '/');
  }

  // ---- a value that no route names --------------------------------------------

  function LongestText(ss: seq<Segment>): (n: nat)
    ensures forall s | s in ss && s.Lit? :: |s.text| <= n
  {
    if ss == [] then 0
    else
      var n := LongestText(ss[1..]);
      if ss[0].Lit? && |ss[0].text| > n then |ss[0].text| else n
  }

  predicate NewTo(z: string, d: Declared) {
    z != d.verb && forall s | s in d.pattern.segments && s.Lit? :: s.text != z
  }

  function Longest(ds: seq<Declared>): (n: nat)
    ensures forall d | d in ds :: |d.verb| <= n && forall s | s in d.pattern.segments && s.Lit? :: |s.text| <= n
  {
    if ds == [] then 0
    else
      var n, t := Longest(ds[1..]), LongestText(ds[0].pattern.segments);
      var v := |ds[0].verb|;
      if n >= t && n >= v then n else if t >= v then t else v
  }

  predicate Usable(z: string) { z != "" && z != "." && z != ".." && z != HEAD && z != CONNECT && '/' !in z }

  function New(ds: seq<Declared>): (z: string)
    ensures Usable(z) && forall d | d in ds :: NewTo(z, d)
  {
    var z := seq(Longest(ds) + 8, i => 'a');
    z
  }

  // ---- precedence, segment by segment -----------------------------------------

  predicate VerbWithin(a: string, b: string) { b == "" || a == b || (a == HEAD && b == GET) }

  predicate SegmentWithin(a: Segment, b: Segment) { b.Wild? || (a.Lit? && a.text == b.text) }

  predicate Within(ps: seq<Segment>, pe: End, qs: seq<Segment>, qe: End) {
    if qs == [] then
      match qe
      case Plain => ps == [] && pe.Plain?
      case Subtree => ps != [] || !pe.Plain?
      case Dollar => ps == [] && pe.Dollar?
    else ps != [] && SegmentWithin(ps[0], qs[0]) && Within(ps[1..], pe, qs[1..], qe)
  }

  predicate RouteWithin(a: Declared, b: Declared) {
    VerbWithin(a.verb, b.verb) && Within(a.pattern.segments, a.pattern.end, b.pattern.segments, b.pattern.end)
  }

  predicate Narrower(a: Declared, b: Declared) { RouteWithin(a, b) && !RouteWithin(b, a) }

  /** The elements of one path of a pattern: z for each wildcard, t below a subtree. */
  function Instance(ss: seq<Segment>, end: End, z: string, t: string): seq<string> {
    if ss == [] then match end case Plain => [] case Subtree => [t] case Dollar => [""]
    else [if ss[0].Lit? then ss[0].text else z] + Instance(ss[1..], end, z, t)
  }

  lemma {:induction false} InstanceFits(ss: seq<Segment>, end: End, z: string, t: string)
    requires z != ""
    ensures FitsAll(ss, end, Instance(ss, end, z, t))
  {
    if ss != [] { InstanceFits(ss[1..], end, z, t); }
  }

  lemma {:induction false} InstanceHasNoSlash(ss: seq<Segment>, end: End, z: string, t: string)
    requires '/' !in z && '/' !in t && forall s | s in ss && s.Lit? :: Bare(s.text)
    ensures forall x | x in Instance(ss, end, z, t) :: '/' !in x
  {
    if ss != [] {
      assert ss[0] in ss && forall s | s in ss[1..] :: s in ss;
      InstanceHasNoSlash(ss[1..], end, z, t);
    }
  }

  predicate Spelt(ss: seq<Segment>) { forall s | s in ss && s.Lit? :: s.text != "" }

  lemma {:induction false} WithinFits(ps: seq<Segment>, pe: End, qs: seq<Segment>, qe: End, xs: seq<string>)
    requires Within(ps, pe, qs, qe) && FitsAll(ps, pe, xs) && Spelt(ps)
    ensures FitsAll(qs, qe, xs)
  {
    if qs != [] {
      assert ps[0] in ps && forall s | s in ps[1..] :: s in ps;
      WithinFits(ps[1..], pe, qs[1..], qe, xs[1..]);
    }
  }

  /** Two paths tell: one with nothing and one with something below a subtree. */
  lemma {:induction false} InstancesTell(ps: seq<Segment>, pe: End, qs: seq<Segment>, qe: End, z: string)
    requires z != "" && Spelt(ps) && Spelt(qs) && forall s | s in qs && s.Lit? :: s.text != z
    requires FitsAll(qs, qe, Instance(ps, pe, z, "")) && FitsAll(qs, qe, Instance(ps, pe, z, z))
    ensures Within(ps, pe, qs, qe)
  {
    assert ps != [] ==> ps[0] in ps;
    if qs != [] {
      assert qs[0] in qs && forall s | s in qs[1..] :: s in qs;
      assert forall s | s in ps[1..] :: s in ps;
      assert Instance(ps, pe, z, "")[1..] == Instance(ps[1..], pe, z, "");
      assert Instance(ps, pe, z, z)[1..] == Instance(ps[1..], pe, z, z);
      InstancesTell(ps[1..], pe, qs[1..], qe, z);
    }
  }

  lemma PathsWithinIff(p: Pattern, q: Pattern, z: string)
    requires Legal(p) && Legal(q) && Usable(z) && forall s | s in q.segments && s.Lit? :: s.text != z
    ensures (forall path | Serves(p, path) :: Serves(q, path)) <==> Within(p.segments, p.end, q.segments, q.end)
  {
    if Within(p.segments, p.end, q.segments, q.end) {
      forall path | Serves(p, path) ensures Serves(q, path) {
        ServesIff(p, path);
        ServesIff(q, path);
        WithinFits(p.segments, p.end, q.segments, q.end, Elements(path)[1..]);
      }
    }
    if forall path | Serves(p, path) :: Serves(q, path) {
      InstanceIsServed(p, q, z, "");
      InstanceIsServed(p, q, z, z);
      InstancesTell(p.segments, p.end, q.segments, q.end, z);
    }
  }

  lemma InstanceIsServed(p: Pattern, q: Pattern, z: string, t: string)
    requires Legal(p) && Legal(q) && Usable(z) && '/' !in t
    ensures var path := Strings.Join([""] + Instance(p.segments, p.end, z, t), '/');
            Serves(p, path) && (Serves(q, path) ==> FitsAll(q.segments, q.end, Instance(p.segments, p.end, z, t)))
  {
    var xs := Instance(p.segments, p.end, z, t);
    var path := Strings.Join([""] + xs, '/');
    InstanceHasNoSlash(p.segments, p.end, z, t);
    InstanceFits(p.segments, p.end, z, t);
    PathOfElements(xs);
    ServesIff(p, path);
    ServesIff(q, path);
  }

  /** A route's requests are another's iff its method and its segments say so. */
  lemma AsksWithinIff(a: Declared, b: Declared)
    requires Legal(a.pattern) && Legal(b.pattern)
    ensures AsksWithin(a, b) <==> RouteWithin(a, b)
  {
    var z := New([a, b]);
    assert NewTo(z, a) && NewTo(z, b) by { assert a in [a, b] && b in [a, b]; }
    PathsWithinIff(a.pattern, b.pattern, z);
    var verb := if a.verb == "" then z else a.verb;
    InstanceIsServed(a.pattern, b.pattern, z, z);
    if AsksWithin(a, b) {
      var path := Strings.Join([""] + Instance(a.pattern.segments, a.pattern.end, z, z), '/');
      assert Asks(a, verb, path) && Asks(b, verb, path);
      forall path | Serves(a.pattern, path) ensures Serves(b.pattern, path) {
        assert Asks(a, verb, path) && Asks(b, verb, path);
      }
    }
  }

  lemma PrecedesIff(a: Declared, b: Declared)
    requires Legal(a.pattern) && Legal(b.pattern)
    ensures Precedes(a, b) <==> Narrower(a, b)
  {
    AsksWithinIff(a, b);
    AsksWithinIff(b, a);
  }

  // ---- who gets a request ------------------------------------------------------

  predicate HasRoot(p: Pattern, xs: seq<string>) { !p.end.Plain? && p.segments != [] && FitsAll(p.segments, Plain, xs) }

  predicate Fitting(d: Declared, verb: string, xs: seq<string>) {
    Takes(d.verb, verb) && FitsAll(d.pattern.segments, d.pattern.end, xs)
  }

  /** Served, on the elements of the path. */
  predicate Gets(ds: seq<Declared>, i: nat, verb: string, xs: seq<string>)
    requires i < |ds|
  {
    && IsVerb(verb) && CleanElements(xs) && Fitting(ds[i], verb, xs)
    && (forall j | 0 <= j < |ds| && Fitting(ds[j], verb, xs) :: !Narrower(ds[j], ds[i]))
    && !(ds[i].pattern.end.Subtree?
         && exists j :: 0 <= j < |ds| && Takes(ds[j].verb, verb) && HasRoot(ds[j].pattern, xs))
  }

  predicate AllLegal(ds: seq<Declared>) { forall j | 0 <= j < |ds| :: Legal(ds[j].pattern) }

  lemma ServedIff(ds: seq<Declared>, i: nat, verb: string, path: string)
    requires AllLegal(ds) && i < |ds|
    ensures Served(ds, i, verb, path) <==> Elements(path)[0] == "" && Gets(ds, i, verb, Elements(path)[1..])
  {
    var xs := Elements(path)[1..];
    if Clean(path) {
      forall j | 0 <= j < |ds|
        ensures Asks(ds[j], verb, path) <==> Fitting(ds[j], verb, xs)
        ensures Precedes(ds[j], ds[i]) <==> Narrower(ds[j], ds[i])
        ensures IsRoot(ds[j].pattern, path) <==> HasRoot(ds[j].pattern, xs)
      {
        ServesIff(ds[j].pattern, path);
        PrecedesIff(ds[j], ds[i]);
        RootIff(ds[j].pattern, path);
      }
    }
  }

  lemma RootIff(p: Pattern, path: string)
    requires Legal(p) && Elements(path)[0] == ""
    ensures IsRoot(p, path) <==> HasRoot(p, Elements(path)[1..])
  {
    if p.segments != [] { ServesIff(Pattern(p.segments, Plain), path); }
  }

  // ---- finitely many paths decide ----------------------------------------------

  /** g repeats xs, but for elements that no route names in place of some that are not empty. */
  predicate StandsFor(g: seq<string>, xs: seq<string>, z: string) {
    |g| <= |xs| && forall k | 0 <= k < |g| :: g[k] == xs[k] || (g[k] == z && xs[k] != "")
  }

  /** What fits the stand-in fits what it stands for. */
  lemma FitsBack(ss: seq<Segment>, end: End, g: seq<string>, xs: seq<string>, z: string)
    requires StandsFor(g, xs, z) && z != "" && forall s | s in ss && s.Lit? :: s.text != z
    requires FitsAll(ss, end, g) && (|g| == |xs| || |g| > |ss| + 1)
    ensures FitsAll(ss, end, xs)
  {
    FitsAllIff(ss, end, g);
    FitsAllIff(ss, end, xs);
    forall k | 0 <= k < |ss| ensures FitsSegment(ss[k], xs[k]) {
      assert FitsSegment(ss[k], g[k]) && ss[k] in ss;
    }
  }

  lemma CleanStandIn(g: seq<string>, xs: seq<string>, z: string)
    requires StandsFor(g, xs, z) && Usable(z) && CleanElements(xs) && g != []
    ensures CleanElements(g)
  {
  }

  /** The method that the fewest other routes take. */
  function BestVerb(own: string, z: string): string { if own == "" then z else own }

  lemma BestVerbIsTaken(own: string, z: string, verb: string, other: string)
    requires Usable(z) && IsVerb(verb) && Takes(own, verb)
    ensures own != CONNECT ==> IsVerb(BestVerb(own, z)) && Takes(own, BestVerb(own, z))
    ensures own != CONNECT && other != z && Takes(other, BestVerb(own, z)) ==> Takes(other, verb)
    ensures own != CONNECT
  {
  }

  /** Whoever gets a request gets its stand-in. */
  lemma GetsStandIn(ds: seq<Declared>, i: nat, verb: string, xs: seq<string>, g: seq<string>, z: string)
    requires i < |ds| && Gets(ds, i, verb, xs) && StandsFor(g, xs, z) && g != []
    requires Usable(z) && (forall d | d in ds :: NewTo(z, d)) && FitsAll(ds[i].pattern.segments, ds[i].pattern.end, g)
    requires |g| == |xs| || forall j | 0 <= j < |ds| :: |g| > |ds[j].pattern.segments| + 1
    ensures Gets(ds, i, BestVerb(ds[i].verb, z), g)
  {
    var best := BestVerb(ds[i].verb, z);
    CleanStandIn(g, xs, z);
    BestVerbIsTaken(ds[i].verb, z, verb, "");
    forall j | 0 <= j < |ds|
      ensures Fitting(ds[j], best, g) ==> Fitting(ds[j], verb, xs)
      ensures Takes(ds[j].verb, best) && HasRoot(ds[j].pattern, g)
              ==> Takes(ds[j].verb, verb) && HasRoot(ds[j].pattern, xs)
    {
      assert NewTo(z, ds[j]) by { assert ds[j] in ds; }
      BestVerbIsTaken(ds[i].verb, z, verb, ds[j].verb);
      var p := ds[j].pattern;
      if FitsAll(p.segments, p.end, g) { FitsBack(p.segments, p.end, g, xs, z); }
      if FitsAll(p.segments, Plain, g) { FitsBack(p.segments, Plain, g, xs, z); }
    }
  }

  /** n elements: those that the entry names, then the pattern's texts, then z, the last of them empty
      behind the segments if the path is to end in a slash. */
  function Candidate(ss: seq<Segment>, named: seq<string>, n: nat, slash: bool, z: string): (g: seq<string>)
    ensures |g| == n
  {
    seq(n, k requires 0 <= k < n =>
      if k < |named| then named[k]
      else if k < |ss| then (if ss[k].Lit? then ss[k].text else z)
      else if slash && k == n - 1 then ""
      else z)
  }

  /** Longer than every pattern and than what the entry names. */
  function Span(ds: seq<Declared>, m: nat): (n: nat)
    ensures n > m && forall d | d in ds :: n > |d.pattern.segments| + 1
  {
    if ds == [] then m + 1
    else
      var n := Span(ds[1..], m);
      if |ds[0].pattern.segments| + 2 > n then |ds[0].pattern.segments| + 2 else n
  }

  lemma CandidateStandsFor(p: Pattern, xs: seq<string>, m: nat, n: nat, slash: bool, z: string)
    requires FitsAll(p.segments, p.end, xs) && CleanElements(xs) && m <= n <= |xs| && z != ""
    requires n > |p.segments| + 1 || n == |xs|
    requires slash <==> n == |xs| && xs[|xs| - 1] == ""
    ensures var g := Candidate(p.segments, xs[..m], n, slash, z);
            StandsFor(g, xs, z) && FitsAll(p.segments, p.end, g)
  {
    var ss, g := p.segments, Candidate(p.segments, xs[..m], n, slash, z);
    FitsAllIff(ss, p.end, xs);
    FitsAllIff(ss, p.end, g);
    forall k | 0 <= k < n
      ensures g[k] == xs[k] || (g[k] == z && xs[k] != "")
      ensures k < |ss| ==> FitsSegment(ss[k], g[k])
    {
      CandidateAt(ss, xs, m, n, slash, z, k);
    }
  }

  lemma CandidateAt(ss: seq<Segment>, xs: seq<string>, m: nat, n: nat, slash: bool, z: string, k: nat)
    requires FitsEach(ss, xs) && CleanElements(xs) && m <= n <= |xs| && z != "" && k < n
    requires slash <==> n == |xs| && xs[|xs| - 1] == ""
    ensures var g := Candidate(ss, xs[..m], n, slash, z);
            && (g[k] == xs[k] || (g[k] == z && xs[k] != ""))
            && (k < |ss| ==> FitsSegment(ss[k], g[k]))
  {
    assert k < |ss| ==> FitsSegment(ss[k], xs[k]);
  }

  lemma CandidateHasNoSlash(ss: seq<Segment>, named: seq<string>, n: nat, slash: bool, z: string)
    requires '/' !in z && (forall x | x in named :: '/' !in x) && forall s | s in ss && s.Lit? :: Bare(s.text)
    ensures forall x | x in Candidate(ss, named, n, slash, z) :: '/' !in x
  {
    var g := Candidate(ss, named, n, slash, z);
    forall x | x in g ensures '/' !in x {
      var k :| 0 <= k < |g| && g[k] == x;
      assert k < |named| ==> named[k] in named;
      assert k < |ss| ==> ss[k] in ss;
    }
  }

  /** Route i gets one of the entry's paths: the one path of an Exact entry, or one of finitely many. */
  predicate Reaches(ds: seq<Declared>, i: nat, e: Entry)
    requires i < |ds|
  {
    var z, named := New(ds), Named(e);
    var verb := BestVerb(ds[i].verb, z);
    Rooted(e) &&
    if e.pathType == EXACT then Gets(ds, i, verb, named)
    else exists n: nat, slash: bool :: |named| <= n <= Span(ds, |named|)
                                       && Gets(ds, i, verb, Candidate(ds[i].pattern.segments, named, n, slash, z))
  }

  lemma ServedReaches(ds: seq<Declared>, i: nat, e: Entry, verb: string, path: string)
    requires AllLegal(ds) && i < |ds| && Served(ds, i, verb, path) && Admits(e, path)
    ensures Reaches(ds, i, e)
  {
    var xs, z, named := Elements(path)[1..], New(ds), Named(e);
    ServedIff(ds, i, verb, path);
    assert [""] + xs == Elements(path);
    if e.pathType == EXACT {
      GetsStandIn(ds, i, verb, xs, xs, z);
    } else {
      assert Elements(Normalize(e.path)) == ([""] + xs)[..|named| + 1];
      assert xs[..|named|] == named;
      var span := Span(ds, |named|);
      var n := if |xs| <= span then |xs| else span;
      var slash := n == |xs| && xs[|xs| - 1] == "";
      assert ds[i] in ds && forall j | 0 <= j < |ds| :: ds[j] in ds;
      CandidateStandsFor(ds[i].pattern, xs, |named|, n, slash, z);
      GetsStandIn(ds, i, verb, xs, Candidate(ds[i].pattern.segments, named, n, slash, z), z);
    }
  }

  lemma ReachesServed(ds: seq<Declared>, i: nat, e: Entry)
    requires AllLegal(ds) && i < |ds| && Reaches(ds, i, e)
    ensures ServedThrough(ds, i, e)
  {
    var z, named := New(ds), Named(e);
    var verb := BestVerb(ds[i].verb, z);
    if e.pathType == EXACT {
      ServedIff(ds, i, verb, e.path);
      assert Served(ds, i, verb, e.path) && Admits(e, e.path);
    } else {
      var n: nat, slash: bool :| |named| <= n <= Span(ds, |named|)
                                 && Gets(ds, i, verb, Candidate(ds[i].pattern.segments, named, n, slash, z));
      var g := Candidate(ds[i].pattern.segments, named, n, slash, z);
      var path := Strings.Join([""] + g, '/');
      Strings.SplitHasNoSeparator(Normalize(e.path), '/');
      assert Elements(Normalize(e.path)) == [""] + named && forall x | x in named :: x in Elements(Normalize(e.path));
      CandidateHasNoSlash(ds[i].pattern.segments, named, n, slash, z);
      PathOfElements(g);
      ServedIff(ds, i, verb, path);
      assert ([""] + g)[..|named| + 1] == [""] + named;
      assert Served(ds, i, verb, path) && Admits(e, path);
    }
  }

  /** The mux serves a route through an entry, on some path, iff one of the candidates gets it. */
  lemma ServedThroughIff(ds: seq<Declared>, i: nat, e: Entry)
    requires AllLegal(ds) && i < |ds|
    ensures ServedThrough(ds, i, e) <==> Reaches(ds, i, e)
  {
    if ServedThrough(ds, i, e) {
      var verb, path :| Served(ds, i, verb, path) && Admits(e, path);
      ServedReaches(ds, i, e, verb, path);
    }
    if Reaches(ds, i, e) { ReachesServed(ds, i, e); }
  }

  // ---- the report ---------------------------------------------------------------

  lemma ServedIsReachable(ds: seq<Declared>, i: nat, e: Entry)
    requires i < |ds| && ServedThrough(ds, i, e)
    ensures Reachable(ds[i].pattern, e)
  {
    var verb, path :| Served(ds, i, verb, path) && Admits(e, path);
    var vs, below :| Values(ds[i].pattern.segments, vs) && path == Path(ds[i].pattern, vs, below);
    assert Admits(e, Path(ds[i].pattern, vs, below));
  }

  /** For every table, the coverage test misses a route that the mux serves through the entry iff the
      route gets a candidate and the entry goes deeper than the route's fixed part; and it names one
      that is not served iff the entry fits no deeper and no candidate gets through. */
  lemma CoversTellsServedIff(ds: seq<Declared>, i: nat, e: Entry)
    requires AllLegal(ds) && i < |ds|
    ensures var p := ds[i].pattern; var covers := Covers(Render(p), e.path, e.pathType);
            && (ServedThrough(ds, i, e) && !covers <==> Reaches(ds, i, e) && !Shallow(p, e))
            && (covers && !ServedThrough(ds, i, e) <==> Fits(p, e) && Shallow(p, e) && !Reaches(ds, i, e))
  {
    var p := ds[i].pattern;
    ServedThroughIff(ds, i, e);
    CoversFitsIff(p, e);
    ReachableIff(p, e);
    if ServedThrough(ds, i, e) { ServedIsReachable(ds, i, e); }
  }

  ghost predicate ForeignServed(ds: seq<Declared>, es: seq<Entry>) {
    exists i, j :: 0 <= i < |ds| && 0 <= j < |es| && ds[i].audience != PARTICIPANT && ServedThrough(ds, i, es[j])
  }

  /** A route of another audience gets a candidate through an entry deeper than its fixed part. */
  predicate DeepReach(ds: seq<Declared>, es: seq<Entry>) {
    exists i, j :: 0 <= i < |ds| && 0 <= j < |es| && ds[i].audience != PARTICIPANT
                   && Reaches(ds, i, es[j]) && !Shallow(ds[i].pattern, es[j])
  }

  /** An empty report means that the mux serves no route of another audience through any entry, iff
      none gets a candidate deeper than its fixed part. */
  lemma EmptyReportIsServedIff(ds: seq<Declared>, es: seq<Entry>)
    requires AllLegal(ds) && Foreign(Table(ds), es) == []
    ensures !ForeignServed(ds, es) <==> !DeepReach(ds, es)
  {
    ForeignIff(ds, es);
    forall i, j | 0 <= i < |ds| && 0 <= j < |es| && ds[i].audience != PARTICIPANT
      ensures ServedThrough(ds, i, es[j]) <==> Reaches(ds, i, es[j]) && !Shallow(ds[i].pattern, es[j])
    {
      CoversMeans(ds[i].pattern, es[j]);
      CoversTellsServedIff(ds, i, es[j]);
    }
  }

  /** In particular where no entry fits such a route deeper than its fixed part. */
  lemma NoDeepFitNoForeign(ds: seq<Declared>, es: seq<Entry>)
    requires AllLegal(ds) && Foreign(Table(ds), es) == [] && !DeepFit(ds, es)
    ensures !ForeignServed(ds, es)
  {
    if ForeignServed(ds, es) {
      var i, j :| 0 <= i < |ds| && 0 <= j < |es| && ds[i].audience != PARTICIPANT && ServedThrough(ds, i, es[j]);
      ServedIsReachable(ds, i, es[j]);
      ForeignReachableIff(ds, es);
    }
  }

  // ---- two tables ---------------------------------------------------------------

  const OPERATOR := "operator"
  const ROOT := Declared(GET, Pattern([], Subtree), OPERATOR)

  lemma OperatorIsForeign()
    ensures OPERATOR != PARTICIPANT && EXACT != PREFIX && IsVerb(GET) && GET != ""
  {
    assert |OPERATOR| == 8 && |PARTICIPANT| == 11 && |EXACT| == 5 && |PREFIX| == 6 && |GET| == 3 && |CONNECT| == 7;
  }

  /** The operator's root beside one other route, seen through one entry that does not name the root. */
  lemma RootIsNotReported(d: Declared, e: Entry)
    requires Legal(d.pattern) && d.audience == PARTICIPANT && Named(e) != [] && Named(e)[0] != ""
    ensures AllLegal([d, ROOT]) && Foreign(Table([d, ROOT]), [e]) == []
  {
    OperatorIsForeign();
    CoversFitsIff(ROOT.pattern, e);
    CoversMeans(ROOT.pattern, e);
    ForeignIff([d, ROOT], [e]);
  }

  lemma RootIsFitDeep(d: Declared, e: Entry)
    requires e.pathType == EXACT && Rooted(e) && Named(e) != [] && Named(e)[0] != ""
    ensures DeepFit([d, ROOT], [e])
  {
    var ds, es := [d, ROOT], [e];
    OperatorIsForeign();
    assert ds[1].audience != PARTICIPANT && Fits(ds[1].pattern, es[0]) && !Shallow(ds[1].pattern, es[0]);
  }

  /** A more specific route that fits the one path of an Exact entry shields the root from it. */
  lemma RootIsShielded(d: Declared, e: Entry)
    requires AllLegal([d, ROOT]) && d.audience == PARTICIPANT && d.verb == GET && e.pathType == EXACT
    requires Fitting(d, GET, Named(e)) && Narrower(d, ROOT)
    ensures !ForeignServed([d, ROOT], [e])
  {
    var ds := [d, ROOT];
    OperatorIsForeign();
    assert Fitting(ds[0], GET, Named(e)) && Narrower(ds[0], ds[1]);
    ServedThroughIff(ds, 1, e);
  }

  /** A path that the root gets and the entry admits is served, whatever stands beside the root. */
  lemma RootIsServed(d: Declared, e: Entry, path: string)
    requires AllLegal([d, ROOT]) && Elements(path)[0] == "" && Gets([d, ROOT], 1, GET, Elements(path)[1..])
             && Admits(e, path)
    ensures Served([d, ROOT], 1, GET, path) && ForeignServed([d, ROOT], [e])
  {
    var ds, es := [d, ROOT], [e];
    OperatorIsForeign();
    ServedIff(ds, 1, GET, path);
    assert ds[1].audience != PARTICIPANT && ServedThrough(ds, 1, es[0]);
  }

  const PORTAL := Declared(GET, Pattern([Lit("portal")], Plain), PARTICIPANT)
  const ASSET := Declared(GET, Pattern([Lit("static"), Wild("asset")], Plain), PARTICIPANT)

  /** `GET /` fits the entry for `/portal`, and taken by itself it would be reached; but the mux gives
      that path to `GET /portal`. */
  lemma PortalShieldsTheRoot()
    ensures var ds, es := [PORTAL, ROOT], [Entry("/portal", EXACT)];
            AllLegal(ds) && Foreign(Table(ds), es) == [] && DeepFit(ds, es) && !ForeignServed(ds, es)
  {
    var e := Entry("/portal", EXACT);
    PortalElements();
    PortalIsNarrower();
    RootIsNotReported(PORTAL, e);
    RootIsFitDeep(PORTAL, e);
    RootIsShielded(PORTAL, e);
  }

  lemma PortalElements()
    ensures var e := Entry("/portal", EXACT); Named(e) == ["portal"] && Rooted(e)
  {
    ElementsBehind("portal", "");
    assert "/" + "portal" + "" == "/portal";
  }

  lemma PortalIsNarrower()
    ensures Legal(PORTAL.pattern) && Fitting(PORTAL, GET, ["portal"]) && Narrower(PORTAL, ROOT)
  {
    assert PORTAL.pattern.segments[1..] == [] && ["portal"][1..] == [];
  }

  /** Behind the entry for `/static/`, `GET /` is served on a path beside the assets' own, unreported. */
  lemma RootIsServedBesideAssets()
    ensures var ds, es := [ASSET, ROOT], [Entry("/static/", PREFIX)];
            AllLegal(ds) && Foreign(Table(ds), es) == [] && Served(ds, 1, GET, "/static") && ForeignServed(ds, es)
  {
    StaticEntry();
    BesideAssets(Entry("/static/", PREFIX), "/static");
  }

  lemma BesideAssets(e: Entry, path: string)
    requires e.pathType == PREFIX && Elements(Normalize(e.path)) == ["", "static"]
    requires Elements(path) == [""] + ["static"]
    ensures var ds := [ASSET, ROOT];
            AllLegal(ds) && Foreign(Table(ds), [e]) == [] && Served(ds, 1, GET, path) && ForeignServed(ds, [e])
  {
    OperatorIsForeign();
    AssetIsLegal();
    RootGetsOne(["static"]);
    RootIsNotReported(ASSET, e);
    assert Elements(path)[..2] == ["", "static"];
    RootIsServed(ASSET, e, path);
  }

  lemma AssetIsLegal()
    ensures Legal(ASSET.pattern)
  {
  }

  lemma StaticEntry()
    ensures Normalize("/static/") == "/static" && Elements("/static") == ["", "static"]
  {
    ElementsBehind("static", "");
    assert "/" + "static" + "" == "/static" && Normalize("/static/") == "/static";
  }

  lemma RootGetsOne(xs: seq<string>)
    requires |xs| == 1 && CleanElements(xs)
    ensures Gets([ASSET, ROOT], 1, GET, xs)
  {
    FitsAllIff(ASSET.pattern.segments, Plain, xs);
    OperatorIsForeign();
  }
}
