/** What an ingress entry admits, as texts, and the three reports of the check, line by line: which route
    or entry each line is about, in which order, and what it says. */
module IngressReport {
  import opened Ingress

  // ---- what an entry admits ----------------------------------------------------

  predicate EndsInSlash(s: string) { s != "" && s[|s| - 1] == '/' }

  /** The path of a Prefix entry without one trailing slash. */
  predicate IsNamed(path: string, n: string) { path == n + "/" || (path == n && !EndsInSlash(n)) }

  lemma NormalizeIs(path: string, n: string)
    requires IsNamed(path, n)
    ensures Normalize(path) == n
  {
    if path == n + "/" { assert path[..|path| - 1] == n; }
  }

  /** An Exact entry admits its own path; a Prefix entry that path and what stands behind it and a slash,
      whether or not the entry ends in one; any other kind admits nothing. */
  lemma AdmitsIff(e: Entry, n: string, request: string)
    requires IsNamed(e.path, n)
    ensures e.pathType == "Exact" ==> (Admits(e, request) <==> request == e.path)
    ensures e.pathType == "Prefix" ==>
              (Admits(e, request) <==> request == n || exists rest :: request == n + "/" + rest)
    ensures e.pathType != "Exact" && e.pathType != "Prefix" ==> !Admits(e, request)
  {
    NormalizeIs(e.path, n);
    ElementWiseIff(n, request);
    if HasPrefix(request, n + "/") { assert request == n + "/" + request[|n| + 1..]; }
  }

  // ---- the reports -------------------------------------------------------------

  ghost predicate Increasing(at: seq<nat>) { forall i, j | 0 <= i < j < |at| :: at[i] < at[j] }

  ghost predicate CoveredByNone(r: Route, es: seq<Entry>) {
    forall j | 0 <= j < |es| :: !Covers(r.pattern, es[j].path, es[j].pathType)
  }

  /** The uncovered lines, before they are sorted: the participant routes that no entry covers, in the
      table's order, each as its method and pattern. */
  lemma {:induction false} UncoveredAre(rs: seq<Route>, es: seq<Entry>) returns (at: seq<nat>)
    ensures Increasing(at)
    ensures forall i: nat :: i in at <==> i < |rs| && rs[i].audience == "participant" && CoveredByNone(rs[i], es)
    ensures |Uncovered(rs, es)| == |at|
    ensures forall k | 0 <= k < |at| ::
              at[k] < |rs| && Uncovered(rs, es)[k] == rs[at[k]].verb + " " + rs[at[k]].pattern
  {
    at := [];
    if rs != [] {
      var n := |rs| - 1;
      at := UncoveredAre(rs[..n], es);
      assert rs == rs[..n] + [rs[n]] && forall i: nat | i < n :: rs[..n][i] == rs[i];
      UncoveredAppend(rs[..n], [rs[n]], es);
      assert [rs[n]][1..] == [] && CoveredBySome(rs[n], es) == !CoveredByNone(rs[n], es);
      assert forall k | 0 <= k < |at| :: at[k] in at;
      if rs[n].audience == PARTICIPANT && !CoveredBySome(rs[n], es) { at := at + [n]; }
    }
  }

  ghost predicate AreLines(rs: seq<Route>, n: nat, e: Entry, at: seq<nat>, lines: seq<string>)
    requires n <= |rs|
  {
    && Increasing(at) && (forall i: nat :: i in at <==> i < n && IsForeign(rs[i], e))
    && |lines| == |at| && forall k | 0 <= k < |at| :: at[k] < n && lines[k] == Says(rs[at[k]], e)
  }

  lemma OneMoreRoute(rs: seq<Route>, n: nat, e: Entry, at: seq<nat>, lines: seq<string>)
    requires n < |rs| && AreLines(rs, n, e, at, lines)
    ensures IsForeign(rs[n], e) ==> AreLines(rs, n + 1, e, at + [n], lines + [Says(rs[n], e)])
    ensures !IsForeign(rs[n], e) ==> AreLines(rs, n + 1, e, at, lines)
  {
  }

  lemma {:induction false} FirstLinesAre(rs: seq<Route>, n: nat, e: Entry) returns (at: seq<nat>)
    requires n <= |rs|
    ensures AreLines(rs, n, e, at, ForeignThrough(rs[..n], e))
  {
    at := [];
    if n > 0 {
      at := FirstLinesAre(rs, n - 1, e);
      var before := ForeignThrough(rs[..n - 1], e);
      OneMoreRoute(rs, n - 1, e, at, before);
      assert rs[..n] == rs[..n - 1] + [rs[n - 1]];
      ThroughAppend(rs[..n - 1], [rs[n - 1]], e);
      assert [rs[n - 1]][1..] == [] && ForeignThrough([rs[n - 1]], e) == ForeignLine(rs[n - 1], e);
      LineSays(rs[n - 1], e);
      if IsForeign(rs[n - 1], e) { at := at + [n - 1]; } else { assert before + [] == before; }
    }
  }

  /** The foreign lines of one entry: the covered routes of other audiences, in the table's order. */
  lemma ForeignThroughAre(rs: seq<Route>, e: Entry) returns (at: seq<nat>)
    ensures AreLines(rs, |rs|, e, at, ForeignThrough(rs, e))
  {
    at := FirstLinesAre(rs, |rs|, e);
    assert rs[..|rs|] == rs;
  }

  function Says(r: Route, e: Entry): string {
    r.verb + " " + r.pattern + " (audience=" + r.audience + ", via ingress " + e.pathType + " " + e.path + ")"
  }

  predicate IsForeign(r: Route, e: Entry) { r.audience != "participant" && Covers(r.pattern, e.path, e.pathType) }

  lemma LineSays(r: Route, e: Entry)
    ensures ForeignLine(r, e) == if IsForeign(r, e) then [Says(r, e)] else []
  {
  }

  /** The foreign lines, before they are sorted: those of each entry in turn. */
  lemma {:induction false} ForeignIs(rs: seq<Route>, es: seq<Entry>)
    ensures es == [] ==> Foreign(rs, es) == []
    ensures es != [] ==> Foreign(rs, es) == ForeignThrough(rs, es[0]) + Foreign(rs, es[1..])
    ensures forall line :: line in Foreign(rs, es) <==>
              exists i, j :: 0 <= i < |rs| && 0 <= j < |es| && IsForeign(rs[i], es[j]) && line == Says(rs[i], es[j])
  {
    if es != [] {
      ForeignIs(rs, es[1..]);
      InThrough(rs, es[0]);
      assert forall j | 0 < j < |es| :: es[j] == es[1..][j - 1];
    }
  }

  lemma InThrough(rs: seq<Route>, e: Entry)
    ensures forall line :: line in ForeignThrough(rs, e) <==>
              exists i :: 0 <= i < |rs| && IsForeign(rs[i], e) && line == Says(rs[i], e)
  {
    var at := ForeignThroughAre(rs, e);
    var lines := ForeignThrough(rs, e);
    forall i: nat | i < |rs| && IsForeign(rs[i], e) ensures Says(rs[i], e) in lines {
      var k :| 0 <= k < |at| && at[k] == i;
      assert lines[k] == Says(rs[i], e);
    }
    forall line | line in lines ensures exists i :: 0 <= i < |rs| && IsForeign(rs[i], e) && line == Says(rs[i], e) {
      var k :| 0 <= k < |lines| && lines[k] == line;
      assert at[k] in at;
    }
  }

  ghost predicate IsDead(rs: seq<Route>, e: Entry) {
    e.pathType == "Exact" && forall i | 0 <= i < |rs| :: rs[i].pattern != e.path
  }

  lemma OneEntry(rs: seq<Route>, e: Entry)
    ensures Dead(rs, [e]) == if IsDead(rs, e) then [e.path] else []
  {
    assert [e][1..] == [];
  }

  ghost predicate DeadFirst(rs: seq<Route>, es: seq<Entry>, n: nat, at: seq<nat>, lines: seq<string>)
    requires n <= |es|
  {
    && Increasing(at) && (forall j: nat :: j in at <==> j < n && IsDead(rs, es[j]))
    && |lines| == |at| && forall k | 0 <= k < |at| :: at[k] < n && lines[k] == es[at[k]].path
  }

  lemma OneMoreDead(rs: seq<Route>, es: seq<Entry>, n: nat, at: seq<nat>, lines: seq<string>)
    requires n < |es| && DeadFirst(rs, es, n, at, lines)
    ensures IsDead(rs, es[n]) ==> DeadFirst(rs, es, n + 1, at + [n], lines + [es[n].path])
    ensures !IsDead(rs, es[n]) ==> DeadFirst(rs, es, n + 1, at, lines)
  {
  }

  lemma NextDead(rs: seq<Route>, es: seq<Entry>, n: nat, at: seq<nat>) returns (more: seq<nat>)
    requires n < |es| && DeadFirst(rs, es, n, at, Dead(rs, es[..n]))
    ensures DeadFirst(rs, es, n + 1, more, Dead(rs, es[..n + 1]))
  {
    var before := Dead(rs, es[..n]);
    assert es[..n + 1] == es[..n] + [es[n]];
    DeadAppend(rs, es[..n], [es[n]]);
    OneEntry(rs, es[n]);
    OneMoreDead(rs, es, n, at, before);
    assert before + [] == before;
    more := at;
    if IsDead(rs, es[n]) { more := at + [n]; }
  }

  lemma {:induction false} FirstDead(rs: seq<Route>, es: seq<Entry>, n: nat) returns (at: seq<nat>)
    requires n <= |es|
    ensures DeadFirst(rs, es, n, at, Dead(rs, es[..n]))
  {
    if n == 0 {
      at := [];
      assert es[..0] == [] && Dead(rs, es[..0]) == [];
    } else {
      at := FirstDead(rs, es, n - 1);
      at := NextDead(rs, es, n - 1, at);
    }
  }

  /** The dead lines, before they are sorted: the paths of the Exact entries that are no route's pattern. */
  lemma DeadAre(rs: seq<Route>, es: seq<Entry>) returns (at: seq<nat>)
    ensures DeadFirst(rs, es, |es|, at, Dead(rs, es))
  {
    at := FirstDead(rs, es, |es|);
    assert es[..|es|] == es;
  }
}
