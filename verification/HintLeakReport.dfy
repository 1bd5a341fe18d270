/** What the hint leak report says of the items themselves: which characters count, and for each reported
    run of ten characters the target, the hints that sell it, and that no free item holds it. */
module HintLeakReport {
  import opened Utf8
  import opened HintLeak
  import Strings

  ghost predicate Increasing(at: seq<nat>) { forall i, j | 0 <= i < j < |at| :: at[i] < at[j] }

  /** The text is what stands at these positions of the other. */
  ghost predicate Picks(t: string, at: seq<nat>, r: string) {
    |r| == |at| && forall k | 0 <= k < |at| :: at[k] < |t| && r[k] == t[at[k]]
  }

  /** Stripping keeps every character that is no white space, in order, and nothing else. */
  lemma {:induction false} StripKeeps(t: string, space: char -> bool) returns (at: seq<nat>)
    ensures Increasing(at) && Picks(t, at, Strip(t, space))
    ensures forall i: nat :: i in at <==> i < |t| && !space(t[i])
  {
    at := [];
    if t != "" {
      var n := |t| - 1;
      at := StripKeeps(t[..n], space);
      assert t == t[..n] + [t[n]] && forall i: nat | i < n :: t[..n][i] == t[i];
      StripAppend(t[..n], [t[n]], space);
      assert [t[n]][1..] == "" && Strip([t[n]], space) == if space(t[n]) then "" else [t[n]];
      assert forall k | 0 <= k < |at| :: at[k] in at;
      if !space(t[n]) { at := at + [n]; }
    }
  }

  lemma {:induction false} CharactersAre(rs: seq<int>)
    requires Scalars(rs)
    ensures forall i | 0 <= i < |rs| :: Characters(rs)[i] as int == rs[i]
  {
    if rs != [] { CharactersAre(rs[1..]); }
  }

  /** An item is read as its code points without those that are white space, in order. */
  lemma BodyIs(it: Item, space: char -> bool) returns (at: seq<nat>)
    requires Valid(it.text)
    ensures var rs := Runes(it.text);
            && Increasing(at) && |Body(it, space)| == |at|
            && (forall k | 0 <= k < |at| :: at[k] < |rs| && Body(it, space)[k] as int == rs[at[k]])
            && forall i: nat | i < |rs| :: (0 <= rs[i] < 0xD800 || 0xE000 <= rs[i] <= 0x10FFFF)
                                           && (i in at <==> !space(rs[i] as char))
  {
    ValidIsScalars(it.text);
    CharactersAre(Runes(it.text));
    at := StripKeeps(Characters(Runes(it.text)), space);
  }

  /** The labels are those of the hints that hold the run, in item order, before they are sorted. */
  ghost predicate Sells(g: string, sources: seq<string>, hints: seq<string>, at: seq<nat>, labels: seq<string>)
    requires |sources| == |hints|
  {
    && Increasing(at) && (forall i: nat :: i in at <==> i < |hints| && Within(g, hints[i]))
    && |labels| == |at| && forall k | 0 <= k < |at| :: at[k] < |sources| && labels[k] == sources[at[k]]
  }

  lemma {:induction false} CarriersAppend(g: string, sources: seq<string>, bodies: seq<string>, s: string, b: string)
    requires |sources| == |bodies|
    ensures Carriers(g, sources + [s], bodies + [b]) == Carriers(g, sources, bodies) + if g in Grams(b) then [s] else []
  {
    if bodies == [] {
      assert sources + [s] == [s] && bodies + [b] == [b] && [s][1..] == [] && [b][1..] == [];
    } else {
      assert (sources + [s])[1..] == sources[1..] + [s] && (bodies + [b])[1..] == bodies[1..] + [b];
      CarriersAppend(g, sources[1..], bodies[1..], s, b);
    }
  }

  lemma {:induction false} CarriersSell(g: string, sources: seq<string>, hints: seq<string>) returns (at: seq<nat>)
    requires |sources| == |hints| && |g| == 10
    ensures Sells(g, sources, hints, at, Carriers(g, sources, hints))
  {
    at := [];
    if hints != [] {
      var n := |hints| - 1;
      at := CarriersSell(g, sources[..n], hints[..n]);
      assert sources == sources[..n] + [sources[n]] && hints == hints[..n] + [hints[n]];
      assert forall i: nat | i < n :: hints[..n][i] == hints[i] && sources[..n][i] == sources[i];
      CarriersAppend(g, sources[..n], hints[..n], sources[n], hints[n]);
      GramIff(g, hints[n]);
      assert forall k | 0 <= k < |at| :: at[k] in at;
      if g in Grams(hints[n]) { at := at + [n]; }
    }
  }

  /** A violation names a target item that holds a run of ten characters which some hint holds and no free
      item does, and lists, sorted, the labels of exactly the hints that hold it. */
  ghost predicate IsLeak(targets: seq<string>, bodies: seq<string>, sources: seq<string>, hints: seq<string>,
                         free: seq<string>, v: Violation)
    requires |targets| == |bodies| && |sources| == |hints|
  {
    && (exists t :: 0 <= t < |targets| && targets[t] == v.target && Within(v.gram, bodies[t]))
    && |v.gram| == 10 && WithinSome(v.gram, hints) && !WithinSome(v.gram, free)
    && Strings.SortedBy(Strings.TextKey, v.hints)
    && exists at, labels :: Sells(v.gram, sources, hints, at, labels) && multiset(labels) == multiset(v.hints)
  }

  lemma ReportedIsLeak(targets: seq<string>, bodies: seq<string>, sources: seq<string>, hints: seq<string>,
                       free: seq<string>, v: Violation)
    requires |targets| == |bodies| && |sources| == |hints| && v in Report(targets, bodies, sources, hints, free)
    ensures IsLeak(targets, bodies, sources, hints, free, v)
  {
    ReportHolds(targets, bodies, sources, hints, free, v);
    var t :| Offends(targets, bodies, sources, hints, free, t, v);
    var g :| g in Grams(bodies[t]) && Leaks(g, hints, free) && v == Found(targets[t], g, sources, hints);
    GramIff(g, bodies[t]);
    InSomeIff(g, hints);
    InSomeIff(g, free);
    var at := CarriersSell(g, sources, hints);
  }

  /** And every such target and run is reported. */
  lemma LeakIsReported(targets: seq<string>, bodies: seq<string>, sources: seq<string>, hints: seq<string>,
                       free: seq<string>, t: nat, g: string)
    requires |targets| == |bodies| && |sources| == |hints| && t < |targets|
    requires |g| == 10 && Within(g, bodies[t]) && WithinSome(g, hints) && !WithinSome(g, free)
    ensures exists v :: v in Report(targets, bodies, sources, hints, free) && v.target == targets[t] && v.gram == g
  {
    GramIff(g, bodies[t]);
    InSomeIff(g, hints);
    InSomeIff(g, free);
    var v := Found(targets[t], g, sources, hints);
    assert Offends(targets, bodies, sources, hints, free, t, v);
    ReportHolds(targets, bodies, sources, hints, free, v);
  }

  /** The report is in the order of its targets, and of its runs within a target. */
  lemma OrderIs(out: seq<Violation>)
    requires Strings.SortedBy(ViolationKey, out)
    ensures forall i, j | 0 <= i < j < |out| ::
              if out[i].target == out[j].target then Strings.Le(out[i].gram, out[j].gram)
              else Strings.Le(out[i].target, out[j].target)
  {
    forall i, j | 0 <= i < j < |out|
      ensures Strings.KeyLe(ViolationKey(out[i]), ViolationKey(out[j]))
    {
    }
  }
}
