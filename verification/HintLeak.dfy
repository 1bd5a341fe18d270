/** The n-gram leak rule: no run of ten characters that a hint sells may stand in a text the
    participant can read for free. `space` is unicode.IsSpace and `so` Unicode's category So. */
module HintLeak {
  import opened Utf8
  import Hygiene
  import Strings
  import opened Wrappers

  const GRAM := 10

  datatype Item = Item(source: string, text: seq<Byte>)
  datatype Violation = Violation(target: string, gram: string, hints: seq<string>)

  datatype Error = EmptyInput | NotUtf8(source: string) | FormatChar(source: string, first: Hygiene.Finding, count: nat)

  // ---- items -----------------------------------------------------------------

  predicate Scalars(rs: seq<int>) { forall i | 0 <= i < |rs| :: 0 <= rs[i] < 0xD800 || 0xE000 <= rs[i] <= 0x10FFFF }

  function Characters(rs: seq<int>): (t: string)
    requires Scalars(rs)
    ensures |t| == |rs|
  {
    if rs == [] then "" else [rs[0] as char] + Characters(rs[1..])
  }

  lemma ValidIsScalars(text: seq<Byte>)
    requires Valid(text)
    ensures Scalars(Runes(text))
  {
    forall i | 0 <= i < |Runes(text)| ensures Runes(text)[i] != INVALID { assert Runes(text)[i] in Runes(text); }
  }

  function Strip(t: string, space: char -> bool): string {
    if t == "" then "" else (if space(t[0]) then "" else [t[0]]) + Strip(t[1..], space)
  }

  /** An item as the rule reads it: its characters without white space. */
  function Body(it: Item, space: char -> bool): string
    requires Valid(it.text)
  {
    ValidIsScalars(it.text);
    Strip(Characters(Runes(it.text)), space)
  }

  function Slice(t: string, k: nat, n: nat): string
    requires k + n <= |t|
  {
    t[k..k + n]
  }

  predicate Within(r: string, t: string) { exists k :: 0 <= k <= |t| - |r| && Slice(t, k, |r|) == r }

  function Grams(t: string): set<string> { set i | 0 <= i <= |t| - GRAM :: Slice(t, i, GRAM) }

  lemma GramIff(g: string, t: string)
    ensures g in Grams(t) <==> |g| == GRAM && Within(g, t)
  {
    if |g| == GRAM && Within(g, t) {
      var k :| 0 <= k <= |t| - |g| && Slice(t, k, |g|) == g;
      assert Slice(t, k, GRAM) in Grams(t);
    }
  }

  // ---- the rule --------------------------------------------------------------

  predicate InSome(g: string, bodies: seq<string>) { exists i :: 0 <= i < |bodies| && g in Grams(bodies[i]) }

  predicate Leaks(g: string, hints: seq<string>, free: seq<string>) { InSome(g, hints) && !InSome(g, free) }

  /** The labels of the hint items that carry a gram, in item order. */
  function Carriers(g: string, sources: seq<string>, bodies: seq<string>): seq<string>
    requires |sources| == |bodies|
  {
    if bodies == [] then []
    else (if g in Grams(bodies[0]) then [sources[0]] else []) + Carriers(g, sources[1..], bodies[1..])
  }

  function ViolationKey(v: Violation): Strings.Key { Strings.Key(v.target, v.gram) }

  function Found(target: string, g: string, sources: seq<string>, hints: seq<string>): Violation
    requires |sources| == |hints|
  {
    Violation(target, g, Strings.Sort(Strings.TextKey, Carriers(g, sources, hints)))
  }

  /** Every offending gram of one target item, once. */
  function Offences(target: string, body: string, sources: seq<string>, hints: seq<string>,
                    free: seq<string>): set<Violation>
    requires |sources| == |hints|
  {
    set g | g in Grams(body) && Leaks(g, hints, free) :: Found(target, g, sources, hints)
  }

  function Labels(items: seq<Item>): (r: seq<string>)
    ensures |r| == |items| && forall i | 0 <= i < |items| :: r[i] == items[i].source
  {
    seq(|items|, i requires 0 <= i < |items| => items[i].source)
  }

  predicate AllValid(items: seq<Item>) { forall i | 0 <= i < |items| :: Valid(items[i].text) }

  function Bodies(items: seq<Item>, space: char -> bool): (r: seq<string>)
    requires AllValid(items)
    ensures |r| == |items| && forall i | 0 <= i < |items| :: r[i] == Body(items[i], space)
  {
    seq(|items|, i requires 0 <= i < |items| => Body(items[i], space))
  }

  /** The report before it is sorted: the offences of each target item. */
  function Report(targets: seq<string>, bodies: seq<string>, sources: seq<string>, hints: seq<string>,
                  free: seq<string>): multiset<Violation>
    requires |targets| == |bodies| && |sources| == |hints|
  {
    if targets == [] then multiset{}
    else
      multiset(Offences(targets[0], bodies[0], sources, hints, free))
      + Report(targets[1..], bodies[1..], sources, hints, free)
  }

  // ---- what an empty report means --------------------------------------------

  /** Every long run that a hint and a target share lies, window by window, inside free items. */
  ghost predicate RunsAreFree(hints: seq<string>, targets: seq<string>, free: seq<string>) {
    forall h, t, r | 0 <= h < |hints| && 0 <= t < |targets| && |r| >= 10 && Within(r, hints[h])
        && Within(r, targets[t]) ::
      forall i | 0 <= i <= |r| - 10 :: WithinSome(Slice(r, i, 10), free)
  }

  ghost predicate WithinSome(g: string, bodies: seq<string>) { exists i :: 0 <= i < |bodies| && Within(g, bodies[i]) }

  lemma InSomeIff(g: string, bodies: seq<string>)
    requires |g| == GRAM
    ensures InSome(g, bodies) <==> WithinSome(g, bodies)
  {
    forall i | 0 <= i < |bodies| ensures g in Grams(bodies[i]) <==> Within(g, bodies[i]) { GramIff(g, bodies[i]); }
  }

  ghost predicate Clean(hints: seq<string>, targets: seq<string>, free: seq<string>) {
    forall t, g | 0 <= t < |targets| && g in Grams(targets[t]) :: !Leaks(g, hints, free)
  }

  lemma SliceOfSlice(t: string, k: nat, n: nat, i: nat, m: nat)
    requires k + n <= |t| && i + m <= n
    ensures Slice(Slice(t, k, n), i, m) == Slice(t, k + i, m)
  {
    var s := t[k..k + n];
    assert |s| == n && forall j | 0 <= j < n :: s[j] == t[k + j];
    assert s[i..i + m] == t[k + i..k + i + m];
  }

  lemma WindowIsWithin(r: string, t: string, i: nat)
    requires Within(r, t) && i + GRAM <= |r|
    ensures Within(Slice(r, i, GRAM), t)
  {
    var k :| 0 <= k <= |t| - |r| && Slice(t, k, |r|) == r;
    SliceOfSlice(t, k, |r|, i, GRAM);
    assert Slice(t, k + i, |Slice(r, i, GRAM)|) == Slice(r, i, GRAM);
  }

  lemma CleanIffRunsAreFree(hints: seq<string>, targets: seq<string>, free: seq<string>)
    ensures Clean(hints, targets, free) <==> RunsAreFree(hints, targets, free)
  {
    if Clean(hints, targets, free) {
      forall h, t, r | 0 <= h < |hints| && 0 <= t < |targets| && |r| >= GRAM && Within(r, hints[h])
          && Within(r, targets[t])
        ensures forall i | 0 <= i <= |r| - GRAM :: WithinSome(Slice(r, i, GRAM), free)
      {
        forall i | 0 <= i <= |r| - GRAM ensures WithinSome(Slice(r, i, GRAM), free) {
          var g := Slice(r, i, GRAM);
          WindowIsWithin(r, hints[h], i);
          WindowIsWithin(r, targets[t], i);
          GramIff(g, hints[h]);
          GramIff(g, targets[t]);
          assert !Leaks(g, hints, free);
          InSomeIff(g, free);
        }
      }
    }
    if RunsAreFree(hints, targets, free) {
      forall t, g | 0 <= t < |targets| && g in Grams(targets[t]) ensures !Leaks(g, hints, free) {
        GramIff(g, targets[t]);
        if InSome(g, hints) {
          var h :| 0 <= h < |hints| && g in Grams(hints[h]);
          GramIff(g, hints[h]);
          assert Slice(g, 0, GRAM) == g;
          InSomeIff(g, free);
        }
      }
    }
  }

  ghost predicate Offends(targets: seq<string>, bodies: seq<string>, sources: seq<string>, hints: seq<string>,
                          free: seq<string>, t: int, v: Violation)
    requires |targets| == |bodies| && |sources| == |hints|
  {
    0 <= t < |targets| && v in Offences(targets[t], bodies[t], sources, hints, free)
  }

  lemma {:induction false} ReportHolds(targets: seq<string>, bodies: seq<string>, sources: seq<string>,
                                       hints: seq<string>, free: seq<string>, v: Violation)
    requires |targets| == |bodies| && |sources| == |hints|
    ensures v in Report(targets, bodies, sources, hints, free) <==>
            exists t :: Offends(targets, bodies, sources, hints, free, t, v)
  {
    if targets != [] {
      ReportHolds(targets[1..], bodies[1..], sources, hints, free, v);
      forall t ensures Offends(targets[1..], bodies[1..], sources, hints, free, t, v)
                       <==> t >= 0 && Offends(targets, bodies, sources, hints, free, t + 1, v)
      {
      }
      if exists t :: Offends(targets[1..], bodies[1..], sources, hints, free, t, v) {
        var t :| Offends(targets[1..], bodies[1..], sources, hints, free, t, v);
        assert Offends(targets, bodies, sources, hints, free, t + 1, v);
      }
      if exists t :: Offends(targets, bodies, sources, hints, free, t, v) {
        var t :| Offends(targets, bodies, sources, hints, free, t, v);
        if t > 0 { assert Offends(targets[1..], bodies[1..], sources, hints, free, t - 1, v); }
      }
      assert Offends(targets, bodies, sources, hints, free, 0, v)
             <==> v in Offences(targets[0], bodies[0], sources, hints, free);
    }
  }

  /** The report is empty iff every long common run is free. */
  lemma EmptyIff(targets: seq<string>, bodies: seq<string>, sources: seq<string>, hints: seq<string>, free: seq<string>)
    requires |targets| == |bodies| && |sources| == |hints|
    ensures Report(targets, bodies, sources, hints, free) == multiset{} <==> RunsAreFree(hints, bodies, free)
  {
    CleanIffRunsAreFree(hints, bodies, free);
    var report := Report(targets, bodies, sources, hints, free);
    forall t, g | 0 <= t < |bodies| && g in Grams(bodies[t]) && Leaks(g, hints, free) ensures report != multiset{} {
      var v := Found(targets[t], g, sources, hints);
      assert Offends(targets, bodies, sources, hints, free, t, v);
      ReportHolds(targets, bodies, sources, hints, free, v);
      assert v in report;
    }
    forall v | v in report ensures exists t, g :: 0 <= t < |bodies| && g in Grams(bodies[t]) && Leaks(g, hints, free) {
      ReportHolds(targets, bodies, sources, hints, free, v);
      var t :| Offends(targets, bodies, sources, hints, free, t, v);
      var g :| g in Grams(bodies[t]) && Leaks(g, hints, free) && v == Found(targets[t], g, sources, hints);
    }
    if report != multiset{} {
      var v :| v in report;
    }
  }

  // ---- the loops -------------------------------------------------------------

  lemma {:induction false} StripAppend(a: string, b: string, space: char -> bool)
    ensures Strip(a + b, space) == Strip(a, space) + Strip(b, space)
  {
    if a == "" {
      assert a + b == b;
    } else {
      assert (a + b)[1..] == a[1..] + b;
      StripAppend(a[1..], b, space);
    }
  }

  method GramSet(t: string, space: char -> bool) returns (grams: set<string>)
    ensures grams == Grams(Strip(t, space))
  {
    var runes := "";
    for i := 0 to |t|
      invariant runes == Strip(t[..i], space)
    {
      assert t[..i + 1] == t[..i] + [t[i]];
      StripAppend(t[..i], [t[i]], space);
      if !space(t[i]) {
        runes := runes + [t[i]];
      }
    }
    assert t[..|t|] == t;
    grams := {};
    var i := 0;
    while i + GRAM <= |runes|
      invariant forall g :: g in grams <==> exists k :: 0 <= k < i && k + GRAM <= |runes| && Slice(runes, k, GRAM) == g
    {
      grams := grams + {Slice(runes, i, GRAM)};
      i := i + 1;
    }
    forall g ensures g in grams <==> g in Grams(runes) {
    }
  }

  ghost predicate FirstBadText(items: seq<Item>, source: string) {
    exists i :: 0 <= i < |items| && !Valid(items[i].text) && source == items[i].source && AllValid(items[..i])
  }

  ghost predicate FirstBadRune(so: int -> bool, items: seq<Item>, source: string, found: seq<Hygiene.Finding>) {
    exists i :: 0 <= i < |items| && found == HiddenIn(so, items[i]) && source == items[i].source
        && AllVisible(so, items[..i])
  }

  /** The items of one kind, in reading order: the first that is not valid UTF-8. */
  method FirstInvalid(items: seq<Item>) returns (bad: bool, source: string)
    ensures bad == !AllValid(items)
    ensures bad ==> FirstBadText(items, source)
  {
    for i := 0 to |items|
      invariant AllValid(items[..i])
    {
      if !Valid(items[i].text) {
        return true, items[i].source;
      }
      assert items[..i + 1] == items[..i] + [items[i]];
    }
    assert items[..|items|] == items;
    return false, "";
  }

  function HiddenIn(so: int -> bool, it: Item): seq<Hygiene.Finding> { Hygiene.Hidden(so, it.text) }

  predicate AllVisible(so: int -> bool, items: seq<Item>) {
    forall i | 0 <= i < |items| :: HiddenIn(so, items[i]) == []
  }

  method FirstHidden(so: int -> bool, items: seq<Item>) returns (bad: bool, source: string, found: seq<Hygiene.Finding>)
    ensures bad == !AllVisible(so, items)
    ensures bad ==> found != [] && FirstBadRune(so, items, source, found)
  {
    for i := 0 to |items|
      invariant AllVisible(so, items[..i])
    {
      found := HiddenIn(so, items[i]);
      if found != [] {
        return true, items[i].source, found;
      }
      assert items[..i + 1] == items[..i] + [items[i]];
    }
    assert items[..|items|] == items;
    return false, "", [];
  }

  method CarriersOf(g: string, sources: seq<string>, bodies: seq<string>) returns (out: seq<string>)
    requires |sources| == |bodies|
    ensures out == Carriers(g, sources, bodies)
  {
    out := [];
    for i := 0 to |bodies|
      invariant out + Carriers(g, sources[i..], bodies[i..]) == Carriers(g, sources, bodies)
    {
      assert sources[i..][1..] == sources[i + 1..] && bodies[i..][1..] == bodies[i + 1..];
      if g in Grams(bodies[i]) {
        out := out + [sources[i]];
      }
    }
    assert out + [] == out;
  }

  /** The body of the inner loop. */
  method OffenceOf(g: string, ghost done: set<string>, target: string, sources: seq<string>, hints: seq<string>,
                   free: seq<string>)
    returns (out: seq<Violation>)
    requires |sources| == |hints| && g !in done
    ensures multiset(OffencesAmong(done + {g}, target, sources, hints, free))
            == multiset(OffencesAmong(done, target, sources, hints, free)) + multiset(out)
  {
    if !Leaks(g, hints, free) {
      assert OffencesAmong(done + {g}, target, sources, hints, free)
             == OffencesAmong(done, target, sources, hints, free);
      return [];
    }
    var src := CarriersOf(g, sources, hints);
    OneMoreOffence(done, g, target, sources, hints, free);
    return [Violation(target, g, Strings.Sort(Strings.TextKey, src))];
  }

  /** The inner loop: the grams of one target, in whatever order the set yields them. */
  method OffencesIn(grams: set<string>, target: string, sources: seq<string>, hints: seq<string>, free: seq<string>)
    returns (out: seq<Violation>)
    requires |sources| == |hints|
    ensures multiset(out) == multiset(OffencesAmong(grams, target, sources, hints, free))
  {
    out := [];
    var left := grams;
    ghost var done: set<string> := {};
    while left != {}
      invariant done !! left && done + left == grams
      invariant multiset(out) == multiset(OffencesAmong(done, target, sources, hints, free))
      decreases left
    {
      var g :| g in left;
      var more := OffenceOf(g, done, target, sources, hints, free);
      out := out + more;
      left := left - {g};
      done := done + {g};
    }
    assert done == grams;
  }

  method OffencesOf(target: string, body: string, sources: seq<string>, hints: seq<string>, free: seq<string>)
    returns (out: seq<Violation>)
    requires |sources| == |hints|
    ensures multiset(out) == multiset(Offences(target, body, sources, hints, free))
  {
    out := OffencesIn(Grams(body), target, sources, hints, free);
  }

  function OffencesAmong(gs: set<string>, target: string, sources: seq<string>, hints: seq<string>,
                         free: seq<string>): set<Violation>
    requires |sources| == |hints|
  {
    set g | g in gs && Leaks(g, hints, free) :: Found(target, g, sources, hints)
  }

  lemma OneMoreOffence(gs: set<string>, g: string, target: string, sources: seq<string>, hints: seq<string>,
                       free: seq<string>)
    requires |sources| == |hints| && g !in gs && Leaks(g, hints, free)
    ensures multiset(OffencesAmong(gs + {g}, target, sources, hints, free))
            == multiset(OffencesAmong(gs, target, sources, hints, free)) + multiset{Found(target, g, sources, hints)}
  {
    var before, v := OffencesAmong(gs, target, sources, hints, free), Found(target, g, sources, hints);
    assert v !in before;
    assert OffencesAmong(gs + {g}, target, sources, hints, free) == before + {v};
  }

  /** The loop over the targets and the final sort. */
  method ReportOf(targets: seq<string>, bodies: seq<string>, sources: seq<string>, hints: seq<string>,
                  free: seq<string>)
    returns (out: seq<Violation>)
    requires |targets| == |bodies| && |sources| == |hints|
    ensures Strings.SortedBy(ViolationKey, out)
    ensures multiset(out) == Report(targets, bodies, sources, hints, free)
  {
    var found: seq<Violation> := [];
    for i := 0 to |targets|
      invariant multiset(found) + Report(targets[i..], bodies[i..], sources, hints, free)
                == Report(targets, bodies, sources, hints, free)
    {
      var more := OffencesOf(targets[i], bodies[i], sources, hints, free);
      assert targets[i..][1..] == targets[i + 1..] && bodies[i..][1..] == bodies[i + 1..];
      found := found + more;
    }
    out := Strings.Sort(ViolationKey, found);
  }

  /** The errors come first, in the code's order; then the sorted report. */
  method Check(hints: seq<Item>, free: seq<Item>, targets: seq<Item>, so: int -> bool, space: char -> bool)
    returns (r: Result<seq<Violation>, Error>)
    ensures r == Err(EmptyInput) <==> hints == [] || targets == []
    ensures r.Ok? <==>
            && hints != [] && targets != []
            && AllValid(hints) && AllValid(free) && AllValid(targets)
            && AllVisible(so, hints) && AllVisible(so, targets)
    ensures r.Err? && r.error.NotUtf8? ==>
              var source := r.error.source;
              || FirstBadText(hints, source)
              || (AllValid(hints) && FirstBadText(free, source))
              || (AllValid(hints) && AllValid(free) && FirstBadText(targets, source))
    ensures r.Err? && r.error.FormatChar? ==>
              && AllValid(hints) && AllValid(free) && AllValid(targets)
              && exists found: seq<Hygiene.Finding> ::
                   && found != [] && r.error == FormatChar(r.error.source, found[0], |found|)
                   && (FirstBadRune(so, hints, r.error.source, found)
                       || (AllVisible(so, hints) && FirstBadRune(so, targets, r.error.source, found)))
    ensures r.Ok? ==> Strings.SortedBy(ViolationKey, r.value)
    ensures r.Ok? ==>
              multiset(r.value)
              == Report(Labels(targets), Bodies(targets, space), Labels(hints), Bodies(hints, space),
                        Bodies(free, space))
    ensures r.Ok? ==>
              (r.value == [] <==> RunsAreFree(Bodies(hints, space), Bodies(targets, space), Bodies(free, space)))
  {
    if hints == [] || targets == [] {
      return Err(EmptyInput);
    }
    var bad, source := FirstInvalid(hints);
    if !bad { bad, source := FirstInvalid(free); }
    if !bad { bad, source := FirstInvalid(targets); }
    if bad {
      return Err(NotUtf8(source));
    }
    var found: seq<Hygiene.Finding>;
    bad, source, found := FirstHidden(so, hints);
    if !bad { bad, source, found := FirstHidden(so, targets); }
    if bad {
      return Err(FormatChar(source, found[0], |found|));
    }
    var out := ReportOf(Labels(targets), Bodies(targets, space), Labels(hints), Bodies(hints, space),
                        Bodies(free, space));
    EmptyIff(Labels(targets), Bodies(targets, space), Labels(hints), Bodies(hints, space), Bodies(free, space));
    assert out == [] <==> multiset(out) == multiset{} by { if out != [] { assert out[0] in multiset(out); } }
    return Ok(out);
  }
}
