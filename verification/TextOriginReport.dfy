/** The loops of `TextOrigin`, from the two walks to the sorted report and the counts. `format` is the
    text of a line. */
module TextOriginReport {
  import opened Documents
  import opened TextOriginWalk
  import opened TextOrigin
  import Strings

  // ---- the counts ------------------------------------------------------------

  /** How many nodes declare a word. */
  function Declaring(walk: seq<Found>, word: string): nat {
    if walk == [] then 0
    else (if walk[0].StringNode? && walk[0].raw == VStr(word) then 1 else 0) + Declaring(walk[1..], word)
  }

  lemma {:induction false} DeclaringNext(walk: seq<Found>, i: nat, word: string)
    requires i < |walk|
    ensures Declaring(walk[..i + 1], word)
            == Declaring(walk[..i], word) + if walk[i].StringNode? && walk[i].raw == VStr(word) then 1 else 0
  {
    if i > 0 {
      assert walk[..i + 1][1..] == walk[1..][..i] && walk[..i][1..] == walk[1..][..i - 1];
      DeclaringNext(walk[1..], i - 1, word);
    } else {
      assert walk[..1][1..] == [] && walk[..0] == [];
    }
  }

  function Walked(walk: seq<Found>): set<string> { set f | f in walk && f.StringNode? :: f.ptr }
  function Typed(scan: seq<Seen>): set<string> { set s | s in scan && s.StringTyped? :: s.ptr }

  /** The walked pointers, and how many nodes declare each word. */
  method CountNodes(walk: seq<Found>) returns (walked: set<string>, counts: map<string, nat>)
    ensures walked == Walked(walk)
    ensures forall w :: w in counts <==> w in VOCABULARY
    ensures forall w | w in counts :: counts[w] == Declaring(walk, w)
  {
    walked := {};
    counts := map w | w in VOCABULARY :: 0;
    for i := 0 to |walk|
      invariant walked == Walked(walk[..i])
      invariant forall w :: w in counts <==> w in VOCABULARY
      invariant forall w | w in counts :: counts[w] == Declaring(walk[..i], w)
    {
      var f := walk[i];
      WalkedNext(walk, i);
      forall w
        ensures Declaring(walk[..i + 1], w)
                == Declaring(walk[..i], w) + if f.StringNode? && f.raw == VStr(w) then 1 else 0
      {
        DeclaringNext(walk, i, w);
      }
      if f.StringNode? {
        walked := walked + {f.ptr};
        if f.raw.VStr? && f.raw.text in counts {
          counts := counts[f.raw.text := counts[f.raw.text] + 1];
        }
      }
    }
    assert walk[..|walk|] == walk;
  }

  lemma WalkedNext(walk: seq<Found>, i: nat)
    requires i < |walk|
    ensures Walked(walk[..i + 1]) == Walked(walk[..i]) + if walk[i].StringNode? then {walk[i].ptr} else {}
  {
    assert walk[..i + 1] == walk[..i] + [walk[i]];
    assert forall f :: f in walk[..i + 1] <==> f in walk[..i] || f == walk[i];
  }

  method TypedPointers(scan: seq<Seen>) returns (typed: set<string>)
    ensures typed == Typed(scan)
  {
    typed := {};
    for i := 0 to |scan|
      invariant typed == Typed(scan[..i])
    {
      assert scan[..i + 1] == scan[..i] + [scan[i]];
      assert forall s :: s in scan[..i + 1] <==> s in scan[..i] || s == scan[i];
      if scan[i].StringTyped? {
        typed := typed + {scan[i].ptr};
      }
    }
    assert scan[..|scan|] == scan;
  }

  // ---- the lines -------------------------------------------------------------

  /** A node's own line, if its declaration deserves one. */
  function NodeLine(f: Found): seq<Violation> {
    if !f.StringNode? then []
    else match f.raw
         case VNil => [Undeclared(f.ptr)]
         case VStr(w) => if w in VOCABULARY then [] else [NotInVocabulary(f.ptr, w)]
         case _ => [NotAWord(f.ptr)]
  }

  /** The line of one report of the blind scan; typeless enums come with those of the walk. */
  function SeenLine(root: seq<Entry>, s: Seen, walked: set<string>, typed: set<string>): seq<Violation> {
    match s
    case StringTyped(p) => if p in walked then [] else [Unreached(p)]
    case OriginKeyed(p) => if p in typed then [] else [Misplaced(p)]
    case RefAt(p, ref) => if RefResolves(root, ref) then [] else [Unresolved(p, ref)]
    case RefSiblings(p, extra) => [Siblings(p, extra)]
    case Typeless(_) => []
    case NonStringKeys(p) => [BadKeys(p)]
  }

  /** The line of a reference that the structured walk met. */
  function FoundLine(f: Found): seq<Violation> {
    if f.PositionedRef? && !RefInSection(f.ref, f.section) then [WrongSection(f.ptr, f.ref, f.section)] else []
  }

  function NodeLines(walk: seq<Found>): seq<Violation> {
    if walk == [] then [] else NodeLine(walk[0]) + NodeLines(walk[1..])
  }

  function SeenLines(root: seq<Entry>, scan: seq<Seen>, walked: set<string>, typed: set<string>): seq<Violation> {
    if scan == [] then [] else SeenLine(root, scan[0], walked, typed) + SeenLines(root, scan[1..], walked, typed)
  }

  function FoundLines(walk: seq<Found>): seq<Violation> {
    if walk == [] then [] else FoundLine(walk[0]) + FoundLines(walk[1..])
  }

  function StaticLines(rules: seq<string>): seq<Violation> {
    if rules == [] then [] else [Static(rules[0])] + StaticLines(rules[1..])
  }

  function AddNew(ps: seq<string>, p: string): seq<string> { if p in ps then ps else ps + [p] }

  /** The pointers of the typeless enums of both walks, each once. */
  function TypelessFound(walk: seq<Found>, n: nat): seq<string>
    requires n <= |walk|
  {
    if n == 0 then []
    else if walk[n - 1].TypelessNode? then AddNew(TypelessFound(walk, n - 1), walk[n - 1].ptr)
    else TypelessFound(walk, n - 1)
  }

  function TypelessSeen(ps: seq<string>, scan: seq<Seen>, n: nat): seq<string>
    requires n <= |scan|
  {
    if n == 0 then ps
    else if scan[n - 1].Typeless? then AddNew(TypelessSeen(ps, scan, n - 1), scan[n - 1].ptr)
    else TypelessSeen(ps, scan, n - 1)
  }

  function TypelessPointers(walk: seq<Found>, scan: seq<Seen>): seq<string> {
    TypelessSeen(TypelessFound(walk, |walk|), scan, |scan|)
  }

  function TypelessLines(ps: seq<string>): seq<Violation> {
    if ps == [] then [] else [NoType(ps[0])] + TypelessLines(ps[1..])
  }

  predicate NoNode(walk: seq<Found>) { forall f | f in walk :: !f.StringNode? }

  /** The report before it is sorted. */
  function Lines(root: seq<Entry>, walk: seq<Found>, scan: seq<Seen>, rules: seq<string>): seq<Violation> {
    (if NoNode(walk) then [NoNodes] else []) + NodeLines(walk) + SeenLines(root, scan, Walked(walk), Typed(scan))
    + TypelessLines(TypelessPointers(walk, scan)) + StaticLines(rules) + FoundLines(walk)
  }

  // ---- the loops -------------------------------------------------------------

  lemma {:induction false} NodeLinesAppend(a: seq<Found>, f: Found)
    ensures NodeLines(a + [f]) == NodeLines(a) + NodeLine(f)
  {
    if a == [] {
      assert [] + [f] == [f] && [f][1..] == [];
    } else {
      assert (a + [f])[0] == a[0] && (a + [f])[1..] == a[1..] + [f];
      NodeLinesAppend(a[1..], f);
      Strings.JoinThree(NodeLine(a[0]), NodeLines(a[1..]), NodeLine(f));
    }
  }

  lemma {:induction false} FoundLinesAppend(a: seq<Found>, f: Found)
    ensures FoundLines(a + [f]) == FoundLines(a) + FoundLine(f)
  {
    if a == [] {
      assert [] + [f] == [f] && [f][1..] == [];
    } else {
      assert (a + [f])[0] == a[0] && (a + [f])[1..] == a[1..] + [f];
      FoundLinesAppend(a[1..], f);
      Strings.JoinThree(FoundLine(a[0]), FoundLines(a[1..]), FoundLine(f));
    }
  }

  lemma {:induction false} SeenLinesAppend(root: seq<Entry>, a: seq<Seen>, s: Seen, walked: set<string>,
                                           typed: set<string>)
    ensures SeenLines(root, a + [s], walked, typed) == SeenLines(root, a, walked, typed)
            + SeenLine(root, s, walked, typed)
  {
    if a == [] {
      assert [] + [s] == [s] && [s][1..] == [];
    } else {
      assert (a + [s])[0] == a[0] && (a + [s])[1..] == a[1..] + [s];
      SeenLinesAppend(root, a[1..], s, walked, typed);
      Strings.JoinThree(SeenLine(root, a[0], walked, typed), SeenLines(root, a[1..], walked, typed),
                        SeenLine(root, s, walked, typed));
    }
  }

  lemma {:induction false} TextLinesAppend(a: seq<string>, x: string)
    ensures StaticLines(a + [x]) == StaticLines(a) + [Static(x)]
            && TypelessLines(a + [x]) == TypelessLines(a) + [NoType(x)]
  {
    if a == [] {
      assert [] + [x] == [x] && [x][1..] == [];
    } else {
      assert (a + [x])[1..] == a[1..] + [x];
      TextLinesAppend(a[1..], x);
    }
  }

  method CheckNodes(walk: seq<Found>) returns (viol: seq<Violation>)
    ensures viol == (if NoNode(walk) then [NoNodes] else []) + NodeLines(walk)
  {
    viol := [];
    var nodes := 0;
    for i := 0 to |walk|
      invariant nodes == 0 <==> NoNode(walk[..i])
      invariant viol == NodeLines(walk[..i])
    {
      assert walk[..i + 1] == walk[..i] + [walk[i]];
      NodeLinesAppend(walk[..i], walk[i]);
      if walk[i].StringNode? {
        nodes := nodes + 1;
        assert walk[i] in walk[..i + 1];
      }
      viol := viol + NodeLine(walk[i]);
    }
    assert walk[..|walk|] == walk;
    if nodes == 0 {
      viol := [NoNodes] + viol;
    }
  }

  method CheckScan(root: seq<Entry>, scan: seq<Seen>, walked: set<string>, typed: set<string>)
    returns (viol: seq<Violation>)
    ensures viol == SeenLines(root, scan, walked, typed)
  {
    viol := [];
    for i := 0 to |scan|
      invariant viol == SeenLines(root, scan[..i], walked, typed)
    {
      assert scan[..i + 1] == scan[..i] + [scan[i]];
      SeenLinesAppend(root, scan[..i], scan[i], walked, typed);
      viol := viol + SeenLine(root, scan[i], walked, typed);
    }
    assert scan[..|scan|] == scan;
  }

  method CheckTypeless(walk: seq<Found>, scan: seq<Seen>) returns (viol: seq<Violation>)
    ensures viol == TypelessLines(TypelessPointers(walk, scan))
  {
    var typeless: seq<string> := [];
    for i := 0 to |walk|
      invariant typeless == TypelessFound(walk, i)
    {
      if walk[i].TypelessNode? && walk[i].ptr !in typeless {
        typeless := typeless + [walk[i].ptr];
      }
    }
    for i := 0 to |scan|
      invariant typeless == TypelessSeen(TypelessFound(walk, |walk|), scan, i)
    {
      if scan[i].Typeless? && scan[i].ptr !in typeless {
        typeless := typeless + [scan[i].ptr];
      }
    }
    viol := [];
    for i := 0 to |typeless|
      invariant viol == TypelessLines(typeless[..i])
    {
      assert typeless[..i + 1] == typeless[..i] + [typeless[i]];
      TextLinesAppend(typeless[..i], typeless[i]);
      viol := viol + [NoType(typeless[i])];
    }
    assert typeless[..|typeless|] == typeless;
  }

  method CheckRules(rules: seq<string>) returns (viol: seq<Violation>)
    ensures viol == StaticLines(rules)
  {
    viol := [];
    for i := 0 to |rules|
      invariant viol == StaticLines(rules[..i])
    {
      assert rules[..i + 1] == rules[..i] + [rules[i]];
      TextLinesAppend(rules[..i], rules[i]);
      viol := viol + [Static(rules[i])];
    }
    assert rules[..|rules|] == rules;
  }

  method CheckRefs(walk: seq<Found>) returns (viol: seq<Violation>)
    ensures viol == FoundLines(walk)
  {
    viol := [];
    for i := 0 to |walk|
      invariant viol == FoundLines(walk[..i])
    {
      assert walk[..i + 1] == walk[..i] + [walk[i]];
      FoundLinesAppend(walk[..i], walk[i]);
      viol := viol + FoundLine(walk[i]);
    }
    assert walk[..|walk|] == walk;
  }

  /** The texts of the lines. */
  function Formatted(viol: seq<Violation>, format: Violation -> string): (r: seq<string>)
    ensures |r| == |viol| && forall i | 0 <= i < |viol| :: r[i] == format(viol[i])
  {
    if viol == [] then [] else [format(viol[0])] + Formatted(viol[1..], format)
  }

  method Report(root: seq<Entry>, walk: seq<Found>, scan: seq<Seen>, rules: seq<string>, format: Violation -> string)
    returns (lines: seq<string>, counts: map<string, nat>)
    ensures lines == Strings.Sort(Strings.TextKey, Formatted(Lines(root, walk, scan, rules), format))
    ensures forall w :: w in counts <==> w in VOCABULARY
    ensures forall w | w in counts :: counts[w] == Declaring(walk, w)
  {
    var walked;
    walked, counts := CountNodes(walk);
    var typed := TypedPointers(scan);
    var viol := CheckNodes(walk);
    var more := CheckScan(root, scan, walked, typed);
    viol := viol + more;
    more := CheckTypeless(walk, scan);
    viol := viol + more;
    more := CheckRules(rules);
    viol := viol + more;
    more := CheckRefs(walk);
    viol := viol + more;
    lines := Strings.Sort(Strings.TextKey, Formatted(viol, format));
  }

  /** The sorted report and the counts of a whole document. */
  method TextOriginOf(root: seq<Entry>, rules: seq<string>, format: Violation -> string)
    returns (lines: seq<string>, counts: map<string, nat>)
    ensures var viol := Lines(root, Walk(root), Scan(VMap(root), ""), rules);
            lines == Strings.Sort(Strings.TextKey, Formatted(viol, format))
    ensures forall w :: w in counts <==> w in VOCABULARY
    ensures forall w | w in counts :: counts[w] == Declaring(Walk(root), w)
  {
    lines, counts := Report(root, Walk(root), Scan(VMap(root), ""), rules, format);
  }

  // ---- which lines there are -------------------------------------------------

  lemma {:induction false} InNodeLines(walk: seq<Found>, x: Violation)
    ensures x in NodeLines(walk) <==> exists f :: f in walk && x in NodeLine(f)
    ensures x in FoundLines(walk) <==> exists f :: f in walk && x in FoundLine(f)
  {
    if walk != [] {
      InNodeLines(walk[1..], x);
      assert forall f :: f in walk <==> f == walk[0] || f in walk[1..];
    }
  }

  lemma {:induction false} InSeenLines(root: seq<Entry>, scan: seq<Seen>, walked: set<string>, typed: set<string>,
                                       x: Violation)
    ensures x in SeenLines(root, scan, walked, typed)
            <==> exists s :: s in scan && x in SeenLine(root, s, walked, typed)
  {
    if scan != [] {
      InSeenLines(root, scan[1..], walked, typed, x);
      assert forall s :: s in scan <==> s == scan[0] || s in scan[1..];
    }
  }

  lemma {:induction false} InTextLines(ts: seq<string>, x: Violation)
    ensures x in StaticLines(ts) <==> x.Static? && x.message in ts
    ensures x in TypelessLines(ts) <==> x.NoType? && x.ptr in ts
  {
    if ts != [] {
      InTextLines(ts[1..], x);
      assert forall t :: t in ts <==> t == ts[0] || t in ts[1..];
    }
  }

  lemma {:induction false} InTypelessFound(walk: seq<Found>, n: nat)
    requires n <= |walk|
    ensures Strings.Distinct(TypelessFound(walk, n))
    ensures forall p :: p in TypelessFound(walk, n) <==> TypelessNode(p) in walk[..n]
  {
    if n > 0 {
      InTypelessFound(walk, n - 1);
      assert walk[..n] == walk[..n - 1] + [walk[n - 1]];
      assert forall f :: f in walk[..n] <==> f in walk[..n - 1] || f == walk[n - 1];
    }
  }

  lemma {:induction false} InTypelessSeen(ps: seq<string>, scan: seq<Seen>, n: nat)
    requires n <= |scan| && Strings.Distinct(ps)
    ensures Strings.Distinct(TypelessSeen(ps, scan, n))
    ensures forall p :: p in TypelessSeen(ps, scan, n) <==> p in ps || Typeless(p) in scan[..n]
  {
    if n > 0 {
      InTypelessSeen(ps, scan, n - 1);
      assert scan[..n] == scan[..n - 1] + [scan[n - 1]];
      assert forall s :: s in scan[..n] <==> s in scan[..n - 1] || s == scan[n - 1];
    }
  }

  /** Both walks' typeless enums, each pointer once. */
  lemma TypelessPointersAre(walk: seq<Found>, scan: seq<Seen>)
    ensures Strings.Distinct(TypelessPointers(walk, scan))
    ensures forall p :: p in TypelessPointers(walk, scan) <==> TypelessNode(p) in walk || Typeless(p) in scan
  {
    InTypelessFound(walk, |walk|);
    assert walk[..|walk|] == walk && scan[..|scan|] == scan;
    InTypelessSeen(TypelessFound(walk, |walk|), scan, |scan|);
  }

  lemma NodeLineIff(walk: seq<Found>, x: Violation)
    ensures (exists f :: f in walk && x in NodeLine(f)) <==>
            match x
            case Undeclared(p) => IsNode(walk, p, VNil)
            case NotInVocabulary(p, w) => IsNode(walk, p, VStr(w)) && w !in VOCABULARY
            case NotAWord(p) => exists raw :: IsNode(walk, p, raw) && !raw.VNil? && !raw.VStr?
            case _ => false
  {
    forall f | f in walk && f.StringNode? ensures IsNode(walk, f.ptr, f.raw) {
      assert f == StringNode(f.ptr, f.raw, f.hasEnum);
    }
  }

  lemma SeenLineIff(root: seq<Entry>, walk: seq<Found>, scan: seq<Seen>, x: Violation)
    ensures (exists s :: s in scan && x in SeenLine(root, s, Walked(walk), Typed(scan))) <==>
            match x
            case Unreached(p) => StringTyped(p) in scan && !IsWalked(walk, p)
            case Misplaced(p) => OriginKeyed(p) in scan && StringTyped(p) !in scan
            case Siblings(p, extra) => RefSiblings(p, extra) in scan
            case BadKeys(p) => NonStringKeys(p) in scan
            case Unresolved(p, ref) => RefAt(p, ref) in scan && !RefResolves(root, ref)
            case _ => false
  {
    if x.Unreached? { WalkedIff(walk, x.ptr); }
    if x.Misplaced? { assert x.ptr in Typed(scan) <==> StringTyped(x.ptr) in scan; }
    match x {
      case Unreached(p) =>
        assert x in SeenLine(root, StringTyped(p), Walked(walk), Typed(scan))
               <==> p !in Walked(walk);
      case Misplaced(p) => assert x in SeenLine(root, OriginKeyed(p), Walked(walk), Typed(scan)) <==> p !in Typed(scan);
      case Siblings(p, extra) => assert x in SeenLine(root, RefSiblings(p, extra), Walked(walk), Typed(scan));
      case BadKeys(p) => assert x in SeenLine(root, NonStringKeys(p), Walked(walk), Typed(scan));
      case Unresolved(p, ref) =>
        assert x in SeenLine(root, RefAt(p, ref), Walked(walk), Typed(scan))
               <==> !RefResolves(root, ref);
      case _ =>
    }
  }

  lemma WalkedIff(walk: seq<Found>, p: string)
    ensures p in Walked(walk) <==> IsWalked(walk, p)
  {
    forall f | f in walk && f.StringNode? ensures IsNode(walk, f.ptr, f.raw) {
      assert f == StringNode(f.ptr, f.raw, f.hasEnum);
    }
    if IsWalked(walk, p) {
      var raw :| IsNode(walk, p, raw);
      var h :| StringNode(p, raw, h) in walk;
      assert StringNode(p, raw, h).ptr in Walked(walk);
    }
  }

  lemma FoundLineIff(walk: seq<Found>, x: Violation)
    ensures (exists f :: f in walk && x in FoundLine(f)) <==>
            x.WrongSection? && PositionedRef(x.ptr, x.ref, x.section) in walk && !RefInSection(x.ref, x.section)
  {
    if x.WrongSection? && !RefInSection(x.ref, x.section) {
      assert x in FoundLine(PositionedRef(x.ptr, x.ref, x.section));
    }
  }

  /** The report holds exactly the violations. */
  lemma LinesAreTheViolations(root: seq<Entry>, walk: seq<Found>, scan: seq<Seen>, rules: seq<string>, x: Violation)
    ensures x in Lines(root, walk, scan, rules) <==> Reported(root, walk, scan, rules, x)
  {
    InNodeLines(walk, x);
    NodeLineIff(walk, x);
    FoundLineIff(walk, x);
    InSeenLines(root, scan, Walked(walk), Typed(scan), x);
    SeenLineIff(root, walk, scan, x);
    TypelessPointersAre(walk, scan);
    InTextLines(TypelessPointers(walk, scan), x);
    InTextLines(rules, x);
    InSix(x, if NoNode(walk) then [NoNodes] else [], NodeLines(walk), SeenLines(root, scan, Walked(walk), Typed(scan)),
          TypelessLines(TypelessPointers(walk, scan)), StaticLines(rules), FoundLines(walk));
  }

  lemma InSix(x: Violation, a: seq<Violation>, b: seq<Violation>, c: seq<Violation>, d: seq<Violation>,
              e: seq<Violation>, f: seq<Violation>)
    ensures x in a + b + c + d + e + f <==> x in a || x in b || x in c || x in d || x in e || x in f
  {
  }

  /** The sorted report is empty iff nothing is reported. */
  lemma EmptyReportIff(root: seq<Entry>, rules: seq<string>, format: Violation -> string)
    ensures var viol := Lines(root, Walk(root), Scan(VMap(root), ""), rules);
            Strings.Sort(Strings.TextKey, Formatted(viol, format)) == []
            <==> NothingReported(root, Walk(root), Scan(VMap(root), ""), rules)
  {
    EmptyLinesIff(root, Walk(root), Scan(VMap(root), ""), rules);
  }

  lemma EmptyLinesIff(root: seq<Entry>, walk: seq<Found>, scan: seq<Seen>, rules: seq<string>)
    ensures |Lines(root, walk, scan, rules)| == 0 <==> NothingReported(root, walk, scan, rules)
  {
    forall x ensures x in Lines(root, walk, scan, rules) <==> Reported(root, walk, scan, rules, x) {
      LinesAreTheViolations(root, walk, scan, rules, x);
    }
    Strings.HasElement(Lines(root, walk, scan, rules));
  }
}
