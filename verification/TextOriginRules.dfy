/** What the declaration checker's tests mean on the document itself: the six words, the blind scan's
    reports, the references it follows, the pointers it writes, and the counts. */
module TextOriginRules {
  import opened Documents
  import opened TextOriginWalk
  import opened TextOrigin
  import opened TextOriginRoles
  import TextOriginReport
  import Strings
  import opened Wrappers

  lemma VocabularyIs(w: string)
    ensures w in VOCABULARY <==>
            w == "participant-inline" || w == "participant-block" || w == "participant-opaque"
            || w == "operator" || w == "token" || w == "enum"
  {
  }

  // ---- the blind scan ----------------------------------------------------------

  predicate NotBesideRef(k: string) { k != "$ref" && k != "description" && k != "summary" }

  /** The keys that may not stand beside a reference, in order, each once. */
  ghost predicate AreSiblings(es: seq<Entry>, extra: seq<string>) {
    && Strings.Distinct(extra) && Strings.SortedBy(Strings.TextKey, extra)
    && forall k :: k in extra <==> HasKey(es, k) && NotBesideRef(k)
  }

  ghost predicate Shows(x: Seen, v: Value) {
    match x
    case NonStringKeys(_) => v == VBadMap
    case StringTyped(_) => v.VMap? && HasStringType(v.entries)
    case OriginKeyed(_) => v.VMap? && HasKey(v.entries, "x-ctf-text-origin")
    case RefAt(_, ref) => v.VMap? && Find(v.entries, "$ref") == Some(VStr(ref))
    case RefSiblings(_, extra) =>
      && v.VMap? && extra != [] && AreSiblings(v.entries, extra)
      && exists ref :: Find(v.entries, "$ref") == Some(VStr(ref))
    case Typeless(_) =>
      && v.VMap? && !HasKey(v.entries, "type") && !HasKey(v.entries, "$ref")
      && ((exists vs :: Find(v.entries, "enum") == Some(VList(vs)))
          || (HasKey(v.entries, "const") && var c := Find(v.entries, "const").value; !c.VMap? && !c.VList?))
  }

  lemma {:induction false} ExtraIs(es: seq<Entry>)
    requires DecodedEntries(es)
    ensures Strings.Distinct(Extra(es)) && forall k :: k in Extra(es) <==> HasKey(es, k) && NotBesideRef(k)
  {
    if es != [] {
      ExtraIs(es[1..]);
      assert NotBesideRef(es[0].key) <==> es[0].key !in ["$ref", "description", "summary"];
    }
  }

  lemma SiblingsAre(es: seq<Entry>, extra: seq<string>)
    requires DecodedEntries(es)
    ensures extra == Strings.Sort(Strings.TextKey, Extra(es)) <==> AreSiblings(es, extra)
  {
    ExtraIs(es);
    var sorted := Strings.Sort(Strings.TextKey, Extra(es));
    Strings.SortKeepsDistinct(Strings.TextKey, Extra(es));
    if AreSiblings(es, extra) {
      KeysAreDistinct(extra);
      KeysAreDistinct(sorted);
      Strings.SortUnique(Strings.TextKey, sorted, extra);
    }
  }

  lemma KeysAreDistinct(s: seq<string>)
    requires Strings.Distinct(s)
    ensures Strings.DistinctKeys(Strings.TextKey, s)
  {
  }

  lemma ShowsIff(x: Seen, v: Value)
    requires Decoded(v)
    ensures TextOrigin.Tells(x, v) <==> Shows(x, v)
  {
    if v.VMap? {
      match x {
        case StringTyped(_) => NoneIsNil(v.entries, "type");
        case RefAt(_, _) => NoneIsNil(v.entries, "$ref");
        case RefSiblings(_, extra) => SiblingsShow(v.entries, extra);
        case Typeless(_) => TypelessIff(v.entries);
        case _ =>
      }
    }
  }

  lemma SiblingsShow(es: seq<Entry>, extra: seq<string>)
    requires DecodedEntries(es)
    ensures HasRef(es) && Extra(es) != [] && extra == Strings.Sort(Strings.TextKey, Extra(es)) <==>
            extra != [] && AreSiblings(es, extra) && exists ref :: Find(es, "$ref") == Some(VStr(ref))
  {
    NoneIsNil(es, "$ref");
    SiblingsAre(es, extra);
    SortedIsEmpty(Extra(es));
    if HasRef(es) { assert Find(es, "$ref") == Some(VStr(Get(es, "$ref").text)); }
  }

  lemma TypelessIff(es: seq<Entry>)
    ensures IsTypeless(es) <==>
            && !HasKey(es, "type") && !HasKey(es, "$ref")
            && ((exists vs :: Find(es, "enum") == Some(VList(vs)))
                || (HasKey(es, "const") && var c := Find(es, "const").value; !c.VMap? && !c.VList?))
  {
    NoneIsNil(es, "enum");
    NoneIsNil(es, "const");
    if Get(es, "enum").VList? { assert Find(es, "enum") == Some(VList(Get(es, "enum").items)); }
  }

  lemma SortedIsEmpty(s: seq<string>)
    ensures Strings.Sort(Strings.TextKey, s) == [] <==> s == []
  {
    assert |Strings.Sort(Strings.TextKey, s)| == |s|;
  }

  ghost predicate ShownAt(root: Value, path: seq<Step>, x: Seen) {
    At(root, path).Some? && x.ptr == Pointer(path) && Shows(x, At(root, path).value)
  }

  lemma {:induction false} DecodedAt(v: Value, path: seq<Step>)
    requires Decoded(v) && At(v, path).Some?
    ensures Decoded(At(v, path).value)
  {
    if path != [] {
      DecodedChild(v, path[0]);
      DecodedAt(Child(v, path[0]).value, path[1..]);
    }
  }

  lemma DecodedChild(v: Value, s: Step)
    requires Decoded(v) && Child(v, s).Some?
    ensures Decoded(Child(v, s).value)
  {
    match s {
      case Key(k) => DecodedGet(v.entries, k);
      case Index(i) => DecodedItem(v.items, i);
    }
  }

  /** The blind scan reports exactly what the places of the document show, wherever they are. */
  lemma ScanIsExact(root: Value, x: Seen)
    requires Decoded(root)
    ensures x in Scan(root, "") <==> exists path :: ShownAt(root, path, x)
  {
    if x in Scan(root, "") {
      var path := ScanHasAPlace(root, x);
      DecodedAt(root, path);
      ShowsIff(x, At(root, path).value);
      assert ShownAt(root, path, x);
    }
    if path :| ShownAt(root, path, x) {
      DecodedAt(root, path);
      ShowsIff(x, At(root, path).value);
      ScanTells(root, path, x);
    }
  }

  // ---- references --------------------------------------------------------------

  /** A reference into a section names one entry of it. */
  lemma ReferenceIff(ref: string, section: string)
    ensures RefInSection(ref, section) <==>
            '/' !in section && exists name :: IsReference(ref, section, name)
  {
    if RefInSection(ref, section) {
      var segs := Strings.Split(ref[2..], '/');
      ThreeSegments(ref, segs);
      Strings.SplitHasNoSeparator(ref[2..], '/');
      assert segs[1] in segs && segs[2] in segs;
      assert IsReference(ref, section, segs[2]);
    }
    if '/' !in section && exists name :: IsReference(ref, section, name) {
      var name :| IsReference(ref, section, name);
      SegmentsOf(section, name);
      BehindHash(section, name);
    }
  }

  ghost predicate IsReference(ref: string, section: string, name: string) {
    ref == "#/components/" + section + "/" + name && name != "" && '/' !in name
  }

  lemma SegmentsOf(section: string, name: string)
    requires '/' !in section && '/' !in name
    ensures Strings.Split("components" + ['/'] + section + ['/'] + name, '/') == ["components", section, name]
  {
    var front := "components" + ['/'] + section;
    Strings.SplitOfAppend(front, name, '/');
    Strings.SplitOfAppend("components", section, '/');
    Strings.SplitOfOne("components", '/');
    Strings.SplitOfOne(section, '/');
    Strings.SplitOfOne(name, '/');
  }

  lemma ThreeSegments(ref: string, segs: seq<string>)
    requires |ref| >= 2 && ref[..2] == "#/" && segs == Strings.Split(ref[2..], '/') && |segs| == 3
    requires segs[0] == "components"
    ensures ref == "#/components/" + segs[1] + "/" + segs[2]
  {
    Strings.JoinOfSplit(ref[2..], '/');
    JoinOfThree(segs);
    assert ref == ref[..2] + ref[2..];
  }

  lemma JoinOfThree(segs: seq<string>)
    requires |segs| == 3
    ensures Strings.Join(segs, '/') == segs[0] + ['/'] + segs[1] + ['/'] + segs[2]
  {
    var tail := segs[1..];
    assert tail[1..] == [segs[2]] && tail[0] == segs[1];
    assert Strings.Join([segs[2]], '/') == segs[2];
    assert Strings.Join(tail, '/') == segs[1] + ['/'] + segs[2];
    Strings.JoinThree(segs[0] + ['/'], segs[1] + ['/'], segs[2]);
  }

  predicate IsSection(s: string) {
    s == "schemas" || s == "parameters" || s == "responses" || s == "requestBodies" || s == "headers"
  }

  lemma SectionsAre(s: string)
    ensures s in SECTIONS <==> IsSection(s)
    ensures IsSection(s) ==> '/' !in s
  {
  }

  function EntryAt(root: seq<Entry>, section: string, k: string): Option<Value> {
    At(VMap(root), [Key("components"), Key(section), Key(k)])
  }

  ghost predicate IsThere(root: seq<Entry>, section: string, k: string) {
    EntryAt(root, section, k).Some? && EntryAt(root, section, k) != Some(VNil)
  }

  /** A reference resolves iff it names one of the five sections and, once unescaped, an entry of it. */
  lemma ResolvesIff(root: seq<Entry>, ref: string)
    ensures RefResolves(root, ref) <==> exists section, name :: ResolvesAs(root, ref, section, name)
  {
    if RefResolves(root, ref) {
      var segs := Strings.Split(ref[2..], '/');
      ThreeSegments(ref, segs);
      Strings.SplitHasNoSeparator(ref[2..], '/');
      assert segs[2] in segs && IsReference(ref, segs[1], segs[2]);
      SectionsAre(segs[1]);
      SectionResolvesIff(root, ref, segs[1], segs[2]);
      assert ResolvesAs(root, ref, segs[1], segs[2]);
    }
    if section, name :| ResolvesAs(root, ref, section, name) { SectionResolvesIff(root, ref, section, name); }
  }

  ghost predicate ResolvesAs(root: seq<Entry>, ref: string, section: string, name: string) {
    IsSection(section) && IsReference(ref, section, name) && IsThere(root, section, Unescape(name))
  }

  lemma SectionResolvesIff(root: seq<Entry>, ref: string, section: string, name: string)
    requires IsSection(section) && IsReference(ref, section, name)
    ensures RefResolves(root, ref) <==> IsThere(root, section, Unescape(name))
  {
    ReferenceSplits(ref, section, name);
    SectionsAre(section);
    EntryIs(root, section, Unescape(name));
    var comp := Get(root, "components");
    if comp.VMap? && Get(comp.entries, section).VMap? {
      NoneIsNil(Get(comp.entries, section).entries, Unescape(name));
    }
  }

  lemma ReferenceSplits(ref: string, section: string, name: string)
    requires IsSection(section) && IsReference(ref, section, name)
    ensures |ref| >= 2 && ref[..2] == "#/" && Strings.Split(ref[2..], '/') == ["components", section, name]
  {
    SectionsAre(section);
    SegmentsOf(section, name);
    BehindHash(section, name);
  }

  lemma BehindHash(section: string, name: string)
    ensures ("#/components/" + section + "/" + name)[..2] == "#/"
    ensures ("#/components/" + section + "/" + name)[2..] == "components" + ['/'] + section + ['/'] + name
  {
    assert "#/components/" == "#/" + ("components" + ['/']);
  }

  lemma StepOfAt(v: Value, s: Step, path: seq<Step>)
    ensures At(v, [s] + path) == match Child(v, s) case None => None case Some(c) => At(c, path)
  {
    assert ([s] + path)[1..] == path;
  }

  lemma KeyOfAt(es: seq<Entry>, k: string, path: seq<Step>)
    ensures At(VMap(es), [Key(k)] + path) == if HasKey(es, k) then At(Get(es, k), path) else None
  {
    StepOfAt(VMap(es), Key(k), path);
  }

  lemma EntryIs(root: seq<Entry>, section: string, k: string)
    ensures var comp := Get(root, "components");
            EntryAt(root, section, k) ==
            if comp.VMap? && Get(comp.entries, section).VMap? then Find(Get(comp.entries, section).entries, k) else None
  {
    assert [Key("components"), Key(section), Key(k)] == [Key("components")] + [Key(section), Key(k)];
    KeyOfAt(root, "components", [Key(section), Key(k)]);
    InSection(Get(root, "components"), section, k);
  }

  lemma InSection(comp: Value, section: string, k: string)
    ensures At(comp, [Key(section), Key(k)]) ==
            if comp.VMap? && Get(comp.entries, section).VMap? then Find(Get(comp.entries, section).entries, k) else None
  {
    assert [Key(section), Key(k)] == [Key(section)] + [Key(k)];
    StepOfAt(comp, Key(section), [Key(k)]);
    if comp.VMap? {
      KeyOfAt(comp.entries, section, [Key(k)]);
      InEntries(Get(comp.entries, section), k);
    }
  }

  lemma InEntries(v: Value, k: string)
    ensures At(v, [Key(k)]) == if v.VMap? then Find(v.entries, k) else None
  {
    assert [Key(k)] == [Key(k)] + [];
    StepOfAt(v, Key(k), []);
  }

  /** The reference written for an entry resolves iff the entry is there and not null. */
  lemma WrittenReferenceResolvesIff(root: seq<Entry>, section: string, k: string)
    requires IsSection(section) && k != ""
    ensures RefResolves(root, "#/components/" + section + "/" + Escape(k)) <==> IsThere(root, section, k)
  {
    EscapeHasNoSlash(k);
    EscapeNext(k);
    UnescapeUndoesEscape(k);
    SectionResolvesIff(root, "#/components/" + section + "/" + Escape(k), section, Escape(k));
  }

  // ---- pointers ----------------------------------------------------------------

  /** A pointer is a slash before each step: a key with its tildes and slashes escaped, or an index in
      decimal. */
  lemma PointerIs(s: Step, path: seq<Step>, c: char, rest: string)
    ensures Pointer([]) == "" && Pointer([s] + path) == "/" + Text(s) + Pointer(path)
    ensures s.Key? ==> Text(s) == Escape(s.key)
    ensures Escape("") == ""
    ensures Escape([c] + rest) == (if c == '~' then "~0" else if c == '/' then "~1" else [c]) + Escape(rest)
  {
    PointerOfStep(s, path);
    EscapeNext([c] + rest);
    assert ([c] + rest)[1..] == rest;
  }

  /** What a decimal numeral is worth. */
  function Worth(s: string): int {
    if s == "" then 0 else 10 * Worth(s[..|s| - 1]) + (s[|s| - 1] as int - 48)
  }

  lemma DigitIs(d: nat)
    requires d < 10
    ensures "0123456789"[d] as int == 48 + d
  {
  }

  lemma {:induction false} IndexIsDecimal(n: nat)
    ensures var s := Text(Index(n));
            && Worth(s) == n && (forall i | 0 <= i < |s| :: 48 <= s[i] as int <= 57) && (s[0] == '0' ==> n == 0)
            && s != ""
  {
    var s := Decimal(n);
    DigitIs(n % 10);
    if n >= 10 {
      IndexIsDecimal(n / 10);
      assert s[..|s| - 1] == Decimal(n / 10);
    } else {
      assert s[..0] == "" && Worth("") == 0;
    }
  }

  // ---- the counts --------------------------------------------------------------

  /** Each word's count is the number of the nodes that declare it. */
  lemma {:induction false} DeclaringIs(walk: seq<Found>, word: string)
    ensures TextOriginReport.Declaring(walk, word)
            == |Declarers(walk, word)|
  {
    if walk != [] {
      var n := |walk| - 1;
      DeclaringIs(walk[..n], word);
      TextOriginReport.DeclaringNext(walk, n, word);
      assert walk[..n + 1] == walk;
      OneMoreDeclares(walk, n, word);
    }
  }

  lemma OneMoreDeclares(walk: seq<Found>, n: nat, word: string)
    requires |walk| == n + 1
    ensures Declarers(walk, word) == Declarers(walk[..n], word) + if DeclaresIt(walk[n], word) then {n} else {}
  {
    assert forall i | 0 <= i < n :: walk[..n][i] == walk[i];
  }

  predicate DeclaresIt(f: Found, word: string) { f.StringNode? && f.raw == VStr(word) }

  function Declarers(walk: seq<Found>, word: string): set<int> { set i | 0 <= i < |walk| && DeclaresIt(walk[i], word) }
}
