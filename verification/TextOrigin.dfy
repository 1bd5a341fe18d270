/** The declaration checker: every string schema in a document must say who chooses its bytes. The
    structured walk is checked against a blind scan of the whole document by JSON pointer, and an
    empty report means that the whole document is declared. Violations are values here; the rules
    of textorigin_static.go come in as a parameter. */
module TextOrigin {
  import opened Documents
  import opened TextOriginWalk
  import TextOriginRoles
  import Strings
  import opened Wrappers

  const VOCABULARY := ["participant-inline", "participant-block", "participant-opaque", "operator", "token", "enum"]

  // ---- references ------------------------------------------------------------

  const SECTIONS := ["schemas", "parameters", "responses", "requestBodies", "headers"]

  function RefInSection(ref: string, section: string): bool {
    |ref| >= 2 && ref[..2] == "#/" &&
    var segs := Strings.Split(ref[2..], '/');
    |segs| == 3 && segs[0] == "components" && segs[1] == section && segs[2] != ""
  }

  function RefResolves(root: seq<Entry>, ref: string): bool {
    |ref| >= 2 && ref[..2] == "#/" &&
    var segs := Strings.Split(ref[2..], '/');
    && |segs| == 3 && segs[0] == "components" && segs[1] in SECTIONS && segs[2] != ""
    && (var comp := Get(root, "components");
        comp.VMap? &&
        var section := Get(comp.entries, segs[1]);
        section.VMap? && Get(section.entries, Unescape(segs[2])) != VNil)
  }

  // ---- the blind scan --------------------------------------------------------

  datatype Seen =
    | StringTyped(ptr: string)
    | OriginKeyed(ptr: string)
    | RefAt(ptr: string, ref: string)
    | RefSiblings(ptr: string, extra: seq<string>)
    | Typeless(ptr: string)
    | NonStringKeys(ptr: string)

  function Extra(es: seq<Entry>): seq<string> {
    if es == [] then []
    else (if es[0].key !in ["$ref", "description", "summary"] then [es[0].key] else []) + Extra(es[1..])
  }

  predicate HasRef(es: seq<Entry>) { Get(es, "$ref").VStr? }

  predicate IsTypeless(es: seq<Entry>) {
    && !HasKey(es, "type") && !HasKey(es, "$ref")
    && (Get(es, "enum").VList? || (HasKey(es, "const") && !Get(es, "const").VMap? && !Get(es, "const").VList?))
  }

  function SeenInMap(es: seq<Entry>, ptr: string): seq<Seen> {
    (if IsStringType(es) then [StringTyped(ptr)] else [])
    + (if HasKey(es, KEY) then [OriginKeyed(ptr)] else [])
    + (if HasRef(es) then [RefAt(ptr, Get(es, "$ref").text)] else [])
    + (if HasRef(es) && Extra(es) != [] then [RefSiblings(ptr, Strings.Sort(Strings.TextKey, Extra(es)))]
       else [])
    + (if IsTypeless(es) then [Typeless(ptr)] else [])
  }

  function SeenHere(v: Value, ptr: string): seq<Seen> {
    match v
    case VMap(es) => SeenInMap(es, ptr)
    case VBadMap => [NonStringKeys(ptr)]
    case _ => []
  }

  function Scan(v: Value, ptr: string): seq<Seen>
    decreases v, 1, 0
  {
    SeenHere(v, ptr) + ScanBelow(v, ptr)
  }

  function ScanBelow(v: Value, ptr: string): seq<Seen>
    decreases v, 0, 0
  {
    match v
    case VMap(es) => ScanEntries(es, ptr)
    case VList(vs) => ScanItems(vs, ptr, 0)
    case _ => []
  }

  function ScanEntries(es: seq<Entry>, ptr: string): seq<Seen> {
    if es == [] then [] else Scan(es[0].value, ChildPtr(ptr, Key(es[0].key))) + ScanEntries(es[1..], ptr)
  }

  function ScanItems(vs: seq<Value>, ptr: string, i: nat): seq<Seen> {
    if vs == [] then [] else Scan(vs[0], ChildPtr(ptr, Index(i))) + ScanItems(vs[1..], ptr, i + 1)
  }

  lemma InOneOf(x: Seen, a: seq<Seen>, b: seq<Seen>)
    ensures x in a + b <==> x in a || x in b
  {
  }

  lemma EntriesAre(es: seq<Entry>, ptr: string, x: Seen)
    requires es != []
    ensures x in ScanEntries(es, ptr)
            <==> x in Scan(es[0].value, ChildPtr(ptr, Key(es[0].key))) || x in ScanEntries(es[1..], ptr)
  {
    InOneOf(x, Scan(es[0].value, ChildPtr(ptr, Key(es[0].key))), ScanEntries(es[1..], ptr));
  }

  lemma ItemsAre(vs: seq<Value>, ptr: string, i: nat, x: Seen)
    requires vs != []
    ensures x in ScanItems(vs, ptr, i)
            <==> x in Scan(vs[0], ChildPtr(ptr, Index(i))) || x in ScanItems(vs[1..], ptr, i + 1)
  {
    InOneOf(x, Scan(vs[0], ChildPtr(ptr, Index(i))), ScanItems(vs[1..], ptr, i + 1));
  }

  lemma ScanIs(v: Value, ptr: string, x: Seen)
    ensures x in Scan(v, ptr) <==> x in SeenHere(v, ptr) || x in ScanBelow(v, ptr)
  {
    InOneOf(x, SeenHere(v, ptr), ScanBelow(v, ptr));
  }

  lemma {:induction false} EntryIsScanned(es: seq<Entry>, k: string, c: Value, ptr: string, x: Seen)
    requires Find(es, k) == Some(c) && x in Scan(c, ChildPtr(ptr, Key(k)))
    ensures x in ScanEntries(es, ptr)
  {
    EntriesAre(es, ptr, x);
    if es[0].key != k { EntryIsScanned(es[1..], k, c, ptr, x); }
  }

  lemma {:induction false} ItemIsScanned(vs: seq<Value>, j: nat, i: nat, ptr: string, x: Seen)
    requires i <= j < |vs| && x in Scan(vs[j], ChildPtr(ptr, Index(j)))
    ensures x in ScanItems(vs[i..], ptr, i)
    decreases j - i
  {
    ItemsAre(vs[i..], ptr, i, x);
    if i < j {
      assert vs[i..][1..] == vs[i + 1..];
      ItemIsScanned(vs, j, i + 1, ptr, x);
    }
  }

  lemma BelowIsScanned(v: Value, s: Step, c: Value, ptr: string, x: Seen)
    requires Child(v, s) == Some(c) && x in Scan(c, ChildPtr(ptr, s))
    ensures x in Scan(v, ptr)
  {
    ScanIs(v, ptr, x);
    if v.VMap? {
      EntryIsScanned(v.entries, s.key, c, ptr, x);
    } else {
      assert v.items[0..] == v.items;
      ItemIsScanned(v.items, s.index, 0, ptr, x);
    }
  }

  /** The scan misses no place. */
  lemma {:induction false} ScanFinds(v: Value, ptr: string, path: seq<Step>, c: Value, place: string, x: Seen)
    requires At(v, path) == Some(c) && place == ptr + Pointer(path) && x in SeenHere(c, place)
    ensures x in Scan(v, ptr)
    decreases path
  {
    if path == [] {
      assert ptr + Pointer(path) == ptr;
      ScanIs(v, ptr, x);
    } else {
      var s, rest, w := path[0], path[1..], Child(v, path[0]).value;
      assert path == [s] + rest;
      StepDown(v, s, w, ptr, rest);
      ScanFinds(w, ChildPtr(ptr, s), rest, c, place, x);
      BelowIsScanned(v, s, w, ptr, x);
    }
  }

  /** What the scan reports is so, at the pointer it reports. */
  ghost predicate SeenAt(v: Value, ptr: string, path: seq<Step>, x: Seen) {
    At(v, path).Some? && x in SeenHere(At(v, path).value, ptr + Pointer(path))
  }

  lemma LiftSeen(v: Value, s: Step, c: Value, ptr: string, x: Seen, path: seq<Step>) returns (longer: seq<Step>)
    requires Child(v, s) == Some(c) && SeenAt(c, ChildPtr(ptr, s), path, x)
    ensures SeenAt(v, ptr, longer, x)
  {
    StepDown(v, s, c, ptr, path);
    longer := [s] + path;
  }

  lemma {:induction false} ScanDenotes(v: Value, ptr: string, x: Seen) returns (path: seq<Step>)
    requires Decoded(v) && x in Scan(v, ptr)
    ensures SeenAt(v, ptr, path, x)
    decreases v, 1, 0
  {
    ScanIs(v, ptr, x);
    if x in SeenHere(v, ptr) {
      path := [];
      assert ptr + Pointer(path) == ptr;
    } else if v.VMap? {
      assert v.entries[0..] == v.entries;
      path := EntriesDenote(v, 0, ptr, x);
    } else {
      assert v.items[0..] == v.items;
      path := ItemsDenote(v, 0, ptr, x);
    }
  }

  lemma {:induction false} EntriesDenote(v: Value, i: nat, ptr: string, x: Seen) returns (path: seq<Step>)
    requires Decoded(v) && v.VMap? && i <= |v.entries| && x in ScanEntries(v.entries[i..], ptr)
    ensures SeenAt(v, ptr, path, x)
    decreases v, 0, |v.entries| - i
  {
    var e := v.entries[i];
    DecodedFind(v.entries, i);
    assert v.entries[i..][1..] == v.entries[i + 1..];
    EntriesAre(v.entries[i..], ptr, x);
    if x in Scan(e.value, ChildPtr(ptr, Key(e.key))) {
      path := ScanDenotes(e.value, ChildPtr(ptr, Key(e.key)), x);
      path := LiftSeen(v, Key(e.key), e.value, ptr, x, path);
    } else {
      path := EntriesDenote(v, i + 1, ptr, x);
    }
  }

  lemma {:induction false} ItemsDenote(v: Value, i: nat, ptr: string, x: Seen) returns (path: seq<Step>)
    requires Decoded(v) && v.VList? && i <= |v.items| && x in ScanItems(v.items[i..], ptr, i)
    ensures SeenAt(v, ptr, path, x)
    decreases v, 0, |v.items| - i
  {
    var c := v.items[i];
    DecodedItem(v.items, i);
    assert v.items[i..][1..] == v.items[i + 1..];
    ItemsAre(v.items[i..], ptr, i, x);
    if x in Scan(c, ChildPtr(ptr, Index(i))) {
      path := ScanDenotes(c, ChildPtr(ptr, Index(i)), x);
      path := LiftSeen(v, Index(i), c, ptr, x, path);
    } else {
      path := ItemsDenote(v, i + 1, ptr, x);
    }
  }

  // ---- what the scan tells about one place -----------------------------------

  /** What a report says, its pointer aside. */
  predicate Tells(x: Seen, v: Value) {
    match x
    case StringTyped(_) => v.VMap? && IsStringType(v.entries)
    case OriginKeyed(_) => v.VMap? && HasKey(v.entries, KEY)
    case RefAt(_, ref) => v.VMap? && Get(v.entries, "$ref") == VStr(ref)
    case RefSiblings(_, extra) =>
      v.VMap? && HasRef(v.entries) && Extra(v.entries) != []
          && extra == Strings.Sort(Strings.TextKey, Extra(v.entries))
    case Typeless(_) => v.VMap? && IsTypeless(v.entries)
    case NonStringKeys(_) => v.VBadMap?
  }

  lemma InFive(x: Seen, a: seq<Seen>, b: seq<Seen>, c: seq<Seen>, d: seq<Seen>, e: seq<Seen>)
    ensures x in a + b + c + d + e <==> x in a || x in b || x in c || x in d || x in e
  {
  }

  lemma SeenInMapIff(es: seq<Entry>, ptr: string, x: Seen)
    ensures x in SeenInMap(es, ptr) <==> x.ptr == ptr && Tells(x, VMap(es))
  {
    var typed := if IsStringType(es) then [StringTyped(ptr)] else [];
    var keyed := if HasKey(es, KEY) then [OriginKeyed(ptr)] else [];
    var ref := if HasRef(es) then [RefAt(ptr, Get(es, "$ref").text)] else [];
    var extra := Strings.Sort(Strings.TextKey, Extra(es));
    var siblings := if HasRef(es) && Extra(es) != [] then [RefSiblings(ptr, extra)] else [];
    var typeless := if IsTypeless(es) then [Typeless(ptr)] else [];
    InFive(x, typed, keyed, ref, siblings, typeless);
    TellsIs(x, es, ptr);
    assert SeenInMap(es, ptr) == typed + keyed + ref + siblings + typeless;
  }

  lemma TellsIs(x: Seen, es: seq<Entry>, ptr: string)
    ensures x.ptr == ptr && Tells(x, VMap(es)) <==>
            || (IsStringType(es) && x == StringTyped(ptr)) || (HasKey(es, KEY) && x == OriginKeyed(ptr))
            || (HasRef(es) && x == RefAt(ptr, Get(es, "$ref").text))
            || (HasRef(es) && Extra(es) != [] && x == RefSiblings(ptr, Strings.Sort(Strings.TextKey, Extra(es))))
            || (IsTypeless(es) && x == Typeless(ptr))
  {
  }

  lemma SeenHereIff(v: Value, ptr: string, x: Seen)
    ensures x in SeenHere(v, ptr) <==> x.ptr == ptr && Tells(x, v)
  {
    if v.VMap? { SeenInMapIff(v.entries, ptr, x); }
  }

  /** At every place the scan reports exactly what is there. */
  lemma ScanTells(root: Value, path: seq<Step>, x: Seen)
    requires Decoded(root) && At(root, path).Some? && x.ptr == Pointer(path)
    ensures x in Scan(root, "") <==> Tells(x, At(root, path).value)
  {
    var v := At(root, path).value;
    assert "" + Pointer(path) == Pointer(path);
    SeenHereIff(v, Pointer(path), x);
    if Tells(x, v) {
      ScanFinds(root, "", path, v, Pointer(path), x);
    }
    if x in Scan(root, "") {
      var other := ScanDenotes(root, "", x);
      assert "" + Pointer(other) == Pointer(other);
      SeenHereIff(At(root, other).value, Pointer(other), x);
      PointerIsInjective(root, path, other);
    }
  }

  /** Nothing is reported of no place. */
  lemma ScanHasAPlace(root: Value, x: Seen) returns (path: seq<Step>)
    requires Decoded(root) && x in Scan(root, "")
    ensures At(root, path).Some? && x.ptr == Pointer(path) && Tells(x, At(root, path).value)
  {
    path := ScanDenotes(root, "", x);
    assert "" + Pointer(path) == Pointer(path);
    SeenHereIff(At(root, path).value, Pointer(path), x);
  }

  // ---- the report ------------------------------------------------------------

  datatype Violation =
    | NoNodes
    | Undeclared(ptr: string)
    | NotInVocabulary(ptr: string, word: string)
    | NotAWord(ptr: string)
    | Unreached(ptr: string)
    | Misplaced(ptr: string)
    | NoType(ptr: string)
    | Siblings(ptr: string, extra: seq<string>)
    | Static(message: string)
    | WrongSection(ptr: string, ref: string, section: string)
    | BadKeys(ptr: string)
    | Unresolved(ptr: string, ref: string)

  ghost predicate IsNode(walk: seq<Found>, ptr: string, raw: Value) {
    exists hasEnum :: StringNode(ptr, raw, hasEnum) in walk
  }

  ghost predicate IsWalked(walk: seq<Found>, ptr: string) { exists raw :: IsNode(walk, ptr, raw) }

  /** The lines of the report. */
  ghost predicate Reported(root: seq<Entry>, walk: seq<Found>, scan: seq<Seen>, rules: seq<string>, x: Violation) {
    match x
    case NoNodes => forall f | f in walk :: !f.StringNode?
    case Undeclared(p) => IsNode(walk, p, VNil)
    case NotInVocabulary(p, w) => IsNode(walk, p, VStr(w)) && w !in VOCABULARY
    case NotAWord(p) => exists raw :: IsNode(walk, p, raw) && !raw.VNil? && !raw.VStr?
    case Unreached(p) => StringTyped(p) in scan && !IsWalked(walk, p)
    case Misplaced(p) => OriginKeyed(p) in scan && StringTyped(p) !in scan
    case NoType(p) => TypelessNode(p) in walk || Typeless(p) in scan
    case Siblings(p, extra) => RefSiblings(p, extra) in scan
    case Static(m) => m in rules
    case WrongSection(p, ref, section) => PositionedRef(p, ref, section) in walk && !RefInSection(ref, section)
    case BadKeys(p) => NonStringKeys(p) in scan
    case Unresolved(p, ref) => RefAt(p, ref) in scan && !RefResolves(root, ref)
  }

  // ---- what an empty report means --------------------------------------------

  ghost predicate MapAt(root: seq<Entry>, path: seq<Step>, es: seq<Entry>) { At(VMap(root), path) == Some(VMap(es)) }

  predicate Declares(es: seq<Entry>) {
    if IsStringType(es) then Get(es, KEY).VStr? && Get(es, KEY).text in VOCABULARY else !HasKey(es, KEY)
  }

  /** Every mapping anywhere: a string schema carries one of the six words, nothing else the key. */
  ghost predicate Declared(root: seq<Entry>) { forall path, es | MapAt(root, path, es) :: Declares(es) }

  ghost predicate KeyedByStrings(root: seq<Entry>) { forall path :: At(VMap(root), path) != Some(VBadMap) }

  predicate GoodRef(root: seq<Entry>, es: seq<Entry>) {
    HasRef(es) ==> RefResolves(root, Get(es, "$ref").text) && Extra(es) == []
  }

  ghost predicate RefsAreGood(root: seq<Entry>) { forall path, es | MapAt(root, path, es) :: GoodRef(root, es) }

  ghost predicate EnumsAreTyped(root: seq<Entry>) { forall path, es | MapAt(root, path, es) :: !IsTypeless(es) }

  /** The walk reaches every string schema, and at least one. */
  ghost predicate Reaches(root: seq<Entry>, walk: seq<Found>) {
    && (exists f | f in walk :: f.StringNode?)
    && forall path, es | MapAt(root, path, es) && IsStringType(es) :: IsWalked(walk, Pointer(path))
  }

  ghost predicate WalkIsGood(walk: seq<Found>) {
    forall f | f in walk :: !f.TypelessNode? && (f.PositionedRef? ==> RefInSection(f.ref, f.section))
  }

  lemma NodeIsThere(root: seq<Entry>, path: seq<Step>, es: seq<Entry>, raw: Value)
    requires DecodedEntries(root) && MapAt(root, path, es) && IsNode(Walk(root), Pointer(path), raw)
    ensures IsStringType(es) && raw == Get(es, KEY)
  {
    var h :| StringNode(Pointer(path), raw, h) in Walk(root);
    var f := StringNode(Pointer(path), raw, h);
    TextOriginRoles.WalkDenotes(root);
    assert Denotes(f, VMap(root), "");
    var other :| DenotesAt(f, VMap(root), "", other);
    assert "" + Pointer(other) == Pointer(other);
    PointerIsInjective(VMap(root), path, other);
  }

  lemma NodeHasAPlace(root: seq<Entry>, ptr: string, raw: Value) returns (path: seq<Step>, es: seq<Entry>)
    requires DecodedEntries(root) && IsNode(Walk(root), ptr, raw)
    ensures MapAt(root, path, es) && ptr == Pointer(path) && IsStringType(es) && raw == Get(es, KEY)
  {
    var h :| StringNode(ptr, raw, h) in Walk(root);
    var f := StringNode(ptr, raw, h);
    TextOriginRoles.WalkDenotes(root);
    assert Denotes(f, VMap(root), "");
    path :| DenotesAt(f, VMap(root), "", path);
    assert "" + Pointer(path) == Pointer(path);
    es := At(VMap(root), path).value.entries;
  }

  ghost predicate NothingReported(root: seq<Entry>, walk: seq<Found>, scan: seq<Seen>, rules: seq<string>) {
    forall x :: !Reported(root, walk, scan, rules, x)
  }

  /** A clean report makes a declared place: for each mapping, wherever it stands. */
  lemma CleanDeclares(root: seq<Entry>, walk: seq<Found>, scan: seq<Seen>, rules: seq<string>, p: string,
                      es: seq<Entry>)
    requires NothingReported(root, walk, scan, rules)
    requires StringTyped(p) in scan <==> IsStringType(es)
    requires OriginKeyed(p) in scan <==> HasKey(es, KEY)
    requires forall raw | IsNode(walk, p, raw) :: raw == Get(es, KEY)
    ensures Declares(es) && (IsStringType(es) ==> IsWalked(walk, p))
  {
    assert !Reported(root, walk, scan, rules, Unreached(p)) && !Reported(root, walk, scan, rules, Misplaced(p));
    if IsStringType(es) {
      var raw :| IsNode(walk, p, raw);
      assert !Reported(root, walk, scan, rules, Undeclared(p)) && !Reported(root, walk, scan, rules, NotAWord(p));
      if raw.VStr? { assert !Reported(root, walk, scan, rules, NotInVocabulary(p, raw.text)); }
    }
  }

  lemma CleanRefers(root: seq<Entry>, walk: seq<Found>, scan: seq<Seen>, rules: seq<string>, p: string,
                    es: seq<Entry>, extra: seq<string>)
    requires NothingReported(root, walk, scan, rules)
    requires HasRef(es) ==> RefAt(p, Get(es, "$ref").text) in scan
    requires HasRef(es) && Extra(es) != [] ==> RefSiblings(p, extra) in scan
    ensures GoodRef(root, es)
  {
    if HasRef(es) {
      assert !Reported(root, walk, scan, rules, Unresolved(p, Get(es, "$ref").text));
      assert !Reported(root, walk, scan, rules, Siblings(p, extra));
    }
  }

  lemma StringIsSeen(root: Value, scan: seq<Seen>, path: seq<Step>, es: seq<Entry>)
    requires Decoded(root) && At(root, path) == Some(VMap(es)) && scan == Scan(root, "")
    ensures StringTyped(Pointer(path)) in scan <==> IsStringType(es)
  {
    ScanTells(root, path, StringTyped(Pointer(path)));
  }

  lemma KeyIsSeen(root: Value, scan: seq<Seen>, path: seq<Step>, es: seq<Entry>)
    requires Decoded(root) && At(root, path) == Some(VMap(es)) && scan == Scan(root, "")
    ensures OriginKeyed(Pointer(path)) in scan <==> HasKey(es, KEY)
  {
    ScanTells(root, path, OriginKeyed(Pointer(path)));
  }

  lemma TypelessIsSeen(root: Value, scan: seq<Seen>, path: seq<Step>, es: seq<Entry>)
    requires Decoded(root) && At(root, path) == Some(VMap(es)) && scan == Scan(root, "")
    ensures Typeless(Pointer(path)) in scan <==> IsTypeless(es)
  {
    ScanTells(root, path, Typeless(Pointer(path)));
  }

  lemma RefIsSeen(root: Value, scan: seq<Seen>, path: seq<Step>, es: seq<Entry>, extra: seq<string>)
    requires Decoded(root) && At(root, path) == Some(VMap(es)) && scan == Scan(root, "")
    requires extra == Strings.Sort(Strings.TextKey, Extra(es))
    ensures HasRef(es) ==> RefAt(Pointer(path), Get(es, "$ref").text) in scan
    ensures HasRef(es) && Extra(es) != [] ==> RefSiblings(Pointer(path), extra) in scan
  {
    if HasRef(es) { ScanTells(root, path, RefAt(Pointer(path), Get(es, "$ref").text)); }
    ScanTells(root, path, RefSiblings(Pointer(path), extra));
  }

  /** The scan and the walk tell the truth about the mapping at `p`. */
  ghost predicate SeenRight(walk: seq<Found>, scan: seq<Seen>, p: string, es: seq<Entry>, extra: seq<string>) {
    && (StringTyped(p) in scan <==> IsStringType(es))
    && (OriginKeyed(p) in scan <==> HasKey(es, KEY))
    && (Typeless(p) in scan <==> IsTypeless(es))
    && (HasRef(es) ==> RefAt(p, Get(es, "$ref").text) in scan)
    && (HasRef(es) && Extra(es) != [] ==> RefSiblings(p, extra) in scan)
    && (forall raw | IsNode(walk, p, raw) :: raw == Get(es, KEY))
  }

  lemma PlaceIsSeenRight(root: seq<Entry>, walk: seq<Found>, scan: seq<Seen>, path: seq<Step>, es: seq<Entry>)
    returns (extra: seq<string>)
    requires DecodedEntries(root) && MapAt(root, path, es) && walk == Walk(root) && scan == Scan(VMap(root), "")
    ensures SeenRight(walk, scan, Pointer(path), es, extra)
  {
    extra := Strings.Sort(Strings.TextKey, Extra(es));
    StringIsSeen(VMap(root), scan, path, es);
    KeyIsSeen(VMap(root), scan, path, es);
    TypelessIsSeen(VMap(root), scan, path, es);
    RefIsSeen(VMap(root), scan, path, es, extra);
    forall raw | IsNode(walk, Pointer(path), raw) ensures raw == Get(es, KEY) { NodeIsThere(root, path, es, raw); }
  }

  lemma CleanMap(root: seq<Entry>, walk: seq<Found>, scan: seq<Seen>, rules: seq<string>, p: string, es: seq<Entry>,
                 extra: seq<string>)
    requires NothingReported(root, walk, scan, rules) && SeenRight(walk, scan, p, es, extra)
    ensures Declares(es) && GoodRef(root, es) && !IsTypeless(es)
    ensures IsStringType(es) ==> IsWalked(walk, p)
  {
    assert !Reported(root, walk, scan, rules, NoType(p));
    CleanDeclares(root, walk, scan, rules, p, es);
    CleanRefers(root, walk, scan, rules, p, es, extra);
  }

  lemma CleanPlace(root: seq<Entry>, walk: seq<Found>, scan: seq<Seen>, rules: seq<string>, path: seq<Step>,
                   es: seq<Entry>)
    requires NothingReported(root, walk, scan, rules)
    requires DecodedEntries(root) && MapAt(root, path, es) && walk == Walk(root) && scan == Scan(VMap(root), "")
    ensures Declares(es) && GoodRef(root, es) && !IsTypeless(es)
    ensures IsStringType(es) ==> IsWalked(walk, Pointer(path))
  {
    var extra := PlaceIsSeenRight(root, walk, scan, path, es);
    CleanMap(root, walk, scan, rules, Pointer(path), es, extra);
  }

  lemma CleanWalk(root: seq<Entry>, walk: seq<Found>, scan: seq<Seen>, rules: seq<string>)
    requires NothingReported(root, walk, scan, rules)
    ensures WalkIsGood(walk) && rules == [] && exists f | f in walk :: f.StringNode?
  {
    assert !Reported(root, walk, scan, rules, NoNodes);
    forall f | f in walk ensures !f.TypelessNode? && (f.PositionedRef? ==> RefInSection(f.ref, f.section)) {
      assert !Reported(root, walk, scan, rules, NoType(f.ptr));
      if f.PositionedRef? { assert !Reported(root, walk, scan, rules, WrongSection(f.ptr, f.ref, f.section)); }
    }
    forall m ensures m !in rules { assert !Reported(root, walk, scan, rules, Static(m)); }
    Strings.HasElement(rules);
  }

  lemma CleanKeys(root: seq<Entry>, walk: seq<Found>, scan: seq<Seen>, rules: seq<string>)
    requires NothingReported(root, walk, scan, rules)
    requires DecodedEntries(root) && scan == Scan(VMap(root), "")
    ensures KeyedByStrings(root)
  {
    forall path ensures At(VMap(root), path) != Some(VBadMap) {
      NoBadKeys(root, walk, scan, rules, Pointer(path));
      if At(VMap(root), path).Some? { BadMapIsSeen(VMap(root), scan, path); }
    }
  }

  lemma NoBadKeys(root: seq<Entry>, walk: seq<Found>, scan: seq<Seen>, rules: seq<string>, p: string)
    requires NothingReported(root, walk, scan, rules)
    ensures NonStringKeys(p) !in scan
  {
    assert !Reported(root, walk, scan, rules, BadKeys(p));
  }

  lemma BadMapIsSeen(root: Value, scan: seq<Seen>, path: seq<Step>)
    requires Decoded(root) && At(root, path).Some? && scan == Scan(root, "")
    ensures NonStringKeys(Pointer(path)) in scan <==> At(root, path) == Some(VBadMap)
  {
    ScanTells(root, path, NonStringKeys(Pointer(path)));
  }

  ghost predicate AllIsGood(root: seq<Entry>, walk: seq<Found>, rules: seq<string>) {
    && Declared(root) && KeyedByStrings(root) && RefsAreGood(root) && EnumsAreTyped(root)
    && Reaches(root, walk) && WalkIsGood(walk) && rules == []
  }

  lemma CleanIsGood(root: seq<Entry>, walk: seq<Found>, scan: seq<Seen>, rules: seq<string>)
    requires DecodedEntries(root) && walk == Walk(root) && scan == Scan(VMap(root), "")
    requires NothingReported(root, walk, scan, rules)
    ensures AllIsGood(root, walk, rules)
  {
    CleanWalk(root, walk, scan, rules);
    CleanKeys(root, walk, scan, rules);
    forall path, es | MapAt(root, path, es)
      ensures Declares(es) && GoodRef(root, es) && !IsTypeless(es)
      ensures IsStringType(es) ==> IsWalked(walk, Pointer(path))
    {
      CleanPlace(root, walk, scan, rules, path, es);
    }
  }

  /** The report is empty iff the whole document is declared and well referenced, and the walk
      reaches every string schema. */
  lemma CleanIff(root: seq<Entry>, rules: seq<string>)
    requires DecodedEntries(root)
    ensures NothingReported(root, Walk(root), Scan(VMap(root), ""), rules) <==> AllIsGood(root, Walk(root), rules)
  {
    var walk, scan := Walk(root), Scan(VMap(root), "");
    if NothingReported(root, walk, scan, rules) {
      CleanIsGood(root, walk, scan, rules);
    }
    if AllIsGood(root, walk, rules) {
      GoodReports(root, walk, scan);
      GoodNodes(root, walk);
      forall x ensures !Reported(root, walk, scan, rules, x) { NoLine(root, walk, scan, x); }
    }
  }

  lemma GoodScan(root: seq<Entry>, walk: seq<Found>, scan: seq<Seen>, s: Seen)
    requires DecodedEntries(root) && scan == Scan(VMap(root), "") && AllIsGood(root, walk, []) && s in scan
    ensures s.StringTyped? || s.OriginKeyed? || (s.RefAt? && RefResolves(root, s.ref))
    ensures s.StringTyped? ==> IsWalked(walk, s.ptr)
    ensures s.OriginKeyed? ==> StringTyped(s.ptr) in scan
  {
    var path := ScanHasAPlace(VMap(root), s);
    var v := At(VMap(root), path).value;
    assert v.VMap?;
    assert MapAt(root, path, v.entries);
    assert Declares(v.entries) && GoodRef(root, v.entries) && !IsTypeless(v.entries);
    StringIsSeen(VMap(root), scan, path, v.entries);
  }

  /** With every report of the two walks in order, there is no line to write. */
  lemma NoLine(root: seq<Entry>, walk: seq<Found>, scan: seq<Seen>, x: Violation)
    requires exists f | f in walk :: f.StringNode?
    requires WalkIsGood(walk)
    requires forall p, raw | IsNode(walk, p, raw) :: raw.VStr? && raw.text in VOCABULARY
    requires forall s | s in scan :: InOrder(root, walk, scan, s)
    ensures !Reported(root, walk, scan, [], x)
  {
    match x {
      case NoNodes =>
      case Undeclared(p) =>
      case NotInVocabulary(p, _) =>
      case NotAWord(p) =>
      case Unreached(p) => assert StringTyped(p) in scan ==> InOrder(root, walk, scan, StringTyped(p));
      case Misplaced(p) => assert OriginKeyed(p) in scan ==> InOrder(root, walk, scan, OriginKeyed(p));
      case NoType(p) => assert Typeless(p) in scan ==> InOrder(root, walk, scan, Typeless(p));
      case Siblings(p, extra) =>
        assert RefSiblings(p, extra) in scan
               ==> InOrder(root, walk, scan, RefSiblings(p, extra));
      case Static(_) =>
      case WrongSection(p, ref, section) =>
      case BadKeys(p) => assert NonStringKeys(p) in scan ==> InOrder(root, walk, scan, NonStringKeys(p));
      case Unresolved(p, ref) => assert RefAt(p, ref) in scan ==> InOrder(root, walk, scan, RefAt(p, ref));
    }
  }

  ghost predicate InOrder(root: seq<Entry>, walk: seq<Found>, scan: seq<Seen>, s: Seen) {
    match s
    case StringTyped(p) => IsWalked(walk, p)
    case OriginKeyed(p) => StringTyped(p) in scan
    case RefAt(_, ref) => RefResolves(root, ref)
    case RefSiblings(_, _) => false
    case Typeless(_) => false
    case NonStringKeys(_) => false
  }

  lemma GoodReports(root: seq<Entry>, walk: seq<Found>, scan: seq<Seen>)
    requires DecodedEntries(root) && scan == Scan(VMap(root), "") && AllIsGood(root, walk, [])
    ensures forall s | s in scan :: InOrder(root, walk, scan, s)
  {
    forall s | s in scan ensures InOrder(root, walk, scan, s) { GoodScan(root, walk, scan, s); }
  }

  lemma GoodNodes(root: seq<Entry>, walk: seq<Found>)
    requires DecodedEntries(root) && walk == Walk(root) && Declared(root)
    ensures forall p, raw | IsNode(walk, p, raw) :: raw.VStr? && raw.text in VOCABULARY
  {
    forall p, raw | IsNode(walk, p, raw) ensures raw.VStr? && raw.text in VOCABULARY { DeclaredNodes(root, p); }
  }

  lemma DeclaredNodes(root: seq<Entry>, ptr: string)
    requires DecodedEntries(root) && Declared(root)
    ensures forall raw | IsNode(Walk(root), ptr, raw) :: raw.VStr? && raw.text in VOCABULARY
  {
    forall raw | IsNode(Walk(root), ptr, raw) ensures raw.VStr? && raw.text in VOCABULARY {
      var path, es := NodeHasAPlace(root, ptr, raw);
      assert Declares(es);
    }
  }
}
