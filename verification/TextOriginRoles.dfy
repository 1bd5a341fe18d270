/** Exactly what the structured walk reports: every schema, parameter, header, request body and response
    that stands at a place of an OpenAPI document where one may stand, and nothing else. The places are
    given by a small grammar of steps, without the walk. */
module TextOriginRoles {
  import opened Documents
  import opened TextOriginWalk
  import Strings
  import opened Wrappers

  // ---- the grammar of places ---------------------------------------------------

  datatype Role =
    | Document | Components | MapOf(of: Role) | ListOf(of: Role)
    | ASchema | AMedia | AParameter | AHeader | ABody | AResponse | APath | AnOperation
    | Nothing

  predicate IsMethod(k: string) {
    Strings.Lower(k) in {"get", "put", "post", "delete", "options", "head", "patch", "trace"}
  }

  function NextKey(r: Role, k: string): Role {
    match r
    case Document => if k == "components" then Components else if k == "paths" then MapOf(APath) else Nothing
    case Components =>
      if k == "schemas" then MapOf(ASchema)
      else if k == "parameters" then MapOf(AParameter)
      else if k == "responses" then MapOf(AResponse)
      else if k == "requestBodies" then MapOf(ABody)
      else if k == "headers" then MapOf(AHeader)
      else Nothing
    case MapOf(of) => of
    case ASchema =>
      if k == "properties" then MapOf(ASchema)
      else if k == "items" || k == "additionalProperties" then ASchema
      else if k == "allOf" || k == "anyOf" || k == "oneOf" then ListOf(ASchema)
      else Nothing
    case AMedia => if k == "schema" then ASchema else Nothing
    case AParameter => if k == "schema" then ASchema else if k == "content" then MapOf(AMedia) else Nothing
    case AHeader => if k == "schema" then ASchema else if k == "content" then MapOf(AMedia) else Nothing
    case ABody => if k == "content" then MapOf(AMedia) else Nothing
    case AResponse => if k == "content" then MapOf(AMedia) else if k == "headers" then MapOf(AHeader) else Nothing
    case APath => if k == "parameters" then ListOf(AParameter) else if IsMethod(k) then AnOperation else Nothing
    case AnOperation =>
      if k == "parameters" then ListOf(AParameter)
      else if k == "requestBody" then ABody
      else if k == "responses" then MapOf(AResponse)
      else Nothing
    case ListOf(_) => Nothing
    case Nothing => Nothing
  }

  function Next(r: Role, s: Step): Role {
    match s case Key(k) => NextKey(r, k) case Index(_) => if r.ListOf? then r.of else Nothing
  }

  function RoleAt(r: Role, path: seq<Step>): Role
    decreases |path|
  {
    if path == [] then r else RoleAt(Next(r, path[0]), path[1..])
  }

  // ---- what is told at a place -------------------------------------------------

  predicate HasStringType(es: seq<Entry>) {
    var t := Find(es, "type");
    t == Some(VStr("string")) || (t.Some? && t.value.VList? && VStr("string") in t.value.items)
  }

  predicate HasValues(es: seq<Entry>) { HasKey(es, "enum") || HasKey(es, "const") }

  function Section(r: Role): string {
    match r
    case ASchema => "schemas"
    case AParameter => "parameters"
    case AHeader => "headers"
    case ABody => "requestBodies"
    case AResponse => "responses"
    case _ => ""
  }

  predicate Tells(f: Found, r: Role, v: Value, ptr: string) {
    v.VMap? && f.ptr == ptr &&
    match f
    case StringNode(_, raw, hasEnum) =>
      && r.ASchema? && HasStringType(v.entries) && (hasEnum <==> HasValues(v.entries))
      && raw == (if HasKey(v.entries, "x-ctf-text-origin") then Find(v.entries, "x-ctf-text-origin").value else VNil)
    case TypelessNode(_) => r.ASchema? && HasValues(v.entries) && !HasKey(v.entries, "type")
    case PositionedRef(_, ref, section) =>
      Section(r) != "" && section == Section(r) && Find(v.entries, "$ref") == Some(VStr(ref))
  }

  ghost predicate UnderAt(r: Role, v: Value, ptr: string, f: Found, path: seq<Step>) {
    At(v, path).Some? && Tells(f, RoleAt(r, path), At(v, path).value, ptr + Pointer(path))
  }

  /** Something at or below v, which plays role r, tells f. */
  ghost predicate Under(r: Role, v: Value, ptr: string, f: Found) { exists path :: UnderAt(r, v, ptr, f, path) }

  ghost predicate UnderChild(r: Role, v: Value, ptr: string, f: Found, s: Step) {
    Child(v, s).Some? && Under(Next(r, s), Child(v, s).value, ChildPtr(ptr, s), f)
  }

  lemma HereIsUnder(r: Role, v: Value, ptr: string, f: Found)
    requires Tells(f, r, v, ptr)
    ensures Under(r, v, ptr, f)
  {
    assert ptr + Pointer([]) == ptr && UnderAt(r, v, ptr, f, []);
  }

  lemma BelowIsUnder(r: Role, v: Value, ptr: string, f: Found, s: Step)
    requires UnderChild(r, v, ptr, f, s)
    ensures Under(r, v, ptr, f)
  {
    var c := Child(v, s).value;
    var rest :| UnderAt(Next(r, s), c, ChildPtr(ptr, s), f, rest);
    StepDown(v, s, c, ptr, rest);
    var path := [s] + rest;
    assert path[0] == s && path[1..] == rest;
    assert UnderAt(r, v, ptr, f, path);
  }

  lemma UnderIsHereOrBelow(r: Role, v: Value, ptr: string, f: Found)
    requires Under(r, v, ptr, f)
    ensures Tells(f, r, v, ptr) || exists s :: UnderChild(r, v, ptr, f, s)
  {
    var path :| UnderAt(r, v, ptr, f, path);
    if path == [] {
      assert ptr + Pointer(path) == ptr;
    } else {
      var s, rest := path[0], path[1..];
      assert path == [s] + rest;
      StepDown(v, s, Child(v, s).value, ptr, rest);
      assert UnderAt(Next(r, s), Child(v, s).value, ChildPtr(ptr, s), f, rest);
      assert UnderChild(r, v, ptr, f, s);
    }
  }

  lemma UnderIff(r: Role, v: Value, ptr: string, f: Found)
    ensures Under(r, v, ptr, f) <==> Tells(f, r, v, ptr) || exists s :: UnderChild(r, v, ptr, f, s)
  {
    if Under(r, v, ptr, f) { UnderIsHereOrBelow(r, v, ptr, f); }
    if Tells(f, r, v, ptr) { HereIsUnder(r, v, ptr, f); }
    if s :| UnderChild(r, v, ptr, f, s) { BelowIsUnder(r, v, ptr, f, s); }
  }

  lemma {:induction false} NothingAt(path: seq<Step>)
    ensures RoleAt(Nothing, path) == Nothing
  {
    if path != [] { NothingAt(path[1..]); }
  }

  lemma NothingUnder(v: Value, ptr: string, f: Found)
    ensures !Under(Nothing, v, ptr, f)
  {
    forall path ensures !UnderAt(Nothing, v, ptr, f, path) { NothingAt(path); }
  }

  /** A place that is no mapping, and a list only in the role of one, tells nothing at all. */
  lemma NothingInScalar(r: Role, v: Value, ptr: string, f: Found)
    requires !v.VMap? && !(v.VList? && r.ListOf?)
    ensures !Under(r, v, ptr, f)
  {
    UnderIff(r, v, ptr, f);
    forall s ensures !UnderChild(r, v, ptr, f, s) {
      if v.VList? && s.Index? && s.index < |v.items| { NothingUnder(v.items[s.index], ChildPtr(ptr, s), f); }
    }
  }

  // ---- through keys, entries and elements --------------------------------------

  ghost predicate UnderKey(r: Role, es: seq<Entry>, ptr: string, f: Found, k: string) {
    Under(NextKey(r, k), Get(es, k), ChildPtr(ptr, Key(k)), f)
  }

  /** What `m[key]` tells is told below the mapping. */
  lemma KeyIsUnder(r: Role, v: Value, ptr: string, f: Found, k: string)
    requires v.VMap? && UnderKey(r, v.entries, ptr, f, k)
    ensures Under(r, v, ptr, f)
  {
    if HasKey(v.entries, k) {
      BelowIsUnder(r, v, ptr, f, Key(k));
    } else {
      NothingInScalar(NextKey(r, k), VNil, ChildPtr(ptr, Key(k)), f);
    }
  }

  /** Whatever is told below a mapping is told below a key that leads on. */
  lemma UnderHasKey(r: Role, v: Value, ptr: string, f: Found) returns (k: string)
    requires v.VMap? && Under(r, v, ptr, f) && !Tells(f, r, v, ptr)
    ensures NextKey(r, k) != Nothing && UnderKey(r, v.entries, ptr, f, k)
  {
    UnderIsHereOrBelow(r, v, ptr, f);
    var s :| UnderChild(r, v, ptr, f, s);
    NothingUnder(Child(v, s).value, ChildPtr(ptr, s), f);
    k := s.key;
  }

  /** A role with at most six keys leads on through these. */
  lemma UnderSix(r: Role, v: Value, ptr: string, f: Found, a: string, b: string, c: string, d: string, e: string,
                 g: string)
    requires v.VMap? && forall k | k != a && k != b && k != c && k != d && k != e && k != g :: NextKey(r, k) == Nothing
    ensures Under(r, v, ptr, f) <==>
            Tells(f, r, v, ptr) || UnderKey(r, v.entries, ptr, f, a) || UnderKey(r, v.entries, ptr, f, b)
            || UnderKey(r, v.entries, ptr, f, c) || UnderKey(r, v.entries, ptr, f, d)
            || UnderKey(r, v.entries, ptr, f, e) || UnderKey(r, v.entries, ptr, f, g)
  {
    if Tells(f, r, v, ptr) {
      HereIsUnder(r, v, ptr, f);
    } else if Under(r, v, ptr, f) {
      var k := UnderHasKey(r, v, ptr, f);
    }
    forall k | UnderKey(r, v.entries, ptr, f, k) ensures Under(r, v, ptr, f) { KeyIsUnder(r, v, ptr, f, k); }
  }

  /** fn reports, of a value in the role r, exactly what is told at or below it. */
  ghost predicate Exact(fs: seq<Found>, r: Role, v: Value, ptr: string) {
    forall f :: f in fs <==> Under(r, v, ptr, f)
  }

  ghost predicate Follows(fn: Walker, r: Role) {
    forall v, p | Decoded(v) :: Exact(fn(v, p), r, v, p)
  }

  ghost predicate UnderEntry(of: Role, es: seq<Entry>, ptr: string, f: Found, i: int) {
    0 <= i < |es| && Under(of, es[i].value, ChildPtr(ptr, Key(es[i].key)), f)
  }

  ghost predicate UnderItem(of: Role, vs: seq<Value>, ptr: string, f: Found, i: int) {
    0 <= i < |vs| && Under(of, vs[i], ChildPtr(ptr, Index(i)), f)
  }

  lemma UnderMapOf(of: Role, v: Value, ptr: string, f: Found)
    requires v.VMap? && Decoded(v)
    ensures Under(MapOf(of), v, ptr, f) <==> exists i :: UnderEntry(of, v.entries, ptr, f, i)
  {
    forall i | UnderEntry(of, v.entries, ptr, f, i) ensures Under(MapOf(of), v, ptr, f) {
      DecodedFind(v.entries, i);
      BelowIsUnder(MapOf(of), v, ptr, f, Key(v.entries[i].key));
    }
    if Under(MapOf(of), v, ptr, f) {
      UnderIsHereOrBelow(MapOf(of), v, ptr, f);
      var s :| UnderChild(MapOf(of), v, ptr, f, s);
      var i :| 0 <= i < |v.entries| && v.entries[i].key == s.key && v.entries[i].value == Child(v, s).value;
      assert UnderEntry(of, v.entries, ptr, f, i);
    }
  }

  lemma UnderListOf(of: Role, v: Value, ptr: string, f: Found)
    requires v.VList?
    ensures Under(ListOf(of), v, ptr, f) <==> exists i :: UnderItem(of, v.items, ptr, f, i)
  {
    UnderIff(ListOf(of), v, ptr, f);
    forall i | UnderItem(of, v.items, ptr, f, i) ensures exists s :: UnderChild(ListOf(of), v, ptr, f, s) {
      assert UnderChild(ListOf(of), v, ptr, f, Index(i));
    }
    forall s | UnderChild(ListOf(of), v, ptr, f, s) ensures exists i :: UnderItem(of, v.items, ptr, f, i) {
      assert UnderItem(of, v.items, ptr, f, s.index);
    }
  }

  /** Nothing stands below a value of the wrong kind. */
  lemma WrongKind(r: Role, v: Value, ptr: string)
    requires (r.MapOf? && !v.VMap?) || (r.ListOf? && !v.VList?) || (!r.MapOf? && !r.ListOf? && !v.VMap?)
    ensures Exact([], r, v, ptr)
  {
    forall f ensures !Under(r, v, ptr, f) {
      UnderIff(r, v, ptr, f);
      forall s ensures !UnderChild(r, v, ptr, f, s) {
        if Child(v, s).Some? { NothingUnder(Child(v, s).value, ChildPtr(ptr, s), f); }
      }
    }
  }

  // ---- the walk ----------------------------------------------------------------

  lemma {:induction false} EntriesAreWalked(es: seq<Entry>, ptr: string, fn: Walker, of: Role, f: Found)
    requires DecodedEntries(es) && Follows(fn, of)
    ensures f in EachEntry(es, ptr, fn) <==> exists i :: UnderEntry(of, es, ptr, f, i)
  {
    if es != [] {
      EntriesAreWalked(es[1..], ptr, fn, of, f);
      assert Exact(fn(es[0].value, ChildPtr(ptr, Key(es[0].key))), of, es[0].value, ChildPtr(ptr, Key(es[0].key)));
      forall i | UnderEntry(of, es[1..], ptr, f, i) ensures UnderEntry(of, es, ptr, f, i + 1) {
        assert es[1..][i] == es[i + 1];
      }
      forall i | UnderEntry(of, es, ptr, f, i) ensures i == 0 || UnderEntry(of, es[1..], ptr, f, i - 1) {
        if i > 0 { assert es[1..][i - 1] == es[i]; }
      }
      assert Under(of, es[0].value, ChildPtr(ptr, Key(es[0].key)), f) ==> UnderEntry(of, es, ptr, f, 0);
    }
  }

  lemma EachIs(v: Value, ptr: string, fn: Walker, of: Role)
    requires Decoded(v) && Follows(fn, of)
    ensures Exact(Each(v, ptr, fn), MapOf(of), v, ptr)
  {
    if v.VMap? {
      forall f ensures f in Each(v, ptr, fn) <==> Under(MapOf(of), v, ptr, f) {
        EntriesAreWalked(v.entries, ptr, fn, of, f);
        UnderMapOf(of, v, ptr, f);
      }
    } else {
      WrongKind(MapOf(of), v, ptr);
    }
  }

  lemma NoteIs(r: Role, v: Value, ptr: string, section: string, f: Found)
    requires Section(r) == section && section != ""
    ensures f in Note(v, ptr, section) <==> f.PositionedRef? && Tells(f, r, v, ptr)
  {
    if v.VMap? { NoneIsNil(v.entries, "$ref"); }
  }

  lemma NoneIsNil(es: seq<Entry>, k: string)
    ensures Find(es, k).Some? ==> Get(es, k) == Find(es, k).value
    ensures Find(es, k).None? ==> Get(es, k) == VNil
  {
  }

  lemma HereIs(es: seq<Entry>, ptr: string, f: Found)
    ensures f in SchemaHere(es, ptr) <==> !f.PositionedRef? && Tells(f, ASchema, VMap(es), ptr)
  {
    NoneIsNil(es, "type");
    NoneIsNil(es, KEY);
  }

  // ---- a schema's children -----------------------------------------------------

  ghost predicate LeadsThrough(c: SchemaChild, ptr: string, f: Found) {
    Under(ASchema, c.node, ptr + Pointer(c.path), f)
  }

  ghost predicate Leads(cs: seq<SchemaChild>, ptr: string, f: Found) {
    exists c :: c in cs && LeadsThrough(c, ptr, f)
  }

  lemma LeadsAppend(a: seq<SchemaChild>, b: seq<SchemaChild>, ptr: string, f: Found)
    ensures Leads(a + b, ptr, f) <==> Leads(a, ptr, f) || Leads(b, ptr, f)
  {
    forall c ensures c in a + b <==> c in a || c in b {}
  }

  lemma OneLeads(c: SchemaChild, ptr: string, f: Found)
    ensures Leads([c], ptr, f) <==> LeadsThrough(c, ptr, f)
  {
    assert c in [c];
  }

  lemma TwoSteps(ptr: string, k: string, s: Step)
    ensures ptr + Pointer([Key(k), s]) == ChildPtr(ChildPtr(ptr, Key(k)), s)
  {
    PointerStep(ptr, Key(k), [s]);
    PointerStep(ChildPtr(ptr, Key(k)), s, []);
    assert [Key(k)] + [s] == [Key(k), s] && [s] + [] == [s];
    assert ChildPtr(ChildPtr(ptr, Key(k)), s) + Pointer([]) == ChildPtr(ChildPtr(ptr, Key(k)), s);
  }

  lemma {:induction false} PropertiesLead(props: seq<Entry>, ptr: string, f: Found)
    ensures Leads(PropertyChildren(props), ptr, f)
            <==> exists i :: UnderEntry(ASchema, props, ChildPtr(ptr, Key("properties")), f, i)
  {
    var below := ChildPtr(ptr, Key("properties"));
    if props != [] {
      var c := SchemaChild([Key("properties"), Key(props[0].key)], props[0].value);
      PropertiesLead(props[1..], ptr, f);
      LeadsAppend([c], PropertyChildren(props[1..]), ptr, f);
      TwoSteps(ptr, "properties", Key(props[0].key));
      OneLeads(c, ptr, f);
      EntryFirst(ASchema, props, below, f);
      assert LeadsThrough(c, ptr, f) <==> UnderEntry(ASchema, props, below, f, 0);
    }
  }

  lemma EntryFirst(of: Role, es: seq<Entry>, ptr: string, f: Found)
    requires es != []
    ensures (exists i :: UnderEntry(of, es, ptr, f, i))
            <==> UnderEntry(of, es, ptr, f, 0) || exists i :: UnderEntry(of, es[1..], ptr, f, i)
  {
    forall i | UnderEntry(of, es[1..], ptr, f, i) ensures UnderEntry(of, es, ptr, f, i + 1) {
      assert es[1..][i] == es[i + 1];
    }
    forall i | UnderEntry(of, es, ptr, f, i) ensures i == 0 || UnderEntry(of, es[1..], ptr, f, i - 1) {
      if i > 0 { assert es[1..][i - 1] == es[i]; }
    }
  }

  lemma {:induction false} ListedLead(kw: string, vs: seq<Value>, i: nat, ptr: string, f: Found)
    requires i <= |vs|
    ensures Leads(ListChildren(kw, vs[i..], i), ptr, f)
            <==> exists j :: i <= j && UnderItem(ASchema, vs, ChildPtr(ptr, Key(kw)), f, j)
    decreases |vs| - i
  {
    if i < |vs| {
      var c := SchemaChild([Key(kw), Index(i)], vs[i]);
      assert vs[i..][1..] == vs[i + 1..];
      ListedLead(kw, vs, i + 1, ptr, f);
      LeadsAppend([c], ListChildren(kw, vs[i + 1..], i + 1), ptr, f);
      TwoSteps(ptr, kw, Index(i));
      OneLeads(c, ptr, f);
      assert LeadsThrough(c, ptr, f) <==> UnderItem(ASchema, vs, ChildPtr(ptr, Key(kw)), f, i);
    }
  }

  lemma PropertyIs(es: seq<Entry>, ptr: string, f: Found)
    requires DecodedEntries(es)
    ensures Leads(if Get(es, "properties").VMap? then PropertyChildren(Get(es, "properties").entries) else [], ptr, f)
            <==> UnderKey(ASchema, es, ptr, f, "properties")
  {
    var v, below := Get(es, "properties"), ChildPtr(ptr, Key("properties"));
    KeywordRoles();
    DecodedGet(es, "properties");
    if v.VMap? {
      PropertiesLead(v.entries, ptr, f);
      UnderMapOf(ASchema, v, below, f);
    } else {
      WrongKind(MapOf(ASchema), v, below);
    }
  }

  lemma MapChildIs(es: seq<Entry>, ptr: string, f: Found, kw: string)
    requires NextKey(ASchema, kw) == ASchema
    ensures Leads(MapChild(es, kw), ptr, f) <==> UnderKey(ASchema, es, ptr, f, kw)
  {
    var v, below := Get(es, kw), ChildPtr(ptr, Key(kw));
    PointerStep(ptr, Key(kw), []);
    assert [Key(kw)] + [] == [Key(kw)] && below + Pointer([]) == below;
    if v.VMap? {
      var c := SchemaChild([Key(kw)], v);
      OneLeads(c, ptr, f);
    } else {
      WrongKind(ASchema, v, below);
    }
  }

  lemma AlternativeIs(es: seq<Entry>, ptr: string, f: Found, kw: string)
    requires NextKey(ASchema, kw) == ListOf(ASchema)
    ensures Leads(AlternativeChildren(es, kw), ptr, f) <==> UnderKey(ASchema, es, ptr, f, kw)
  {
    var v, below := Get(es, kw), ChildPtr(ptr, Key(kw));
    if v.VList? {
      assert v.items[0..] == v.items;
      ListedLead(kw, v.items, 0, ptr, f);
      UnderListOf(ASchema, v, below, f);
      assert (exists j :: 0 <= j && UnderItem(ASchema, v.items, below, f, j))
             <==> exists j :: UnderItem(ASchema, v.items, below, f, j);
    } else {
      WrongKind(ListOf(ASchema), v, below);
    }
  }

  lemma SixLead(a: seq<SchemaChild>, b: seq<SchemaChild>, c: seq<SchemaChild>, d: seq<SchemaChild>,
                e: seq<SchemaChild>, g: seq<SchemaChild>, ptr: string, f: Found)
    ensures Leads(a + b + c + d + e + g, ptr, f) <==>
            Leads(a, ptr, f) || Leads(b, ptr, f) || Leads(c, ptr, f) || Leads(d, ptr, f) || Leads(e, ptr, f)
            || Leads(g, ptr, f)
  {
    LeadsAppend(a, b, ptr, f);
    LeadsAppend(a + b, c, ptr, f);
    LeadsAppend(a + b + c, d, ptr, f);
    LeadsAppend(a + b + c + d, e, ptr, f);
    LeadsAppend(a + b + c + d + e, g, ptr, f);
  }

  lemma KeywordRoles()
    ensures NextKey(ASchema, "items") == NextKey(ASchema, "additionalProperties") == ASchema
    ensures NextKey(ASchema, "allOf") == NextKey(ASchema, "anyOf") == NextKey(ASchema, "oneOf") == ListOf(ASchema)
    ensures NextKey(ASchema, "properties") == MapOf(ASchema)
  {
  }

  lemma ChildrenLead(v: Value, ptr: string, f: Found)
    requires v.VMap? && Decoded(v)
    ensures Leads(SchemaChildren(v.entries), ptr, f)
            <==> UnderKey(ASchema, v.entries, ptr, f, "properties") || UnderKey(ASchema, v.entries, ptr, f, "items")
                 || UnderKey(ASchema, v.entries, ptr, f, "additionalProperties")
                 || UnderKey(ASchema, v.entries, ptr, f, "allOf") || UnderKey(ASchema, v.entries, ptr, f, "anyOf")
                 || UnderKey(ASchema, v.entries, ptr, f, "oneOf")
  {
    var es := v.entries;
    var a := if Get(es, "properties").VMap? then PropertyChildren(Get(es, "properties").entries) else [];
    var b, c := MapChild(es, "items"), MapChild(es, "additionalProperties");
    var d, e := AlternativeChildren(es, "allOf"), AlternativeChildren(es, "anyOf");
    SixLead(a, b, c, d, e, AlternativeChildren(es, "oneOf"), ptr, f);
    KeywordRoles();
    PropertyIs(es, ptr, f);
    MapChildIs(es, ptr, f, "items");
    MapChildIs(es, ptr, f, "additionalProperties");
    AlternativeIs(es, ptr, f, "allOf");
    AlternativeIs(es, ptr, f, "anyOf");
    AlternativeIs(es, ptr, f, "oneOf");
  }

  lemma SchemaTells(v: Value, ptr: string, f: Found)
    requires v.VMap?
    ensures f in Note(v, ptr, "schemas") || f in SchemaHere(v.entries, ptr) <==> Tells(f, ASchema, v, ptr)
  {
    NoteIs(ASchema, v, ptr, "schemas", f);
    HereIs(v.entries, ptr, f);
  }

  lemma SchemaOfParts(v: Value, ptr: string, f: Found)
    requires v.VMap? && Decoded(v)
    requires forall c | c in SchemaChildren(v.entries) :: Size(c.node) < Size(v)
    requires f in SchemaEach(SchemaChildren(v.entries), ptr, Size(v)) <==> Leads(SchemaChildren(v.entries), ptr, f)
    ensures f in Schema(v, ptr) <==> Under(ASchema, v, ptr, f)
  {
    SchemaParts(v, ptr, f);
    SchemaTells(v, ptr, f);
    ChildrenLead(v, ptr, f);
    UnderSix(ASchema, v, ptr, f, "properties", "items", "additionalProperties", "allOf", "anyOf", "oneOf");
  }

  lemma {:induction false} SchemaIs(v: Value, ptr: string, f: Found)
    requires Decoded(v)
    ensures f in Schema(v, ptr) <==> Under(ASchema, v, ptr, f)
    decreases Size(v), 1, 0
  {
    if v.VMap? {
      var cs := SchemaChildren(v.entries);
      ChildrenAreSmaller(v.entries);
      ChildrenAreChildren(v);
      SchemaEachIs(v, cs, ptr, Size(v), f);
      SchemaOfParts(v, ptr, f);
    } else {
      WrongKind(ASchema, v, ptr);
    }
  }

  lemma SchemaParts(v: Value, ptr: string, f: Found)
    requires v.VMap?
    ensures (forall c | c in SchemaChildren(v.entries) :: Size(c.node) < Size(v))
    ensures f in Schema(v, ptr) <==>
            f in Note(v, ptr, "schemas") || f in SchemaHere(v.entries, ptr)
            || f in SchemaEach(SchemaChildren(v.entries), ptr, Size(v))
  {
    ChildrenAreSmaller(v.entries);
  }

  lemma {:induction false} SchemaEachIs(v: Value, cs: seq<SchemaChild>, ptr: string, size: nat, f: Found)
    requires forall c | c in cs :: Size(c.node) < size && IsChild(v, c)
    ensures f in SchemaEach(cs, ptr, size) <==> Leads(cs, ptr, f)
    decreases size, 0, |cs|
  {
    if cs != [] {
      SchemaIs(cs[0].node, ptr + Pointer(cs[0].path), f);
      SchemaEachIs(v, cs[1..], ptr, size, f);
      LeadsAppend([cs[0]], cs[1..], ptr, f);
      assert cs == [cs[0]] + cs[1..];
      OneLeads(cs[0], ptr, f);
    }
  }

  // ---- the other walkers -------------------------------------------------------

  lemma SchemasFollow()
    ensures Follows(Schema, ASchema)
  {
    forall v, p, f | Decoded(v) ensures f in Schema(v, p) <==> Under(ASchema, v, p, f) { SchemaIs(v, p, f); }
    assert forall v, p | Decoded(v) :: Exact(Schema(v, p), ASchema, v, p);
  }

  lemma SchemaKey(r: Role, v: Value, ptr: string, f: Found)
    requires v.VMap? && Decoded(v) && NextKey(r, "schema") == ASchema
    ensures f in MediaType(v, ptr) <==> UnderKey(r, v.entries, ptr, f, "schema")
  {
    DecodedGet(v.entries, "schema");
    SchemaIs(Get(v.entries, "schema"), ChildPtr(ptr, Key("schema")), f);
  }

  lemma MediaTypesFollow()
    ensures Follows(MediaType, AMedia)
  {
    forall v, p | Decoded(v) ensures Exact(MediaType(v, p), AMedia, v, p) {
      if v.VMap? {
        forall f ensures f in MediaType(v, p) <==> Under(AMedia, v, p, f) {
          SchemaKey(AMedia, v, p, f);
          UnderSix(AMedia, v, p, f, "schema", "schema", "schema", "schema", "schema", "schema");
        }
      } else {
        WrongKind(AMedia, v, p);
      }
    }
  }

  /** `m[key]` walked entry by entry. */
  lemma MapKey(r: Role, es: seq<Entry>, ptr: string, k: string, fn: Walker, of: Role, f: Found)
    requires DecodedEntries(es) && Follows(fn, of) && NextKey(r, k) == MapOf(of)
    ensures f in Each(Get(es, k), ChildPtr(ptr, Key(k)), fn) <==> UnderKey(r, es, ptr, f, k)
  {
    DecodedGet(es, k);
    EachIs(Get(es, k), ChildPtr(ptr, Key(k)), fn, of);
  }

  lemma ContentKey(r: Role, v: Value, ptr: string, f: Found)
    requires v.VMap? && Decoded(v) && NextKey(r, "content") == MapOf(AMedia)
    ensures f in Media(v, ptr) <==> UnderKey(r, v.entries, ptr, f, "content")
  {
    MediaTypesFollow();
    MapKey(r, v.entries, ptr, "content", MediaType, AMedia, f);
  }

  ghost predicate HoldsBody(r: Role, section: string) {
    && !r.ASchema? && Section(r) == section && section != ""
    && NextKey(r, "schema") == ASchema && NextKey(r, "content") == MapOf(AMedia)
    && forall k | k != "schema" && k != "content" :: NextKey(r, k) == Nothing
  }

  lemma BodiesAreHeld()
    ensures HoldsBody(AParameter, "parameters") && HoldsBody(AHeader, "headers")
  {
  }

  lemma InParamBody(v: Value, ptr: string, f: Found)
    ensures f in ParamBody(v, ptr) <==> f in MediaType(v, ptr) || f in Media(v, ptr)
  {
  }

  lemma ParamBodyIs(r: Role, v: Value, ptr: string, section: string, f: Found)
    requires v.VMap? && Decoded(v) && HoldsBody(r, section)
    ensures f in Note(v, ptr, section) || f in ParamBody(v, ptr) <==> Under(r, v, ptr, f)
  {
    NoteTells(r, v, ptr, section, f);
    InParamBody(v, ptr, f);
    SchemaKey(r, v, ptr, f);
    ContentKey(r, v, ptr, f);
    BodyKeys(r, v, ptr, section, f);
  }

  lemma NoteTells(r: Role, v: Value, ptr: string, section: string, f: Found)
    requires v.VMap? && !r.ASchema? && Section(r) == section && section != ""
    ensures f in Note(v, ptr, section) <==> Tells(f, r, v, ptr)
  {
    NoteIs(r, v, ptr, section, f);
  }

  lemma BodyKeys(r: Role, v: Value, ptr: string, section: string, f: Found)
    requires v.VMap? && HoldsBody(r, section)
    ensures Under(r, v, ptr, f) <==>
            Tells(f, r, v, ptr) || UnderKey(r, v.entries, ptr, f, "schema") || UnderKey(r, v.entries, ptr, f, "content")
  {
    UnderSix(r, v, ptr, f, "schema", "content", "content", "content", "content", "content");
  }

  lemma ParameterIs(v: Value, ptr: string, f: Found)
    requires Decoded(v) && v.VMap?
    ensures f in Parameter(v, ptr) <==> Under(AParameter, v, ptr, f)
  {
    BodiesAreHeld();
    ParamBodyIs(AParameter, v, ptr, "parameters", f);
  }

  lemma HeaderIs(v: Value, ptr: string, f: Found)
    requires Decoded(v) && v.VMap?
    ensures f in Header(v, ptr) <==> Under(AHeader, v, ptr, f)
  {
    BodiesAreHeld();
    ParamBodyIs(AHeader, v, ptr, "headers", f);
  }

  lemma ParametersFollow()
    ensures Follows(Parameter, AParameter)
  {
    forall v, p | Decoded(v) ensures Exact(Parameter(v, p), AParameter, v, p) {
      if v.VMap? {
        forall f ensures f in Parameter(v, p) <==> Under(AParameter, v, p, f) { ParameterIs(v, p, f); }
      } else {
        WrongKind(AParameter, v, p);
      }
    }
  }

  lemma HeadersFollow()
    ensures Follows(Header, AHeader)
  {
    forall v, p | Decoded(v) ensures Exact(Header(v, p), AHeader, v, p) {
      if v.VMap? {
        forall f ensures f in Header(v, p) <==> Under(AHeader, v, p, f) { HeaderIs(v, p, f); }
      } else {
        WrongKind(AHeader, v, p);
      }
    }
  }

  lemma FieldKey(r: Role, es: seq<Entry>, ptr: string, k: string, fn: Walker, f: Found)
    requires DecodedEntries(es) && Follows(fn, NextKey(r, k))
    ensures f in fn(Get(es, k), ChildPtr(ptr, Key(k))) <==> UnderKey(r, es, ptr, f, k)
  {
    DecodedGet(es, k);
  }

  lemma BodyIs(v: Value, ptr: string, f: Found)
    requires v.VMap? && Decoded(v)
    ensures f in RequestBody(v, ptr) <==> Under(ABody, v, ptr, f)
  {
    NoteIs(ABody, v, ptr, "requestBodies", f);
    ContentKey(ABody, v, ptr, f);
    UnderSix(ABody, v, ptr, f, "content", "content", "content", "content", "content", "content");
  }

  lemma BodiesFollow()
    ensures Follows(RequestBody, ABody)
  {
    forall v, p | Decoded(v) ensures Exact(RequestBody(v, p), ABody, v, p) {
      if v.VMap? {
        forall f ensures f in RequestBody(v, p) <==> Under(ABody, v, p, f) { BodyIs(v, p, f); }
      } else {
        WrongKind(ABody, v, p);
      }
    }
  }

  lemma ResponseIs(v: Value, ptr: string, f: Found)
    requires v.VMap? && Decoded(v)
    ensures f in Response(v, ptr) <==> Under(AResponse, v, ptr, f)
  {
    NoteIs(AResponse, v, ptr, "responses", f);
    ContentKey(AResponse, v, ptr, f);
    HeadersFollow();
    MapKey(AResponse, v.entries, ptr, "headers", Header, AHeader, f);
    UnderSix(AResponse, v, ptr, f, "content", "headers", "headers", "headers", "headers", "headers");
  }

  lemma ResponsesFollow()
    ensures Follows(Response, AResponse)
  {
    forall v, p | Decoded(v) ensures Exact(Response(v, p), AResponse, v, p) {
      if v.VMap? {
        forall f ensures f in Response(v, p) <==> Under(AResponse, v, p, f) { ResponseIs(v, p, f); }
      } else {
        WrongKind(AResponse, v, p);
      }
    }
  }

  lemma {:induction false} ParametersAreWalked(vs: seq<Value>, ptr: string, i: nat, f: Found)
    requires DecodedItems(vs) && i <= |vs| && Follows(Parameter, AParameter)
    ensures f in ParametersFrom(vs[i..], ptr, i) <==> exists j :: i <= j && UnderItem(AParameter, vs, ptr, f, j)
    decreases |vs| - i
  {
    if i < |vs| {
      DecodedItem(vs, i);
      assert vs[i..][1..] == vs[i + 1..];
      ParametersAreWalked(vs, ptr, i + 1, f);
      assert Exact(Parameter(vs[i], ChildPtr(ptr, Index(i))), AParameter, vs[i], ChildPtr(ptr, Index(i)));
      assert f in Parameter(vs[i], ChildPtr(ptr, Index(i))) <==> UnderItem(AParameter, vs, ptr, f, i);
    }
  }

  lemma ListKey(r: Role, es: seq<Entry>, ptr: string, f: Found)
    requires DecodedEntries(es) && NextKey(r, "parameters") == ListOf(AParameter)
    ensures f in ParameterList(Get(es, "parameters"), ChildPtr(ptr, Key("parameters")))
            <==> UnderKey(r, es, ptr, f, "parameters")
  {
    var v, below := Get(es, "parameters"), ChildPtr(ptr, Key("parameters"));
    DecodedGet(es, "parameters");
    if v.VList? {
      ParametersFollow();
      assert v.items[0..] == v.items;
      ParametersAreWalked(v.items, below, 0, f);
      UnderListOf(AParameter, v, below, f);
      assert (exists j :: 0 <= j && UnderItem(AParameter, v.items, below, f, j))
             <==> exists j :: UnderItem(AParameter, v.items, below, f, j);
    } else {
      WrongKind(ListOf(AParameter), v, below);
    }
  }

  lemma OperationKeys()
    ensures NextKey(AnOperation, "parameters") == ListOf(AParameter)
    ensures NextKey(AnOperation, "requestBody") == ABody
    ensures NextKey(AnOperation, "responses") == MapOf(AResponse)
  {
  }

  lemma BodyKey(es: seq<Entry>, ptr: string, f: Found)
    requires DecodedEntries(es)
    ensures f in RequestBody(Get(es, "requestBody"), ChildPtr(ptr, Key("requestBody")))
            <==> UnderKey(AnOperation, es, ptr, f, "requestBody")
  {
    BodiesFollow();
    OperationKeys();
    FieldKey(AnOperation, es, ptr, "requestBody", RequestBody, f);
  }

  lemma OperationIs(v: Value, ptr: string, f: Found)
    requires v.VMap? && Decoded(v)
    ensures f in Operation(v, ptr) <==> Under(AnOperation, v, ptr, f)
  {
    ListKey(AnOperation, v.entries, ptr, f);
    BodyKey(v.entries, ptr, f);
    ResponsesFollow();
    MapKey(AnOperation, v.entries, ptr, "responses", Response, AResponse, f);
    UnderSix(AnOperation, v, ptr, f, "parameters", "requestBody", "responses", "responses", "responses", "responses");
  }

  lemma OperationsFollow()
    ensures Follows(Operation, AnOperation)
  {
    forall v, p | Decoded(v) ensures Exact(Operation(v, p), AnOperation, v, p) {
      if v.VMap? {
        forall f ensures f in Operation(v, p) <==> Under(AnOperation, v, p, f) { OperationIs(v, p, f); }
      } else {
        WrongKind(AnOperation, v, p);
      }
    }
  }

  ghost predicate UnderMethod(es: seq<Entry>, ptr: string, f: Found, i: int) {
    0 <= i < |es| && IsMethod(es[i].key) && Under(AnOperation, es[i].value, ChildPtr(ptr, Key(es[i].key)), f)
  }

  lemma {:induction false} OperationsAreWalked(es: seq<Entry>, ptr: string, f: Found)
    requires DecodedEntries(es) && Follows(Operation, AnOperation)
    ensures f in Operations(es, ptr) <==> exists i :: UnderMethod(es, ptr, f, i)
  {
    if es != [] {
      OperationsAreWalked(es[1..], ptr, f);
      FirstIsWalked(es, ptr, f);
      MethodFirst(es, ptr, f);
    }
  }

  lemma IsMethodIff(k: string)
    ensures IsMethod(k) <==> Strings.Lower(k) in METHODS
  {
  }

  lemma FirstIsWalked(es: seq<Entry>, ptr: string, f: Found)
    requires DecodedEntries(es) && Follows(Operation, AnOperation) && es != []
    ensures f in Operations(es, ptr) <==> UnderMethod(es, ptr, f, 0) || f in Operations(es[1..], ptr)
  {
    var p := ChildPtr(ptr, Key(es[0].key));
    IsMethodIff(es[0].key);
    assert Exact(Operation(es[0].value, p), AnOperation, es[0].value, p);
  }

  lemma MethodFirst(es: seq<Entry>, ptr: string, f: Found)
    requires es != []
    ensures (exists i :: UnderMethod(es, ptr, f, i))
            <==> UnderMethod(es, ptr, f, 0) || exists i :: UnderMethod(es[1..], ptr, f, i)
  {
    forall i | UnderMethod(es[1..], ptr, f, i) ensures UnderMethod(es, ptr, f, i + 1) {
      assert es[1..][i] == es[i + 1];
    }
    forall i | UnderMethod(es, ptr, f, i) ensures i == 0 || UnderMethod(es[1..], ptr, f, i - 1) {
      if i > 0 { assert es[1..][i - 1] == es[i]; }
    }
  }

  lemma ParametersIsNoMethod()
    ensures !IsMethod("parameters")
  {
    assert |Strings.Lower("parameters")| == 10;
  }

  lemma PathLeads(k: string)
    ensures NextKey(APath, k) ==
            if k == "parameters" then ListOf(AParameter) else if IsMethod(k) then AnOperation else Nothing
  {
  }

  lemma MethodIsKey(es: seq<Entry>, ptr: string, f: Found, i: int)
    requires DecodedEntries(es) && UnderMethod(es, ptr, f, i)
    ensures UnderKey(APath, es, ptr, f, es[i].key)
  {
    PathLeads(es[i].key);
    ParametersIsNoMethod();
    DecodedFind(es, i);
  }

  lemma KeyIsMethod(es: seq<Entry>, ptr: string, f: Found, k: string)
    requires k != "parameters" && UnderKey(APath, es, ptr, f, k)
    ensures exists i :: UnderMethod(es, ptr, f, i)
  {
    PathLeads(k);
    if HasKey(es, k) && IsMethod(k) {
      var i :| 0 <= i < |es| && es[i].key == k && es[i].value == Find(es, k).value;
      assert UnderMethod(es, ptr, f, i);
    } else if IsMethod(k) {
      NothingInScalar(AnOperation, VNil, ChildPtr(ptr, Key(k)), f);
    } else {
      NothingUnder(Get(es, k), ChildPtr(ptr, Key(k)), f);
    }
  }

  /** Below a path stand its parameters and, under a method's name in any case, its operations. */
  lemma PathKeys(v: Value, ptr: string, f: Found)
    requires v.VMap? && Decoded(v)
    ensures Under(APath, v, ptr, f) <==>
            UnderKey(APath, v.entries, ptr, f, "parameters") || exists i :: UnderMethod(v.entries, ptr, f, i)
  {
    if Under(APath, v, ptr, f) {
      var k := UnderHasKey(APath, v, ptr, f);
      if k != "parameters" { KeyIsMethod(v.entries, ptr, f, k); }
    }
    if i :| UnderMethod(v.entries, ptr, f, i) {
      MethodIsKey(v.entries, ptr, f, i);
      KeyIsUnder(APath, v, ptr, f, v.entries[i].key);
    }
    if UnderKey(APath, v.entries, ptr, f, "parameters") { KeyIsUnder(APath, v, ptr, f, "parameters"); }
  }

  lemma PathIs(v: Value, ptr: string, f: Found)
    requires v.VMap? && Decoded(v)
    ensures f in PathItem(v, ptr) <==> Under(APath, v, ptr, f)
  {
    ListKey(APath, v.entries, ptr, f);
    OperationsFollow();
    OperationsAreWalked(v.entries, ptr, f);
    PathKeys(v, ptr, f);
  }

  lemma PathsFollow()
    ensures Follows(PathItem, APath)
  {
    forall v, p | Decoded(v) ensures Exact(PathItem(v, p), APath, v, p) {
      if v.VMap? {
        forall f ensures f in PathItem(v, p) <==> Under(APath, v, p, f) { PathIs(v, p, f); }
      } else {
        WrongKind(APath, v, p);
      }
    }
  }

  lemma ComponentsAre(v: Value, ptr: string)
    requires Decoded(v)
    ensures Exact(TextOriginWalk.Components(v, ptr), Components, v, ptr)
  {
    if v.VMap? {
      forall f ensures f in TextOriginWalk.Components(v, ptr) <==> Under(Components, v, ptr, f) {
        ComponentIs(v, ptr, f);
      }
    } else {
      WrongKind(Components, v, ptr);
    }
  }

  lemma ComponentsInParts(es: seq<Entry>, ptr: string, f: Found)
    ensures f in TextOriginWalk.Components(VMap(es), ptr) <==>
            f in Each(Get(es, "schemas"), ChildPtr(ptr, Key("schemas")), Schema)
            || f in Each(Get(es, "parameters"), ChildPtr(ptr, Key("parameters")), Parameter)
            || f in Each(Get(es, "responses"), ChildPtr(ptr, Key("responses")), Response)
            || f in Each(Get(es, "requestBodies"), ChildPtr(ptr, Key("requestBodies")), RequestBody)
            || f in Each(Get(es, "headers"), ChildPtr(ptr, Key("headers")), Header)
  {
  }

  lemma ComponentKeys()
    ensures NextKey(Components, "schemas") == MapOf(ASchema)
    ensures NextKey(Components, "parameters") == MapOf(AParameter)
    ensures NextKey(Components, "responses") == MapOf(AResponse)
    ensures NextKey(Components, "requestBodies") == MapOf(ABody)
    ensures NextKey(Components, "headers") == MapOf(AHeader)
    ensures forall k | k != "schemas" && k != "parameters" && k != "responses" && k != "requestBodies"
                       && k != "headers" ::
              NextKey(Components, k) == Nothing
  {
  }

  lemma ComponentIs(v: Value, ptr: string, f: Found)
    requires v.VMap? && Decoded(v)
    ensures f in TextOriginWalk.Components(v, ptr) <==> Under(Components, v, ptr, f)
  {
    ComponentsInParts(v.entries, ptr, f);
    ComponentSections(v.entries, ptr, f);
    ComponentKeys();
    UnderSix(Components, v, ptr, f, "schemas", "parameters", "responses", "requestBodies", "headers", "headers");
  }

  lemma ComponentSections(es: seq<Entry>, ptr: string, f: Found)
    requires DecodedEntries(es)
    ensures f in Each(Get(es, "schemas"), ChildPtr(ptr, Key("schemas")), Schema)
            <==> UnderKey(Components, es, ptr, f, "schemas")
    ensures f in Each(Get(es, "parameters"), ChildPtr(ptr, Key("parameters")), Parameter)
            <==> UnderKey(Components, es, ptr, f, "parameters")
    ensures f in Each(Get(es, "responses"), ChildPtr(ptr, Key("responses")), Response)
            <==> UnderKey(Components, es, ptr, f, "responses")
    ensures f in Each(Get(es, "requestBodies"), ChildPtr(ptr, Key("requestBodies")), RequestBody)
            <==> UnderKey(Components, es, ptr, f, "requestBodies")
    ensures f in Each(Get(es, "headers"), ChildPtr(ptr, Key("headers")), Header)
            <==> UnderKey(Components, es, ptr, f, "headers")
  {
    SchemasFollow();
    ParametersFollow();
    ResponsesFollow();
    BodiesFollow();
    HeadersFollow();
    ComponentKeys();
    MapKey(Components, es, ptr, "schemas", Schema, ASchema, f);
    MapKey(Components, es, ptr, "parameters", Parameter, AParameter, f);
    MapKey(Components, es, ptr, "responses", Response, AResponse, f);
    MapKey(Components, es, ptr, "requestBodies", RequestBody, ABody, f);
    MapKey(Components, es, ptr, "headers", Header, AHeader, f);
  }

  /** The structured walk reports exactly what the grammar of places tells, for every document. */
  lemma WalkIs(root: seq<Entry>, f: Found)
    requires DecodedEntries(root)
    ensures f in Walk(root) <==> Under(Document, VMap(root), "", f)
  {
    DecodedGet(root, "components");
    ComponentsAre(Get(root, "components"), ChildPtr("", Key("components")));
    PathsFollow();
    MapKey(Document, root, "", "paths", PathItem, APath, f);
    UnderSix(Document, VMap(root), "", f, "components", "paths", "paths", "paths", "paths", "paths");
  }

  lemma ToldIsDescribed(f: Found, r: Role, v: Value, ptr: string)
    requires Tells(f, r, v, ptr)
    ensures Describes(f, v.entries)
  {
    NoneIsNil(v.entries, "type");
    NoneIsNil(v.entries, KEY);
    NoneIsNil(v.entries, "$ref");
  }

  /** Everything the structured walk reports is so, at the pointer it reports. */
  lemma WalkDenotes(root: seq<Entry>)
    requires DecodedEntries(root)
    ensures forall f | f in Walk(root) :: Denotes(f, VMap(root), "")
  {
    forall f | f in Walk(root) ensures Denotes(f, VMap(root), "") {
      WalkIs(root, f);
      var path :| UnderAt(Document, VMap(root), "", f, path);
      ToldIsDescribed(f, RoleAt(Document, path), At(VMap(root), path).value, "" + Pointer(path));
      assert DenotesAt(f, VMap(root), "", path);
    }
  }
}
