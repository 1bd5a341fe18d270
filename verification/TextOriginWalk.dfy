/** The declaration checker's structured walk: the string schemas an OpenAPI document holds at the
    places the walk knows, with the references and the typeless enums it meets there. What it reports
    is proved in TextOriginRoles. The sort of the reports is left out. */
module TextOriginWalk {
  import opened Documents
  import Strings
  import opened Wrappers

  const KEY := "x-ctf-text-origin"

  function Get(es: seq<Entry>, k: string): Value { match Find(es, k) case Some(v) => v case None => VNil }

  /** `type` is "string" or a list that holds "string". */
  predicate IsStringType(es: seq<Entry>) {
    match Get(es, "type")
    case VStr(t) => t == "string"
    case VList(vs) => VStr("string") in vs
    case _ => false
  }

  function ChildPtr(ptr: string, s: Step): string { ptr + "/" + Text(s) }

  // ---- the structured walk ---------------------------------------------------

  datatype Found =
    | StringNode(ptr: string, raw: Value, hasEnum: bool)
    | PositionedRef(ptr: string, ref: string, section: string)
    | TypelessNode(ptr: string)

  function Note(v: Value, ptr: string, section: string): seq<Found> {
    if v.VMap? && Get(v.entries, "$ref").VStr? then [PositionedRef(ptr, Get(v.entries, "$ref").text, section)] else []
  }

  function HasEnum(es: seq<Entry>): bool { HasKey(es, "enum") || HasKey(es, "const") }

  function SchemaHere(es: seq<Entry>, ptr: string): seq<Found> {
    if IsStringType(es) then [StringNode(ptr, Get(es, KEY), HasEnum(es))]
    else if HasEnum(es) && !HasKey(es, "type") then [TypelessNode(ptr)]
    else []
  }

  datatype SchemaChild = SchemaChild(path: seq<Step>, node: Value)

  function PropertyChildren(props: seq<Entry>): seq<SchemaChild> {
    if props == [] then []
    else [SchemaChild([Key("properties"), Key(props[0].key)], props[0].value)] + PropertyChildren(props[1..])
  }

  function ListChildren(kw: string, vs: seq<Value>, i: nat): seq<SchemaChild> {
    if vs == [] then [] else [SchemaChild([Key(kw), Index(i)], vs[0])] + ListChildren(kw, vs[1..], i + 1)
  }

  function MapChild(es: seq<Entry>, kw: string): seq<SchemaChild> {
    if Get(es, kw).VMap? then [SchemaChild([Key(kw)], Get(es, kw))] else []
  }

  function AlternativeChildren(es: seq<Entry>, kw: string): seq<SchemaChild> {
    if Get(es, kw).VList? then ListChildren(kw, Get(es, kw).items, 0) else []
  }

  function SchemaChildren(es: seq<Entry>): seq<SchemaChild> {
    (if Get(es, "properties").VMap? then PropertyChildren(Get(es, "properties").entries) else [])
    + MapChild(es, "items") + MapChild(es, "additionalProperties")
    + AlternativeChildren(es, "allOf") + AlternativeChildren(es, "anyOf") + AlternativeChildren(es, "oneOf")
  }

  function Size(v: Value): nat {
    match v
    case VMap(es) => 1 + SizeEntries(es)
    case VList(vs) => 1 + SizeItems(vs)
    case _ => 0
  }

  function SizeEntries(es: seq<Entry>): nat { if es == [] then 0 else Size(es[0].value) + SizeEntries(es[1..]) }

  function SizeItems(vs: seq<Value>): nat { if vs == [] then 0 else Size(vs[0]) + SizeItems(vs[1..]) }

  lemma {:induction false} GetIsSmaller(es: seq<Entry>, k: string)
    ensures Size(Get(es, k)) <= SizeEntries(es)
  {
    if es != [] && es[0].key != k { GetIsSmaller(es[1..], k); }
  }

  lemma {:induction false} PropertiesAreSmaller(props: seq<Entry>)
    ensures forall c | c in PropertyChildren(props) :: Size(c.node) <= SizeEntries(props)
  {
    if props != [] { PropertiesAreSmaller(props[1..]); }
  }

  lemma {:induction false} ListedAreSmaller(kw: string, vs: seq<Value>, i: nat)
    ensures forall c | c in ListChildren(kw, vs, i) :: Size(c.node) <= SizeItems(vs)
  {
    if vs != [] { ListedAreSmaller(kw, vs[1..], i + 1); }
  }

  lemma AlternativesAreSmaller(es: seq<Entry>, kw: string)
    ensures forall c | c in AlternativeChildren(es, kw) :: Size(c.node) <= SizeEntries(es)
  {
    GetIsSmaller(es, kw);
    if Get(es, kw).VList? { ListedAreSmaller(kw, Get(es, kw).items, 0); }
  }

  lemma ChildrenAreSmaller(es: seq<Entry>)
    ensures forall c | c in SchemaChildren(es) :: Size(c.node) <= SizeEntries(es)
  {
    GetIsSmaller(es, "properties");
    if Get(es, "properties").VMap? { PropertiesAreSmaller(Get(es, "properties").entries); }
    GetIsSmaller(es, "items");
    GetIsSmaller(es, "additionalProperties");
    AlternativesAreSmaller(es, "allOf");
    AlternativesAreSmaller(es, "anyOf");
    AlternativesAreSmaller(es, "oneOf");
  }

  function Schema(v: Value, ptr: string): seq<Found>
    decreases Size(v), 1, 0
  {
    Note(v, ptr, "schemas") +
    if !v.VMap? then []
    else
      ChildrenAreSmaller(v.entries);
      SchemaHere(v.entries, ptr) + SchemaEach(SchemaChildren(v.entries), ptr, Size(v))
  }

  function SchemaEach(cs: seq<SchemaChild>, ptr: string, size: nat): seq<Found>
    requires forall c | c in cs :: Size(c.node) < size
    decreases size, 0, |cs|
  {
    if cs == [] then []
    else Schema(cs[0].node, ptr + Pointer(cs[0].path)) + SchemaEach(cs[1..], ptr, size)
  }

  type Walker = (Value, string) -> seq<Found>

  function EachEntry(es: seq<Entry>, ptr: string, fn: Walker): seq<Found> {
    if es == [] then [] else fn(es[0].value, ChildPtr(ptr, Key(es[0].key))) + EachEntry(es[1..], ptr, fn)
  }

  function Each(v: Value, ptr: string, fn: Walker): seq<Found> {
    if v.VMap? then EachEntry(v.entries, ptr, fn) else []
  }

  function MediaType(v: Value, ptr: string): seq<Found> {
    if v.VMap? then Schema(Get(v.entries, "schema"), ChildPtr(ptr, Key("schema"))) else []
  }

  function Media(v: Value, ptr: string): seq<Found> {
    if v.VMap? then Each(Get(v.entries, "content"), ChildPtr(ptr, Key("content")), MediaType) else []
  }

  function ParamBody(v: Value, ptr: string): seq<Found> {
    MediaType(v, ptr) + Media(v, ptr)
  }

  function Parameter(v: Value, ptr: string): seq<Found> { Note(v, ptr, "parameters") + ParamBody(v, ptr) }
  function Header(v: Value, ptr: string): seq<Found> { Note(v, ptr, "headers") + ParamBody(v, ptr) }
  function RequestBody(v: Value, ptr: string): seq<Found> { Note(v, ptr, "requestBodies") + Media(v, ptr) }

  function Response(v: Value, ptr: string): seq<Found> {
    Note(v, ptr, "responses") + Media(v, ptr)
    + if v.VMap? then Each(Get(v.entries, "headers"), ChildPtr(ptr, Key("headers")), Header) else []
  }

  function ParametersFrom(vs: seq<Value>, ptr: string, i: nat): seq<Found> {
    if vs == [] then [] else Parameter(vs[0], ChildPtr(ptr, Index(i))) + ParametersFrom(vs[1..], ptr, i + 1)
  }

  function ParameterList(v: Value, ptr: string): seq<Found> {
    if v.VList? then ParametersFrom(v.items, ptr, 0) else []
  }

  const METHODS := {"get", "put", "post", "delete", "options", "head", "patch", "trace"}

  function Operation(v: Value, ptr: string): seq<Found> {
    if v.VMap? then
      ParameterList(Get(v.entries, "parameters"), ChildPtr(ptr, Key("parameters")))
      + RequestBody(Get(v.entries, "requestBody"), ChildPtr(ptr, Key("requestBody")))
      + Each(Get(v.entries, "responses"), ChildPtr(ptr, Key("responses")), Response)
    else []
  }

  function Operations(es: seq<Entry>, ptr: string): seq<Found> {
    if es == [] then []
    else
      (if Strings.Lower(es[0].key) in METHODS then Operation(es[0].value, ChildPtr(ptr, Key(es[0].key))) else [])
      + Operations(es[1..], ptr)
  }

  function PathItem(v: Value, ptr: string): seq<Found> {
    if v.VMap? then
      ParameterList(Get(v.entries, "parameters"), ChildPtr(ptr, Key("parameters"))) + Operations(v.entries, ptr)
    else []
  }

  function Components(v: Value, ptr: string): seq<Found> {
    if v.VMap? then
      Each(Get(v.entries, "schemas"), ChildPtr(ptr, Key("schemas")), Schema)
      + Each(Get(v.entries, "parameters"), ChildPtr(ptr, Key("parameters")), Parameter)
      + Each(Get(v.entries, "responses"), ChildPtr(ptr, Key("responses")), Response)
      + Each(Get(v.entries, "requestBodies"), ChildPtr(ptr, Key("requestBodies")), RequestBody)
      + Each(Get(v.entries, "headers"), ChildPtr(ptr, Key("headers")), Header)
    else []
  }

  /** walkSchemas. */
  function Walk(root: seq<Entry>): seq<Found> {
    Components(Get(root, "components"), ChildPtr("", Key("components")))
    + Each(Get(root, "paths"), ChildPtr("", Key("paths")), PathItem)
  }

  // ---- what a report says of the place it names ------------------------------

  /** `f` describes the mapping `es`. */
  predicate Describes(f: Found, es: seq<Entry>) {
    match f
    case StringNode(_, raw, hasEnum) => IsStringType(es) && raw == Get(es, KEY) && hasEnum == HasEnum(es)
    case PositionedRef(_, ref, _) => Get(es, "$ref") == VStr(ref)
    case TypelessNode(_) => HasEnum(es) && !HasKey(es, "type")
  }

  ghost predicate DenotesAt(f: Found, v: Value, ptr: string, path: seq<Step>) {
    && At(v, path).Some? && At(v, path).value.VMap?
    && f.ptr == ptr + Pointer(path) && Describes(f, At(v, path).value.entries)
  }

  ghost predicate Denotes(f: Found, v: Value, ptr: string) { exists path :: DenotesAt(f, v, ptr, path) }

  lemma PointerStep(ptr: string, s: Step, path: seq<Step>)
    ensures ptr + Pointer([s] + path) == ChildPtr(ptr, s) + Pointer(path)
  {
    PointerOfStep(s, path);
    Regroup(ptr, Text(s), Pointer(path));
  }

  lemma PointerOfStep(s: Step, path: seq<Step>)
    ensures Pointer([s] + path) == "/" + Text(s) + Pointer(path)
  {
    assert ([s] + path)[1..] == path;
  }

  lemma Regroup(a: string, b: string, c: string)
    ensures a + ("/" + b + c) == a + "/" + b + c
  {
  }

  lemma StepDown(v: Value, s: Step, c: Value, ptr: string, path: seq<Step>)
    requires Child(v, s) == Some(c)
    ensures At(v, [s] + path) == At(c, path)
    ensures ptr + Pointer([s] + path) == ChildPtr(ptr, s) + Pointer(path)
  {
    assert ([s] + path)[1..] == path;
    PointerStep(ptr, s, path);
  }

  lemma {:induction false} DecodedFind(es: seq<Entry>, i: nat)
    requires DecodedEntries(es) && i < |es|
    ensures Find(es, es[i].key) == Some(es[i].value) && Decoded(es[i].value)
  {
    if i > 0 {
      assert es[i] == es[1..][i - 1];
      DecodedFind(es[1..], i - 1);
    }
  }

  lemma {:induction false} DecodedItem(vs: seq<Value>, i: nat)
    requires DecodedItems(vs) && i < |vs|
    ensures Decoded(vs[i])
  {
    if i > 0 {
      assert vs[i] == vs[1..][i - 1];
      DecodedItem(vs[1..], i - 1);
    }
  }

  lemma {:induction false} DecodedGet(es: seq<Entry>, k: string)
    requires DecodedEntries(es)
    ensures Decoded(Get(es, k))
  {
    if es != [] && es[0].key != k { DecodedGet(es[1..], k); }
  }

  /** A child schema stands at its path. */
  ghost predicate IsChild(v: Value, c: SchemaChild) { c.path != [] && At(v, c.path) == Some(c.node) && Decoded(c.node) }

  lemma PathOfTwo(v: Value, k: string, w: Value, s: Step, c: Value)
    requires Child(v, Key(k)) == Some(w) && Child(w, s) == Some(c)
    ensures At(v, [Key(k), s]) == Some(c)
  {
    assert [Key(k), s][1..] == [s] && [s][1..] == [];
    assert At(w, [s]) == Some(c);
  }

  lemma {:induction false} PropertiesAreChildren(v: Value, props: seq<Entry>, i: nat)
    requires v.VMap? && Find(v.entries, "properties") == Some(VMap(props)) && DecodedEntries(props) && i <= |props|
    ensures forall c | c in PropertyChildren(props[i..]) :: IsChild(v, c)
    decreases |props| - i
  {
    if i < |props| {
      PropertiesAreChildren(v, props, i + 1);
      DecodedFind(props, i);
      PathOfTwo(v, "properties", VMap(props), Key(props[i].key), props[i].value);
      assert props[i..][1..] == props[i + 1..];
    }
  }

  lemma {:induction false} ListedAreChildren(v: Value, kw: string, vs: seq<Value>, i: nat)
    requires v.VMap? && Find(v.entries, kw) == Some(VList(vs)) && DecodedItems(vs) && i <= |vs|
    ensures forall c | c in ListChildren(kw, vs[i..], i) :: IsChild(v, c)
    decreases |vs| - i
  {
    if i < |vs| {
      ListedAreChildren(v, kw, vs, i + 1);
      DecodedItem(vs, i);
      PathOfTwo(v, kw, VList(vs), Index(i), vs[i]);
      assert vs[i..][1..] == vs[i + 1..];
    }
  }

  lemma MapIsChild(v: Value, kw: string)
    requires v.VMap? && Decoded(v)
    ensures forall c | c in MapChild(v.entries, kw) :: IsChild(v, c)
  {
    DecodedGet(v.entries, kw);
    if Get(v.entries, kw).VMap? {
      assert [Key(kw)][1..] == [];
      assert At(v, [Key(kw)]) == Some(Get(v.entries, kw));
    }
  }

  lemma AlternativesAreChildren(v: Value, kw: string)
    requires v.VMap? && Decoded(v)
    ensures forall c | c in AlternativeChildren(v.entries, kw) :: IsChild(v, c)
  {
    DecodedGet(v.entries, kw);
    if Get(v.entries, kw).VList? {
      var vs := Get(v.entries, kw).items;
      assert vs[0..] == vs;
      ListedAreChildren(v, kw, vs, 0);
    }
  }

  lemma ChildrenAreChildren(v: Value)
    requires v.VMap? && Decoded(v)
    ensures forall c | c in SchemaChildren(v.entries) :: IsChild(v, c)
  {
    DecodedGet(v.entries, "properties");
    if Get(v.entries, "properties").VMap? {
      var props := Get(v.entries, "properties").entries;
      assert props[0..] == props;
      PropertiesAreChildren(v, props, 0);
    }
    MapIsChild(v, "items");
    MapIsChild(v, "additionalProperties");
    AlternativesAreChildren(v, "allOf");
    AlternativesAreChildren(v, "anyOf");
    AlternativesAreChildren(v, "oneOf");
  }
}
