/** Decoded documents and the JSON pointers into them (section 3 of RFC 6901): a pointer names one
    place of a document, whatever slashes and tildes its keys hold. */
module Documents {
  import opened Wrappers

  // ---- decoded documents -----------------------------------------------------


  /** What yaml.v3 decodes: a mapping keyed by strings, one that is not, a list, a scalar. Entries
      stand in the order in which Go happens to range over them. */
  datatype Value =
    | VMap(entries: seq<Entry>)
    | VBadMap
    | VList(items: seq<Value>)
    | VStr(text: string)
    | VNil
    | VOther

  datatype Entry = Entry(key: string, value: Value)

  predicate HasKey(es: seq<Entry>, k: string) { es != [] && (es[0].key == k || HasKey(es[1..], k)) }

  function Find(es: seq<Entry>, k: string): (r: Option<Value>)
    ensures r.Some? <==> HasKey(es, k)
    ensures r.Some? ==> exists i | 0 <= i < |es| :: es[i].key == k && es[i].value == r.value
  {
    if es == [] then None
    else if es[0].key == k then Some(es[0].value)
    else
      var r := Find(es[1..], k);
      assert forall i | 0 <= i < |es| - 1 :: es[1..][i] == es[i + 1];
      r
  }

  /** A decoded mapping has each key once. */
  predicate Decoded(v: Value) {
    match v
    case VMap(es) => DecodedEntries(es)
    case VList(vs) => DecodedItems(vs)
    case _ => true
  }

  predicate DecodedEntries(es: seq<Entry>) {
    es == [] || (!HasKey(es[1..], es[0].key) && Decoded(es[0].value) && DecodedEntries(es[1..]))
  }

  predicate DecodedItems(vs: seq<Value>) {
    vs == [] || (Decoded(vs[0]) && DecodedItems(vs[1..]))
  }

  // ---- pointers, section 3 of RFC 6901 ---------------------------------------

  function ReplaceChar(s: string, c: char, text: string): string {
    if s == "" then "" else (if s[0] == c then text else [s[0]]) + ReplaceChar(s[1..], c, text)
  }

  function Escape(seg: string): string { ReplaceChar(ReplaceChar(seg, '~', "~0"), '/', "~1") }

  function ReplacePair(s: string, a: char, b: char, c: char): string {
    if |s| < 2 then s
    else if s[0] == a && s[1] == b then [c] + ReplacePair(s[2..], a, b, c)
    else [s[0]] + ReplacePair(s[1..], a, b, c)
  }

  function Unescape(seg: string): string { ReplacePair(ReplacePair(seg, '~', '1', '/'), '~', '0', '~') }

  function EscapeChar(c: char): string { if c == '~' then "~0" else if c == '/' then "~1" else [c] }

  lemma {:induction false} ReplaceAppend(a: string, b: string, c: char, text: string)
    ensures ReplaceChar(a + b, c, text) == ReplaceChar(a, c, text) + ReplaceChar(b, c, text)
  {
    if a == "" {
      assert a + b == b;
    } else {
      assert (a + b)[1..] == a[1..] + b;
      ReplaceAppend(a[1..], b, c, text);
    }
  }

  lemma EscapeNext(seg: string)
    requires seg != ""
    ensures Escape(seg) == EscapeChar(seg[0]) + Escape(seg[1..])
  {
    var head := if seg[0] == '~' then "~0" else [seg[0]];
    ReplaceAppend(head, ReplaceChar(seg[1..], '~', "~0"), '/', "~1");
    assert head[1..] == "" || (head[1..] == "0" && head[1..][1..] == "");
    assert ReplaceChar(head, '/', "~1") == EscapeChar(seg[0]);
  }

  lemma {:induction false} EscapeHasNoSlash(seg: string)
    ensures '/' !in Escape(seg)
  {
    if seg != "" {
      EscapeNext(seg);
      EscapeHasNoSlash(seg[1..]);
    }
  }

  /** After the first pass of the decoder, tildes are still escaped and slashes are back. */
  lemma {:induction false} FirstPass(seg: string)
    ensures ReplacePair(Escape(seg), '~', '1', '/') == ReplaceChar(seg, '~', "~0")
  {
    if seg != "" {
      EscapeNext(seg);
      FirstPass(seg[1..]);
      var rest := Escape(seg[1..]);
      var s := Escape(seg);
      assert s == EscapeChar(seg[0]) + rest;
      if seg[0] == '~' {
        assert s[1..] == ['0'] + rest && s[1..][1..] == rest;
        if |s| > 2 { assert s[1..][0] == '0'; }
        assert ReplacePair(s[1..], '~', '1', '/') == ['0'] + ReplacePair(rest, '~', '1', '/');
      } else if seg[0] == '/' {
        assert s[2..] == rest;
      } else {
        assert s[1..] == rest;
        assert ReplacePair(s, '~', '1', '/') == [seg[0]] + ReplacePair(rest, '~', '1', '/');
      }
    }
  }

  lemma {:induction false} SecondPass(seg: string)
    ensures ReplacePair(ReplaceChar(seg, '~', "~0"), '~', '0', '~') == seg
  {
    if seg != "" {
      SecondPass(seg[1..]);
      var rest := ReplaceChar(seg[1..], '~', "~0");
      var s := ReplaceChar(seg, '~', "~0");
      if seg[0] == '~' {
        assert s == "~0" + rest && s[2..] == rest;
      } else {
        assert s == [seg[0]] + rest && s[1..] == rest;
      }
      assert seg == [seg[0]] + seg[1..];
    }
  }

  /** A reference's name is read back as it was escaped. */
  lemma UnescapeUndoesEscape(seg: string)
    ensures Unescape(Escape(seg)) == seg
  {
    FirstPass(seg);
    SecondPass(seg);
  }

  lemma EscapeIsInjective(a: string, b: string)
    requires Escape(a) == Escape(b)
    ensures a == b
  {
    UnescapeUndoesEscape(a);
    UnescapeUndoesEscape(b);
  }

  function Decimal(n: nat): (s: string)
    ensures s != "" && '/' !in s
  {
    if n < 10 then ["0123456789"[n]] else Decimal(n / 10) + ["0123456789"[n % 10]]
  }

  lemma {:induction false} DecimalIsInjective(a: nat, b: nat)
    requires Decimal(a) == Decimal(b)
    ensures a == b
  {
    var s, t := Decimal(a), Decimal(b);
    assert s[|s| - 1] == "0123456789"[a % 10] && t[|t| - 1] == "0123456789"[b % 10];
    assert a >= 10 <==> |s| >= 2;
    assert b >= 10 <==> |t| >= 2;
    if a >= 10 {
      assert s[..|s| - 1] == Decimal(a / 10) && t[..|t| - 1] == Decimal(b / 10);
      DecimalIsInjective(a / 10, b / 10);
    }
  }

  /** An index needs no escaping. */
  lemma {:induction false} EscapeOfDecimal(n: nat)
    ensures Escape(Decimal(n)) == Decimal(n)
  {
    var last := ["0123456789"[n % 10]];
    assert ReplaceChar(last[1..], '~', "~0") == "" && ReplaceChar(last[1..], '/', "~1") == "";
    assert ReplaceChar(last, '~', "~0") == last && ReplaceChar(last, '/', "~1") == last;
    if n >= 10 {
      EscapeOfDecimal(n / 10);
      ReplaceAppend(Decimal(n / 10), last, '~', "~0");
      ReplaceAppend(ReplaceChar(Decimal(n / 10), '~', "~0"), last, '/', "~1");
    }
  }

  datatype Step = Key(key: string) | Index(index: nat)

  function Text(s: Step): string { match s case Key(k) => Escape(k) case Index(i) => Decimal(i) }

  function Pointer(path: seq<Step>): string {
    if path == [] then "" else "/" + Text(path[0]) + Pointer(path[1..])
  }

  function Child(v: Value, s: Step): Option<Value> {
    match s
    case Key(k) => if v.VMap? then Find(v.entries, k) else None
    case Index(i) => if v.VList? && i < |v.items| then Some(v.items[i]) else None
  }

  /** The value at a path. */
  function At(v: Value, path: seq<Step>): Option<Value> {
    if path == [] then Some(v)
    else match Child(v, path[0]) case None => None case Some(c) => At(c, path[1..])
  }

  lemma {:induction false} SplitAtSlash(a: string, p: string, b: string, q: string)
    requires '/' !in a && '/' !in b && (p == "" || p[0] == '/') && (q == "" || q[0] == '/') && a + p == b + q
    ensures a == b && p == q
  {
    assert a != "" ==> (a + p)[0] == a[0] && a[0] in a;
    assert b != "" ==> (b + q)[0] == b[0] && b[0] in b;
    assert a == "" ==> a + p == p;
    assert b == "" ==> b + q == q;
    if a != "" && b != "" {
      assert (a + p)[1..] == a[1..] + p && (b + q)[1..] == b[1..] + q;
      SplitAtSlash(a[1..], p, b[1..], q);
      assert a == [a[0]] + a[1..] && b == [b[0]] + b[1..];
    }
  }

  lemma StepIsInjective(v: Value, s: Step, t: Step)
    requires Child(v, s).Some? && Child(v, t).Some? && Text(s) == Text(t)
    ensures s == t
  {
    if v.VMap? {
      EscapeIsInjective(s.key, t.key);
    } else {
      DecimalIsInjective(s.index, t.index);
    }
  }

  lemma SlashSplits(a: string, p: string, b: string, q: string)
    requires '/' !in a && '/' !in b && (p == "" || p[0] == '/') && (q == "" || q[0] == '/')
    requires "/" + a + p == "/" + b + q
    ensures a == b && p == q
  {
    assert ("/" + a + p)[1..] == a + p && ("/" + b + q)[1..] == b + q;
    SplitAtSlash(a, p, b, q);
  }

  lemma PointerStart(p: seq<Step>)
    ensures Pointer(p) == "" || Pointer(p)[0] == '/'
  {
  }

  lemma PointerSplits(p: seq<Step>, q: seq<Step>)
    requires p != [] && q != [] && Pointer(p) == Pointer(q)
    ensures Text(p[0]) == Text(q[0]) && Pointer(p[1..]) == Pointer(q[1..])
  {
    TextHasNoSlash(p[0]);
    TextHasNoSlash(q[0]);
    PointerStart(p[1..]);
    PointerStart(q[1..]);
    SlashSplits(Text(p[0]), Pointer(p[1..]), Text(q[0]), Pointer(q[1..]));
  }

  /** Two places of one document with the same pointer are the same place. */
  lemma {:induction false} PointerIsInjective(v: Value, p: seq<Step>, q: seq<Step>)
    requires At(v, p).Some? && At(v, q).Some? && Pointer(p) == Pointer(q)
    ensures p == q
  {
    if p != [] && q != [] {
      PointerSplits(p, q);
      StepIsInjective(v, p[0], q[0]);
      PointerIsInjective(Child(v, p[0]).value, p[1..], q[1..]);
      assert p == [p[0]] + p[1..] && q == [q[0]] + q[1..];
    }
  }

  lemma TextHasNoSlash(s: Step)
    ensures '/' !in Text(s)
  {
    if s.Key? { EscapeHasNoSlash(s.key); }
  }
}
