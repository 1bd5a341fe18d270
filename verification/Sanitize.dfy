/** The HTML sanitizer: what it makes of a tree, as a function of the tree's shape, and the
    in-place walk over linked nodes that is proved to make exactly that. */
module Sanitize {
  import opened Html
  import Strings

  // ---- the policy ------------------------------------------------------------

  const ALLOWED := {
    "p", "h2", "h3", "ul", "ol", "li", "strong", "em", "code", "pre", "blockquote", "hr",
    "table", "thead", "tbody", "tr", "th", "td"}

  const FORBIDDEN := {"script", "style", "iframe", "object", "embed", "form", "input", "button"}

  datatype Fate = Drop | Strip | Unwrap | Verbatim | Descend

  /** The branch of sanitizeNode a node takes. */
  function FateOf(n: Node): Fate {
    match n.ntype
    case ElementNode =>
      if Strings.Lower(n.data) in FORBIDDEN then Drop else if Strings.Lower(n.data) in ALLOWED then Strip else Unwrap
    case TextNode => Verbatim
    case CommentNode => Drop
    case DoctypeNode => Drop
    case _ => Descend
  }

  /** A node survives in place iff it is an allowed element, a text, or of a type that no parsed
      fragment holds. */
  predicate Survives(n: Node) { FateOf(n).Strip? || FateOf(n).Verbatim? || FateOf(n).Descend? }

  // ---- shapes ----------------------------------------------------------------

  datatype Tree = Tree(node: Node, kids: seq<Tree>)

  function Roots(ts: seq<Tree>): (r: seq<Node>)
    ensures |r| == |ts|
  {
    if ts == [] then [] else [ts[0].node] + Roots(ts[1..])
  }

  function Nodes(t: Tree): set<Node> { {t.node} + NodesAll(t.kids) }

  function NodesAll(ts: seq<Tree>): set<Node> {
    if ts == [] then {} else Nodes(ts[0]) + NodesAll(ts[1..])
  }

  /** No node occurs twice: it is a tree. */
  ghost predicate Proper(t: Tree) { t.node !in NodesAll(t.kids) && ProperAll(t.kids) }

  ghost predicate ProperAll(ts: seq<Tree>) {
    ts == [] || (Proper(ts[0]) && ProperAll(ts[1..]) && Nodes(ts[0]) !! NodesAll(ts[1..]))
  }

  /** Text nodes are leaves, as in every parsed document. */
  predicate TextsAreLeaves(ts: seq<Tree>) {
    ts == [] || ((ts[0].node.ntype.TextNode? ==> ts[0].kids == []) && TextsAreLeaves(ts[0].kids)
                 && TextsAreLeaves(ts[1..]))
  }

  // ---- what the walk makes ---------------------------------------------------

  function San(t: Tree): seq<Tree> {
    match FateOf(t.node)
    case Drop => []
    case Strip => [Tree(t.node, SanAll(t.kids))]
    case Unwrap => SanAll(t.kids)
    case Verbatim => [t]
    case Descend => [Tree(t.node, SanAll(t.kids))]
  }

  function SanAll(ts: seq<Tree>): seq<Tree> {
    if ts == [] then [] else San(ts[0]) + SanAll(ts[1..])
  }

  // ---- what that means -------------------------------------------------------

  /** A node with the nodes it is inside of, outermost first. */
  datatype Place = Place(above: seq<Node>, node: Node)

  /** All nodes in document order. */
  function Outline(ts: seq<Tree>, above: seq<Node>): seq<Place> {
    if ts == [] then []
    else [Place(above, ts[0].node)] + Outline(ts[0].kids, above + [ts[0].node]) + Outline(ts[1..], above)
  }

  function Survivors(ns: seq<Node>): seq<Node> {
    if ns == [] then [] else (if Survives(ns[0]) then [ns[0]] else []) + Survivors(ns[1..])
  }

  predicate InsideDropped(ns: seq<Node>) { exists n | n in ns :: FateOf(n).Drop? }

  /** The surviving places: of a surviving node with nothing dropped above it, under its surviving
      ancestors. */
  function Keep(ps: seq<Place>): seq<Place> {
    if ps == [] then [] else KeptPlace(ps[0]) + Keep(ps[1..])
  }

  function KeptPlace(p: Place): seq<Place> {
    if Survives(p.node) && !InsideDropped(p.above) then [Place(Survivors(p.above), p.node)] else []
  }

  lemma {:induction false} KeepAppend(a: seq<Place>, b: seq<Place>)
    ensures Keep(a + b) == Keep(a) + Keep(b)
  {
    if a == [] {
      assert a + b == b;
    } else {
      assert (a + b)[1..] == a[1..] + b;
      assert (a + b)[0] == a[0];
      KeepAppend(a[1..], b);
      Strings.JoinThree(KeptPlace(a[0]), Keep(a[1..]), Keep(b));
    }
  }

  lemma {:induction false} SurvivorsAppend(a: seq<Node>, n: Node)
    ensures Survivors(a + [n]) == Survivors(a) + if Survives(n) then [n] else []
  {
    if a == [] {
      assert [] + [n] == [n] && Survivors([n][1..]) == [];
    } else {
      assert (a + [n])[1..] == a[1..] + [n];
      SurvivorsAppend(a[1..], n);
    }
  }

  lemma {:induction false} OutlineAppend(a: seq<Tree>, b: seq<Tree>, above: seq<Node>)
    ensures Outline(a + b, above) == Outline(a, above) + Outline(b, above)
  {
    if a == [] {
      assert a + b == b;
    } else {
      assert (a + b)[0] == a[0] && (a + b)[1..] == a[1..] + b;
      OutlineAppend(a[1..], b, above);
      var first := [Place(above, a[0].node)] + Outline(a[0].kids, above + [a[0].node]);
      Strings.JoinThree(first, Outline(a[1..], above), Outline(b, above));
    }
  }

  lemma {:induction false} NothingInsideDropped(ts: seq<Tree>, above: seq<Node>)
    requires InsideDropped(above)
    ensures Keep(Outline(ts, above)) == []
  {
    if ts != [] {
      var deeper := above + [ts[0].node];
      assert InsideDropped(deeper) by {
        var n :| n in above && FateOf(n).Drop?;
        assert n in deeper;
      }
      NothingInsideDropped(ts[0].kids, deeper);
      NothingInsideDropped(ts[1..], above);
      var head := [Place(above, ts[0].node)];
      KeepAppend(head, Outline(ts[0].kids, deeper));
      KeepAppend(head + Outline(ts[0].kids, deeper), Outline(ts[1..], above));
      assert Keep(head) == KeptPlace(head[0]) + Keep(head[1..]);
    }
  }

  lemma {:induction false} OutlineKept(ts: seq<Tree>, above: seq<Node>)
    requires TextsAreLeaves(ts) && !InsideDropped(above)
    ensures Outline(SanAll(ts), Survivors(above)) == Keep(Outline(ts, above))
  {
    if ts != [] {
      OutlineKept(ts[1..], above);
      OutlineOfOne(ts[0], above);
      OutlineAppend(San(ts[0]), SanAll(ts[1..]), Survivors(above));
      var first := [Place(above, ts[0].node)] + Outline(ts[0].kids, above + [ts[0].node]);
      KeepAppend(first, Outline(ts[1..], above));
    }
  }

  lemma {:induction false} OutlineOfOne(t: Tree, above: seq<Node>)
    requires t.node.ntype.TextNode? ==> t.kids == []
    requires TextsAreLeaves(t.kids) && !InsideDropped(above)
    ensures Outline(San(t), Survivors(above)) == Keep([Place(above, t.node)] + Outline(t.kids, above + [t.node]))
  {
    var deeper, head := above + [t.node], [Place(above, t.node)];
    KeepAppend(head, Outline(t.kids, deeper));
    assert head[1..] == [];
    assert Keep(head) == if Survives(t.node) then [Place(Survivors(above), t.node)] else [];
    if FateOf(t.node).Drop? {
      assert t.node in deeper;
      NothingInsideDropped(t.kids, deeper);
    } else {
      assert !InsideDropped(deeper);
      OutlineKept(t.kids, deeper);
      SurvivorsAppend(above, t.node);
      if !FateOf(t.node).Unwrap? {
        var kept := if FateOf(t.node).Verbatim? then t.kids else SanAll(t.kids);
        assert San(t) == [Tree(t.node, kept)] && San(t)[1..] == [];
      } else {
        assert deeper == above + [t.node];
        assert Survivors(deeper) == Survivors(above);
      }
    }
  }

  /** The main result on shapes: the survivors keep their order and their surviving ancestors. */
  lemma SanitizedIsFiltered(ts: seq<Tree>)
    requires TextsAreLeaves(ts)
    ensures Outline(SanAll(ts), []) == Keep(Outline(ts, []))
  {
    OutlineKept(ts, []);
  }

  lemma {:induction false} KeepHolds(ps: seq<Place>, n: Node)
    ensures (exists q | q in Keep(ps) :: q.node == n)
            <==> exists p | p in ps :: p.node == n && Survives(n) && !InsideDropped(p.above)
  {
    if ps != [] {
      KeepHolds(ps[1..], n);
      var head := KeptPlace(ps[0]);
      assert Keep(ps) == head + Keep(ps[1..]);
      assert forall q :: q in Keep(ps) <==> q in head || q in Keep(ps[1..]);
      assert forall p :: p in ps <==> p == ps[0] || p in ps[1..];
      if Survives(ps[0].node) && !InsideDropped(ps[0].above) {
        assert Place(Survivors(ps[0].above), ps[0].node) in head;
      }
    }
  }

  lemma {:induction false} OutlineHolds(ts: seq<Tree>, above: seq<Node>, n: Node)
    ensures n in NodesAll(ts) <==> exists p | p in Outline(ts, above) :: p.node == n
  {
    if ts != [] {
      var deeper := above + [ts[0].node];
      OutlineHolds(ts[0].kids, deeper, n);
      OutlineHolds(ts[1..], above, n);
      var head := Place(above, ts[0].node);
      assert forall p ::
          p in Outline(ts, above) <==> p == head || p in Outline(ts[0].kids, deeper) || p in Outline(ts[1..], above);
    }
  }

  /** Which nodes are left: exactly the surviving ones with nothing dropped above them. */
  lemma LeftIff(ts: seq<Tree>, n: Node)
    requires TextsAreLeaves(ts)
    ensures n in NodesAll(SanAll(ts)) <==>
            exists p | p in Outline(ts, []) :: p.node == n && Survives(n) && !InsideDropped(p.above)
  {
    SanitizedIsFiltered(ts);
    OutlineHolds(SanAll(ts), [], n);
    KeepHolds(Outline(ts, []), n);
  }

  /** Only allowed elements and text are left, unless a document, error or raw node stood outside
      every dropped subtree. */
  lemma OnlyAllowedAndTextIff(ts: seq<Tree>)
    requires TextsAreLeaves(ts)
    ensures (forall n | n in NodesAll(SanAll(ts)) ::
               n.ntype.TextNode? || (n.ntype.ElementNode? && Strings.Lower(n.data) in ALLOWED))
            <==> forall p | p in Outline(ts, []) && FateOf(p.node).Descend? :: InsideDropped(p.above)
  {
    forall p | p in Outline(ts, []) && FateOf(p.node).Descend? && !InsideDropped(p.above)
      ensures p.node in NodesAll(SanAll(ts)) && !p.node.ntype.TextNode? && !p.node.ntype.ElementNode?
    {
      LeftIff(ts, p.node);
    }
    if forall p | p in Outline(ts, []) && FateOf(p.node).Descend? :: InsideDropped(p.above) {
      forall n | n in NodesAll(SanAll(ts))
        ensures n.ntype.TextNode? || (n.ntype.ElementNode? && Strings.Lower(n.data) in ALLOWED)
      {
        LeftIff(ts, n);
        var p :| p in Outline(ts, []) && p.node == n && Survives(n) && !InsideDropped(p.above);
        assert !FateOf(n).Descend?;
      }
    }
  }

  /** A document, error or raw node is kept where it stands, around its sanitized children. */
  lemma UnknownNodeIsKept(n: Node, kids: seq<Tree>)
    requires n.ntype.ErrorNode? || n.ntype.DocumentNode? || n.ntype.RawNode?
    ensures SanAll([Tree(n, kids)]) == [Tree(n, SanAll(kids))] && n in NodesAll(SanAll([Tree(n, kids)]))
  {
    assert [Tree(n, kids)][1..] == [];
  }

  predicate InLowerCase(s: string) { forall i | 0 <= i < |s| :: Strings.LowerChar(s[i]) == s[i] }

  lemma {:induction false} LowerFixed(s: string)
    ensures InLowerCase(s) <==> Strings.Lower(s) == s
  {
    if s != "" {
      assert s == [s[0]] + s[1..];
      assert InLowerCase(s) <==> Strings.LowerChar(s[0]) == s[0] && InLowerCase(s[1..]) by {
        if Strings.LowerChar(s[0]) == s[0] && InLowerCase(s[1..]) {
          forall i | 0 < i < |s| ensures Strings.LowerChar(s[i]) == s[i] { assert s[i] == s[1..][i - 1]; }
        }
      }
      LowerFixed(s[1..]);
    }
  }

  /** The name of an allowed element is in the list as written iff it is in lower case. */
  lemma AllowedAsWrittenIff(n: Node)
    requires FateOf(n).Strip?
    ensures n.data in ALLOWED <==> Strings.Lower(n.data) == n.data
  {
    LowerFixed(n.data);
    assert forall w | w in ALLOWED :: InLowerCase(w);
  }

  /** A name the list does not hold, kept: the Kelvin sign has lower case `k`. */
  lemma KelvinSignIsAllowed(n: Node)
    requires n.ntype.ElementNode? && n.data == "bloc\U{212A}quote"
    ensures FateOf(n).Strip? && n.data !in ALLOWED
  {
    KelvinIsLowered();
    assert n.data[4] == '\U{212A}';
    AllowedAsWrittenIff(n);
  }

  lemma KelvinIsLowered()
    ensures Strings.Lower("bloc\U{212A}quote") == "blockquote" && "blockquote" in ALLOWED && "blockquote" !in FORBIDDEN
  {
    LowerAt("bloc\U{212A}quote");
  }

  lemma {:induction false} LowerAt(s: string)
    ensures |Strings.Lower(s)| == |s| && forall i | 0 <= i < |s| :: Strings.Lower(s)[i] == Strings.LowerChar(s[i])
  {
    if s != "" { LowerAt(s[1..]); }
  }

  /** The texts outside the dropped subtrees, in order. */
  function Texts(ps: seq<Place>): seq<string> {
    if ps == [] then []
    else (if ps[0].node.ntype.TextNode? && !InsideDropped(ps[0].above) then [ps[0].node.data] else []) + Texts(ps[1..])
  }

  lemma {:induction false} SurvivorsNotDropped(ns: seq<Node>)
    ensures !InsideDropped(Survivors(ns))
  {
    if ns != [] {
      SurvivorsNotDropped(ns[1..]);
      var rest := Survivors(ns[1..]);
      assert forall n | n in Survivors(ns) :: (n == ns[0] && Survives(n)) || n in rest;
    }
  }

  lemma {:induction false} KeepKeepsTexts(ps: seq<Place>)
    ensures Texts(Keep(ps)) == Texts(ps)
  {
    if ps != [] {
      KeepKeepsTexts(ps[1..]);
      SurvivorsNotDropped(ps[0].above);
      if Survives(ps[0].node) && !InsideDropped(ps[0].above) {
        var head := Place(Survivors(ps[0].above), ps[0].node);
        assert Keep(ps) == [head] + Keep(ps[1..]) && ([head] + Keep(ps[1..]))[1..] == Keep(ps[1..]);
        assert head.node == ps[0].node && !InsideDropped(head.above);
        assert Texts([head] + Keep(ps[1..])) == (if head.node.ntype.TextNode? then [head.node.data] else [])
               + Texts(Keep(ps[1..]));
      } else {
        assert Keep(ps) == Keep(ps[1..]);
      }
    }
  }

  lemma TextIsKept(ts: seq<Tree>)
    requires TextsAreLeaves(ts)
    ensures Texts(Outline(SanAll(ts), [])) == Texts(Outline(ts, []))
  {
    SanitizedIsFiltered(ts);
    KeepKeepsTexts(Outline(ts, []));
  }

  // ---- doing it twice --------------------------------------------------------

  lemma {:induction false} SanAllAppend(a: seq<Tree>, b: seq<Tree>)
    ensures SanAll(a + b) == SanAll(a) + SanAll(b)
  {
    if a == [] {
      assert a + b == b;
    } else {
      assert (a + b)[0] == a[0] && (a + b)[1..] == a[1..] + b;
      SanAllAppend(a[1..], b);
      Strings.JoinThree(San(a[0]), SanAll(a[1..]), SanAll(b));
    }
  }

  lemma {:induction false} SanitizeIsIdempotent(ts: seq<Tree>)
    ensures SanAll(SanAll(ts)) == SanAll(ts)
  {
    if ts != [] {
      SanitizeIsIdempotent(ts[1..]);
      SanAllAppend(San(ts[0]), SanAll(ts[1..]));
      SanTwice(ts[0]);
    }
  }

  lemma {:induction false} SanTwice(t: Tree)
    ensures SanAll(San(t)) == San(t)
  {
    SanitizeIsIdempotent(t.kids);
    if Survives(t.node) {
      assert San(t)[1..] == [];
    }
  }

  // ---- the walk --------------------------------------------------------------

  /** The shape `t` is what the links say. */
  ghost predicate Matches(t: Tree, kids: Links) {
    t.node in kids && kids[t.node] == Roots(t.kids) && MatchesAll(t.kids, kids)
  }

  ghost predicate MatchesAll(ts: seq<Tree>, kids: Links) {
    ts == [] || (Matches(ts[0], kids) && MatchesAll(ts[1..], kids))
  }

  lemma {:induction false} MatchesFrame(ts: seq<Tree>, kids: Links, after: Links)
    requires MatchesAll(ts, kids) && forall m | m in NodesAll(ts) :: m in after && m in kids && after[m] == kids[m]
    ensures MatchesAll(ts, after)
  {
    if ts != [] {
      assert ts[0].node in NodesAll(ts) && NodesAll(ts[0].kids) <= NodesAll(ts) && NodesAll(ts[1..]) <= NodesAll(ts);
      MatchesFrame(ts[0].kids, kids, after);
      MatchesFrame(ts[1..], kids, after);
    }
  }

  lemma {:induction false} MatchesInside(ts: seq<Tree>, kids: Links)
    requires MatchesAll(ts, kids)
    ensures NodesAll(ts) <= kids.Keys
  {
    if ts != [] {
      MatchesInside(ts[0].kids, kids);
      MatchesInside(ts[1..], kids);
    }
  }

  lemma {:induction false} ForestAppend(a: seq<Tree>, b: seq<Tree>, kids: Links)
    ensures MatchesAll(a + b, kids) <==> MatchesAll(a, kids) && MatchesAll(b, kids)
    ensures Roots(a + b) == Roots(a) + Roots(b)
    ensures NodesAll(a + b) == NodesAll(a) + NodesAll(b)
  {
    if a == [] {
      assert a + b == b;
    } else {
      assert (a + b)[1..] == a[1..] + b;
      ForestAppend(a[1..], b, kids);
    }
  }

  lemma {:induction false} SanInside(ts: seq<Tree>)
    ensures NodesAll(SanAll(ts)) <= NodesAll(ts)
  {
    if ts != [] {
      SanInside(ts[0].kids);
      SanInside(ts[1..]);
      ForestAppend(San(ts[0]), SanAll(ts[1..]), map[]);
      assert Survives(ts[0].node) ==> San(ts[0])[1..] == [];
    }
  }

  lemma {:induction false} ProperAppend(a: seq<Tree>, b: seq<Tree>)
    requires ProperAll(a) && ProperAll(b) && NodesAll(a) !! NodesAll(b)
    ensures ProperAll(a + b)
  {
    if a == [] {
      assert a + b == b;
    } else {
      assert (a + b)[1..] == a[1..] + b;
      ProperAppend(a[1..], b);
      ForestAppend(a[1..], b, map[]);
    }
  }

  lemma {:induction false} LeavesAppend(a: seq<Tree>, b: seq<Tree>)
    requires TextsAreLeaves(a) && TextsAreLeaves(b)
    ensures TextsAreLeaves(a + b)
  {
    if a == [] {
      assert a + b == b;
    } else {
      assert (a + b)[1..] == a[1..] + b;
      LeavesAppend(a[1..], b);
    }
  }

  /** The result is a tree again, which the walk may be run on once more. */
  lemma {:induction false} SanIsProper(ts: seq<Tree>)
    requires ProperAll(ts) && TextsAreLeaves(ts)
    ensures ProperAll(SanAll(ts)) && TextsAreLeaves(SanAll(ts))
  {
    if ts != [] {
      SanIsProper(ts[0].kids);
      SanIsProper(ts[1..]);
      SanInside(ts[0].kids);
      SanInside(ts[1..]);
      if Survives(ts[0].node) {
        assert San(ts[0])[1..] == [];
        assert NodesAll(San(ts[0])) <= Nodes(ts[0]);
        assert ProperAll(San(ts[0])[1..]) && TextsAreLeaves(San(ts[0])[1..]) && Nodes(San(ts[0])[0]) !! NodesAll([]);
      }
      ProperAppend(San(ts[0]), SanAll(ts[1..]));
      LeavesAppend(San(ts[0]), SanAll(ts[1..]));
    }
  }

  lemma WithoutFirst(ks: seq<Node>)
    requires ks != []
    ensures Without(ks, 0) == ks[1..]
  {
  }

  lemma WithInFront(front: seq<Node>, node: Node, post: seq<Node>, c: Node)
    ensures (front + [node] + post)[|front|] == node
    ensures With(front + [node] + post, |front|, c) == front + [c] + [node] + post
  {
  }

  lemma WithoutMiddle(pre: seq<Node>, node: Node, post: seq<Node>)
    ensures (pre + [node] + post)[|pre|] == node
    ensures Without(pre + [node] + post, |pre|) == pre + post
  {
  }

  /** One child of `node` moves to just before it. */
  method SpliceOne(parent: Node, node: Node, c: Node, ghost kids: Links, ghost front: seq<Node>, ghost post: seq<Node>)
    returns (ghost after: Links)
    requires WellLinked(kids) && parent in kids && node in kids && c in kids && parent != node && parent != c
    requires kids[parent] == front + [node] + post && kids[node] != [] && kids[node][0] == c
    modifies kids.Keys`parent, kids.Keys`firstChild, kids.Keys`lastChild, kids.Keys`prev, kids.Keys`next
    ensures after == kids[node := kids[node][1..]][parent := front + [c] + [node] + post]
    ensures after.Keys == kids.Keys && WellLinked(after)
  {
    WithoutFirst(kids[node]);
    WithInFront(front, node, post, c);
    ghost var between := RemoveChild(node, c, kids, 0);
    after := InsertBefore(parent, c, node, between, |front|);
  }

  lemma UpdateTwice(kids: Links, a: Node, x: seq<Node>, x': seq<Node>, b: Node, y: seq<Node>, y': seq<Node>)
    requires a != b
    ensures kids[a := x][b := y][a := x'][b := y'] == kids[a := x'][b := y']
  {
  }

  lemma MoveOne(front: seq<Node>, rest: seq<Node>, all: seq<Node>, parent: Node)
    requires rest != [] && front + rest == all && parent !in rest
    ensures front + [rest[0]] + rest[1..] == all && parent !in rest[1..] && rest[0] != parent
  {
  }

  /** The splice: the children of `node` move, in order, to just before it. */
  method Splice(parent: Node, node: Node, ghost kids: Links, ghost pre: seq<Node>, ghost ks: seq<Node>,
                ghost post: seq<Node>)
    returns (ghost after: Links)
    requires WellLinked(kids) && parent in kids && node in kids && parent != node && parent !in ks
    requires kids[parent] == pre + [node] + post && kids[node] == ks
    modifies kids.Keys`parent, kids.Keys`firstChild, kids.Keys`lastChild, kids.Keys`prev, kids.Keys`next
    ensures after == kids[node := []][parent := pre + ks + [node] + post] && after.Keys == kids.Keys
            && WellLinked(after)
  {
    after := kids;
    ghost var front: seq<Node>, rest: seq<Node> := pre, ks;
    FirstChild(node, after);
    var c := node.firstChild;
    while c != null
      invariant front + rest == pre + ks && c == At(rest, 0) && parent !in rest
      invariant after.Keys == kids.Keys && WellLinked(after)
      invariant after == kids[node := rest][parent := front + [node] + post]
      decreases |rest|
    {
      NextSibling(node, after, 0);
      var nc := c.next;
      UpdateTwice(kids, node, rest, rest[1..], parent, front + [node] + post, front + [c] + [node] + post);
      MoveOne(front, rest, pre + ks, parent);
      after := SpliceOne(parent, node, c, after, front, post);
      front, rest := front + [c], rest[1..];
      c := nc;
    }
    assert front == pre + ks;
  }

  /** What a step may have changed: links of the nodes in `inside` and of `n`, attributes of allowed
      elements in `inside`. */
  ghost predicate SameOutside(kids: Links, after: Links, n: Node, inside: set<Node>) {
    after.Keys == kids.Keys && forall m | m in kids && m != n && m !in inside :: after[m] == kids[m]
  }

  twostate predicate AttributesOutside(all: set<Node>, inside: set<Node>)
    reads all
  {
    forall m | m in all && !(m in inside && FateOf(m).Strip?) :: m.attr == old(m.attr)
  }

  ghost predicate Bare(nodes: set<Node>)
    reads nodes
  {
    forall m | m in nodes && FateOf(m).Strip? :: m.attr == []
  }

  /** One child is done: what is done and what is left stay apart and match the new links. */
  lemma Advance(n: Node, done: seq<Tree>, rest: seq<Tree>, before: Links, after: Links)
    requires rest != [] && MatchesAll(done, before) && MatchesAll(rest, before) && ProperAll(rest)
    requires n !in NodesAll(done) + NodesAll(rest) && NodesAll(done) !! NodesAll(rest)
    requires SameOutside(before, after, n, Nodes(rest[0])) && MatchesAll(San(rest[0]), after)
    ensures MatchesAll(done + San(rest[0]), after) && MatchesAll(rest[1..], after) && ProperAll(rest[1..])
    ensures Roots(done + San(rest[0])) == Roots(done) + Roots(San(rest[0]))
    ensures NodesAll(done + San(rest[0])) == NodesAll(done) + NodesAll(San(rest[0]))
    ensures NodesAll(San(rest[0])) <= Nodes(rest[0]) <= NodesAll(rest) && NodesAll(rest[1..]) <= NodesAll(rest)
    ensures NodesAll(done + San(rest[0])) !! NodesAll(rest[1..])
  {
    MatchesInside(done, before);
    MatchesInside(rest, before);
    MatchesFrame(done, before, after);
    MatchesFrame(rest[1..], before, after);
    ForestAppend(done, San(rest[0]), after);
    SanInside([rest[0]]);
    assert SanAll([rest[0]]) == San(rest[0]) && NodesAll([rest[0]]) == Nodes(rest[0]);
  }

  /** The end of the unwrapping branch: the sanitized children take the place of their parent. */
  method ReplaceByChildren(parent: Node, node: Node, ghost kept: seq<Tree>, ghost pre: seq<Node>,
                           ghost post: seq<Node>, ghost kids: Links)
    returns (ghost after: Links)
    requires WellLinked(kids) && parent in kids && kids[parent] == pre + [node] + post && parent != node
    requires node in kids && kids[node] == Roots(kept) && MatchesAll(kept, kids) && node !in NodesAll(kept)
             && parent !in NodesAll(kept)
    modifies kids.Keys`parent, kids.Keys`firstChild, kids.Keys`lastChild, kids.Keys`prev, kids.Keys`next
    ensures WellLinked(after) && SameOutside(kids, after, parent, {node})
    ensures after[parent] == pre + Roots(kept) + post && MatchesAll(kept, after)
  {
    RootsInside(kept);
    MatchesInside(kept, kids);
    after := Splice(parent, node, kids, pre, Roots(kept), post);
    WithoutMiddle(pre + Roots(kept), node, post);
    after := RemoveChild(parent, node, after, |pre + Roots(kept)|);
    MatchesFrame(kept, kids, after);
  }

  lemma {:induction false} RootsInside(ts: seq<Tree>)
    ensures forall n | n in Roots(ts) :: n in NodesAll(ts)
  {
    if ts != [] { RootsInside(ts[1..]); }
  }

  /** Between two turns of the loop over the children of `n`. */
  ghost predicate Halfway(kids: Links, after: Links, n: Node, ts: seq<Tree>, done: seq<Tree>, rest: seq<Tree>) {
    && SanAll(ts) == done + SanAll(rest) && TextsAreLeaves(rest) && ProperAll(rest)
    && SameOutside(kids, after, n, NodesAll(ts))
    && n in after && after[n] == Roots(done) + Roots(rest)
    && MatchesAll(done, after) && MatchesAll(rest, after)
    && NodesAll(done) + NodesAll(rest) <= NodesAll(ts) && NodesAll(done) !! NodesAll(rest)
  }

  lemma OutsideComposes(kids: Links, mid: Links, after: Links, n: Node, all: set<Node>, some: set<Node>)
    requires SameOutside(kids, mid, n, all) && SameOutside(mid, after, n, some) && some <= all
    ensures SameOutside(kids, after, n, all)
  {
  }

  lemma SanAllNext(done: seq<Tree>, rest: seq<Tree>)
    requires rest != []
    ensures done + SanAll(rest) == done + San(rest[0]) + SanAll(rest[1..])
    ensures TextsAreLeaves(rest) ==> TextsAreLeaves(rest[1..])
  {
    Strings.JoinThree(done, San(rest[0]), SanAll(rest[1..]));
  }

  lemma StillHalfway(kids: Links, before: Links, after: Links, n: Node, ts: seq<Tree>, done: seq<Tree>, rest: seq<Tree>)
    requires Halfway(kids, before, n, ts, done, rest) && rest != [] && n !in NodesAll(ts)
    requires Replaced(before, after, n, rest[0], Roots(done), Roots(rest[1..]))
    ensures Halfway(kids, after, n, ts, done + San(rest[0]), rest[1..])
    ensures NodesAll(done + San(rest[0])) == NodesAll(done) + NodesAll(San(rest[0])) && Nodes(rest[0]) <= NodesAll(rest)
  {
    Advance(n, done, rest, before, after);
    SanAllNext(done, rest);
    OutsideComposes(kids, before, after, n, NodesAll(ts), Nodes(rest[0]));
  }

  method SanitizeChildren(n: Node, ghost ts: seq<Tree>, ghost kids: Links) returns (ghost after: Links)
    requires WellLinked(kids) && n in kids && kids[n] == Roots(ts)
    requires MatchesAll(ts, kids) && ProperAll(ts) && n !in NodesAll(ts) && TextsAreLeaves(ts)
    modifies kids.Keys
    ensures WellLinked(after) && SameOutside(kids, after, n, NodesAll(ts))
    ensures after[n] == Roots(SanAll(ts)) && MatchesAll(SanAll(ts), after)
    ensures AttributesOutside(kids.Keys, NodesAll(ts)) && Bare(NodesAll(SanAll(ts)))
    decreases ts, 5
  {
    after := kids;
    ghost var i := 0;
    ghost var done: seq<Tree>, rest: seq<Tree> := [], ts;
    FirstChild(n, after);
    var child := n.firstChild;
    while child != null
      invariant i <= |ts| && rest == ts[i..] && child == At(Roots(rest), 0)
      invariant WellLinked(after) && Halfway(kids, after, n, ts, done, rest)
      invariant AttributesOutside(kids.Keys, NodesAll(ts)) && Bare(NodesAll(done))
      decreases |ts| - i
    {
      assert rest[0] == ts[i];
      var next: Node?;
      after, next := SanitizeNext(n, child, ts, done, rest, kids, after);
      done, rest, i := done + San(rest[0]), rest[1..], i + 1;
      child := next;
    }
    assert done == SanAll(ts);
  }

  /** One turn: the next sibling is read before the child is touched. */
  method SanitizeNext(n: Node, child: Node, ghost ts: seq<Tree>, ghost done: seq<Tree>, ghost rest: seq<Tree>,
                      ghost kids: Links, ghost before: Links)
    returns (ghost after: Links, next: Node?)
    requires n !in NodesAll(ts) && rest != [] && rest[0].node == child
    requires WellLinked(before) && Halfway(kids, before, n, ts, done, rest) && Bare(NodesAll(done))
    modifies kids.Keys
    ensures WellLinked(after) && Halfway(kids, after, n, ts, done + San(rest[0]), rest[1..])
            && next == At(Roots(rest[1..]), 0)
    ensures AttributesOutside(kids.Keys, NodesAll(ts)) && Bare(NodesAll(done + San(rest[0])))
    decreases rest[0], 4
  {
    NextSibling(n, before, |done|);
    assert Roots(rest) == [child] + Roots(rest[1..]);
    next := child.next;
    MatchesInside(done, before);
    after := SanitizeNode(n, child, rest[0], Roots(done), Roots(rest[1..]), before);
    StillHalfway(kids, before, after, n, ts, done, rest);
  }

  /** `t`, between `pre` and `post` among the children of `parent`, became San(t). */
  ghost predicate Replaced(kids: Links, after: Links, parent: Node, t: Tree, pre: seq<Node>, post: seq<Node>) {
    && SameOutside(kids, after, parent, Nodes(t))
    && parent in after && after[parent] == pre + Roots(San(t)) + post
    && MatchesAll(San(t), after)
  }

  ghost predicate Ready(kids: Links, parent: Node, t: Tree, pre: seq<Node>, post: seq<Node>) {
    && parent in kids && kids[parent] == pre + [t.node] + post
    && Matches(t, kids) && Proper(t) && parent !in Nodes(t)
    && TextsAreLeaves(t.kids) && (t.node.ntype.TextNode? ==> t.kids == [])
  }

  method SanitizeNode(parent: Node, node: Node, ghost t: Tree, ghost pre: seq<Node>, ghost post: seq<Node>,
                      ghost kids: Links)
    returns (ghost after: Links)
    requires WellLinked(kids) && t.node == node && Ready(kids, parent, t, pre, post)
    modifies kids.Keys
    ensures WellLinked(after) && Replaced(kids, after, parent, t, pre, post)
    ensures AttributesOutside(kids.Keys, Nodes(t)) && Bare(NodesAll(San(t)))
    decreases t, 3
  {
    match node.ntype {
      case ElementNode =>
        var tag := Strings.Lower(node.data);
        if tag in FORBIDDEN {
          after := DropNode(parent, node, t, pre, post, kids);
          return;
        }
        if tag in ALLOWED {
          after := KeepNode(parent, node, t, pre, post, kids);
          return;
        }
        after := UnwrapNode(parent, node, t, pre, post, kids);
      case TextNode =>
        after := kids;
        Alone(t, t.kids, after);
      case CommentNode =>
        after := DropNode(parent, node, t, pre, post, kids);
      case DoctypeNode =>
        after := DropNode(parent, node, t, pre, post, kids);
      case _ =>
        after := KeepNode(parent, node, t, pre, post, kids);
    }
  }

  method KeepNode(parent: Node, node: Node, ghost t: Tree, ghost pre: seq<Node>, ghost post: seq<Node>,
                  ghost kids: Links)
    returns (ghost after: Links)
    requires WellLinked(kids) && t.node == node && Ready(kids, parent, t, pre, post)
    requires FateOf(node).Strip? || FateOf(node).Descend?
    modifies kids.Keys
    ensures WellLinked(after) && Replaced(kids, after, parent, t, pre, post)
    ensures AttributesOutside(kids.Keys, Nodes(t)) && Bare(NodesAll(San(t)))
    decreases t, 2
  {
    if node.ntype.ElementNode? {
      ClearAttributes(node, kids.Keys);
    }
    after := Recurse(parent, node, t, kids);
    KeptIsReplaced(kids, after, parent, t, pre, post);
  }

  method ClearAttributes(node: Node, ghost all: set<Node>)
    requires node in all
    modifies node`attr
    ensures node.attr == [] && Read(all) == old(Read(all))
  {
    node.attr := [];
  }

  lemma KeptIsReplaced(kids: Links, after: Links, parent: Node, t: Tree, pre: seq<Node>, post: seq<Node>)
    requires FateOf(t.node).Strip? || FateOf(t.node).Descend?
    requires parent in kids && kids[parent] == pre + [t.node] + post
    requires SameOutside(kids, after, t.node, NodesAll(t.kids)) && after[parent] == kids[parent]
    requires MatchesAll([Tree(t.node, SanAll(t.kids))], after) && Roots([Tree(t.node, SanAll(t.kids))]) == [t.node]
    ensures Replaced(kids, after, parent, t, pre, post)
    ensures San(t) == [Tree(t.node, SanAll(t.kids))]
  {
    assert San(t) == [Tree(t.node, SanAll(t.kids))];
  }

  method UnwrapNode(parent: Node, node: Node, ghost t: Tree, ghost pre: seq<Node>, ghost post: seq<Node>,
                    ghost kids: Links)
    returns (ghost after: Links)
    requires WellLinked(kids) && t.node == node && Ready(kids, parent, t, pre, post) && San(t) == SanAll(t.kids)
    modifies kids.Keys
    ensures WellLinked(after) && Replaced(kids, after, parent, t, pre, post)
    ensures AttributesOutside(kids.Keys, NodesAll(t.kids)) && Bare(NodesAll(San(t)))
    decreases t, 2
  {
    ghost var mid := SanitizeChildren(node, t.kids, kids);
    SanInside(t.kids);
    MatchesInside(SanAll(t.kids), mid);
    after := ReplaceByChildren(parent, node, SanAll(t.kids), pre, post, mid);
    UnwrapComposes(kids, mid, after, parent, t, pre, post);
  }

  lemma UnwrapComposes(kids: Links, mid: Links, after: Links, parent: Node, t: Tree, pre: seq<Node>, post: seq<Node>)
    requires San(t) == SanAll(t.kids) && parent in kids
    requires SameOutside(kids, mid, t.node, NodesAll(t.kids)) && SameOutside(mid, after, parent, {t.node})
    requires after[parent] == pre + Roots(SanAll(t.kids)) + post && MatchesAll(SanAll(t.kids), after)
    ensures Replaced(kids, after, parent, t, pre, post)
  {
  }

  method DropNode(parent: Node, node: Node, ghost t: Tree, ghost pre: seq<Node>, ghost post: seq<Node>,
                  ghost kids: Links)
    returns (ghost after: Links)
    requires WellLinked(kids) && t.node == node && Ready(kids, parent, t, pre, post) && FateOf(node).Drop?
    modifies kids.Keys`parent, kids.Keys`firstChild, kids.Keys`lastChild, kids.Keys`prev, kids.Keys`next
    ensures WellLinked(after) && Replaced(kids, after, parent, t, pre, post)
    ensures Bare(NodesAll(San(t)))
  {
    WithoutMiddle(pre, node, post);
    after := RemoveChild(parent, node, kids, |pre|);
  }

  /** The children of a node that is, for now, kept. */
  method Recurse(parent: Node, node: Node, ghost t: Tree, ghost kids: Links) returns (ghost after: Links)
    requires WellLinked(kids) && parent in kids && parent !in Nodes(t)
    requires t.node == node && Matches(t, kids) && Proper(t) && TextsAreLeaves(t.kids)
    modifies kids.Keys
    ensures WellLinked(after) && SameOutside(kids, after, node, NodesAll(t.kids)) && after[parent] == kids[parent]
    ensures after[node] == Roots(SanAll(t.kids)) && MatchesAll(SanAll(t.kids), after)
    ensures MatchesAll([Tree(node, SanAll(t.kids))], after) && Roots([Tree(node, SanAll(t.kids))]) == [node]
    ensures NodesAll([Tree(node, SanAll(t.kids))]) == {node} + NodesAll(SanAll(t.kids))
    ensures AttributesOutside(kids.Keys, NodesAll(t.kids)) && Bare(NodesAll(SanAll(t.kids)))
    decreases t, 1
  {
    after := SanitizeChildren(node, t.kids, kids);
    Alone(t, SanAll(t.kids), after);
  }

  lemma Alone(t: Tree, ks: seq<Tree>, kids: Links)
    requires t.node in kids && kids[t.node] == Roots(ks) && MatchesAll(ks, kids)
    ensures Roots([Tree(t.node, ks)]) == [t.node] && MatchesAll([Tree(t.node, ks)], kids)
    ensures NodesAll([Tree(t.node, ks)]) == {t.node} + NodesAll(ks)
  {
    assert [Tree(t.node, ks)][1..] == [];
    assert Matches(Tree(t.node, ks), kids) && MatchesAll([], kids);
  }

  /** `Sanitize` on the root of a tree of linked nodes. */
  method Sanitize(n: Node, ghost t: Tree, ghost kids: Links) returns (ghost after: Links)
    requires WellLinked(kids) && t.node == n && Matches(t, kids) && Proper(t) && TextsAreLeaves(t.kids)
    modifies kids.Keys
    ensures WellLinked(after) && Matches(Tree(n, SanAll(t.kids)), after)
    ensures SameOutside(kids, after, n, NodesAll(t.kids))
    ensures AttributesOutside(kids.Keys, NodesAll(t.kids)) && Bare(NodesAll(SanAll(t.kids)))
    ensures Outline(SanAll(t.kids), []) == Keep(Outline(t.kids, []))
  {
    after := SanitizeChildren(n, t.kids, kids);
    SanitizedIsFiltered(t.kids);
  }
}
