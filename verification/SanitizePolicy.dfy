/** What the sanitizer leaves, said by node type and lower-cased name alone. */
module SanitizePolicy {
  import opened Html
  import opened Sanitize
  import Strings

  /** Dropped with everything below it: one of eight elements, a comment or a doctype. */
  predicate Dropped(n: Node) {
    n.ntype.CommentNode? || n.ntype.DoctypeNode?
    || (n.ntype.ElementNode?
        && Strings.Lower(n.data) in {"script", "style", "iframe", "object", "embed", "form", "input", "button"})
  }

  predicate AllowedElement(n: Node) {
    n.ntype.ElementNode?
    && Strings.Lower(n.data) in {
         "p", "h2", "h3", "ul", "ol", "li", "strong", "em", "code", "pre", "blockquote", "hr",
         "table", "thead", "tbody", "tr", "th", "td"}
  }

  /** Kept, if nothing above it is dropped: an allowed element, a text, or a node of a type that no parsed
      fragment holds. */
  predicate Kept(n: Node) {
    n.ntype.TextNode? || AllowedElement(n) || n.ntype.DocumentNode? || n.ntype.ErrorNode? || n.ntype.RawNode?
  }

  lemma FateIs(n: Node)
    ensures FateOf(n).Drop? <==> Dropped(n)
    ensures Survives(n) <==> Kept(n)
    ensures FateOf(n).Verbatim? <==> n.ntype.TextNode?
    ensures FateOf(n).Unwrap? <==> !Dropped(n) && !Kept(n)
    ensures FateOf(n).Strip? <==> AllowedElement(n)
  {
    if n.ntype.ElementNode? { NamesAreApart(Strings.Lower(n.data)); }
  }

  lemma NamesAreApart(name: string)
    ensures !(name in ALLOWED && name in FORBIDDEN)
    ensures name in FORBIDDEN <==> name in {"script", "style", "iframe", "object", "embed", "form", "input", "button"}
  {
  }

  /** A node is left iff it is of a kept kind and nothing above it is dropped. */
  lemma LeftByNameIff(ts: seq<Tree>, n: Node)
    requires TextsAreLeaves(ts)
    ensures n in NodesAll(SanAll(ts)) <==>
            exists p | p in Outline(ts, []) :: p.node == n && Kept(n) && forall a | a in p.above :: !Dropped(a)
  {
    LeftIff(ts, n);
    FateIs(n);
    forall p | p in Outline(ts, []) ensures InsideDropped(p.above) <==> exists a | a in p.above :: Dropped(a) {
      forall a | a in p.above ensures FateOf(a).Drop? <==> Dropped(a) { FateIs(a); }
    }
  }

  /** Nothing at or below a script, style, frame, embedded object or form control is left, and no comment
      or doctype. */
  lemma NothingDroppedIsLeft(ts: seq<Tree>, n: Node)
    requires TextsAreLeaves(ts) && n in NodesAll(SanAll(ts))
    ensures !Dropped(n) && exists p | p in Outline(ts, []) :: p.node == n && forall a | a in p.above :: !Dropped(a)
  {
    LeftByNameIff(ts, n);
    FateIs(n);
  }

  /** Every text with nothing dropped above it is left. */
  lemma TextIsLeft(ts: seq<Tree>, p: Place)
    requires TextsAreLeaves(ts) && p in Outline(ts, []) && p.node.ntype.TextNode?
    requires forall a | a in p.above :: !Dropped(a)
    ensures p.node in NodesAll(SanAll(ts))
  {
    LeftByNameIff(ts, p.node);
  }

  /** In place, between what its siblings become: a dropped node leaves nothing, an allowed element stays
      around its sanitized children, a text stays, any other element leaves its sanitized children. */
  lemma InPlaceIs(left: seq<Tree>, t: Tree, right: seq<Tree>)
    ensures SanAll(left + [t] + right) == SanAll(left) + SanAll([t]) + SanAll(right)
    ensures Dropped(t.node) ==> SanAll([t]) == []
    ensures AllowedElement(t.node) ==> SanAll([t]) == [Tree(t.node, SanAll(t.kids))]
    ensures t.node.ntype.TextNode? ==> SanAll([t]) == [t]
    ensures t.node.ntype.ElementNode? && !Dropped(t.node) && !AllowedElement(t.node) ==> SanAll([t]) == SanAll(t.kids)
  {
    SanAllAppend(left + [t], right);
    SanAllAppend(left, [t]);
    FateIs(t.node);
    assert [t][1..] == [] && SanAll([t]) == San(t) + [];
  }
}
