/** The linked tree of `golang.org/x/net/html`: nodes tied by parent, first/last child and sibling
    pointers. The ghost map `kids` lists every node's children; `WellLinked` ties it to the pointers,
    which the lemmas read as one value, `Pointers`. */
module Html {

  datatype NodeType = ErrorNode | TextNode | DocumentNode | ElementNode | CommentNode | DoctypeNode | RawNode

  datatype Attribute = Attribute(key: string, val: string)

  class Node {
    const ntype: NodeType
    const data: string
    var attr: seq<Attribute>
    var parent: Node?
    var firstChild: Node?
    var lastChild: Node?
    var prev: Node?
    var next: Node?

    constructor (ntype: NodeType, data: string, attr: seq<Attribute>)
      ensures this.ntype == ntype && this.data == data && this.attr == attr
      ensures parent == null && firstChild == null && lastChild == null && prev == null && next == null
    {
      this.ntype, this.data, this.attr := ntype, data, attr;
      parent, firstChild, lastChild, prev, next := null, null, null, null, null;
    }
  }

  type Links = map<Node, seq<Node>>

  /** The pointers of a node, as a value. */
  datatype Pointers = Pointers(parent: Node?, first: Node?, last: Node?, prev: Node?, next: Node?)

  type Memory = map<Node, Pointers>

  ghost function Read(all: set<Node>): (p: Memory)
    reads all
    ensures p.Keys == all
  {
    map n | n in all :: Pointers(n.parent, n.firstChild, n.lastChild, n.prev, n.next)
  }

  function At(s: seq<Node>, i: int): Node? { if 0 <= i < |s| then s[i] else null }

  ghost predicate Unrepeated(s: seq<Node>) { forall i, j | 0 <= i < j < |s| :: s[i] != s[j] }

  ghost predicate Within(ks: seq<Node>, p: Memory) { forall i | 0 <= i < |ks| :: ks[i] in p }

  /** The children of `n` are exactly `ks`, in that order. */
  ghost predicate Linked(p: Memory, n: Node, ks: seq<Node>) {
    && n in p && n !in ks && Within(ks, p) && Unrepeated(ks)
    && p[n].first == At(ks, 0) && p[n].last == At(ks, |ks| - 1)
    && forall i {:trigger p[ks[i]]} | 0 <= i < |ks| ::
         p[ks[i]].parent == n && p[ks[i]].prev == At(ks, i - 1) && p[ks[i]].next == At(ks, i + 1)
  }

  /** A node without a parent has no siblings; a parent lists its child. */
  ghost predicate Placed(p: Memory, kids: Links, c: Node) {
    && c in p
    && if p[c].parent == null then p[c].prev == null && p[c].next == null
       else p[c].parent in kids && c in kids[p[c].parent]
  }

  ghost predicate LinkedBy(p: Memory, kids: Links) {
    && p.Keys == kids.Keys
    && (forall n {:trigger Linked(p, n, kids[n])} | n in kids :: Linked(p, n, kids[n]))
    && (forall c {:trigger Placed(p, kids, c)} | c in kids :: Placed(p, kids, c))
  }

  ghost predicate WellLinked(kids: Links)
    reads kids.Keys
  {
    LinkedBy(Read(kids.Keys), kids)
  }

  function Without(s: seq<Node>, i: nat): seq<Node>
    requires i < |s|
  {
    s[..i] + s[i + 1..]
  }

  function With(s: seq<Node>, i: nat, c: Node): seq<Node>
    requires i <= |s|
  {
    s[..i] + [c] + s[i..]
  }

  function Set(m: map<Node, Node?>, n: Node?, v: Node?): map<Node, Node?> {
    if n == null then m else m[n := v]
  }

  // ---- unlinking -------------------------------------------------------------

  /** From `p` to `q`, child `i` of `n` was unlinked. */
  ghost predicate Unlinked(p: Memory, q: Memory, n: Node, ks: seq<Node>, i: nat)
    requires i < |ks|
  {
    && q.Keys == p.Keys
    && forall m {:trigger q[m]} | m in p ::
         if m == ks[i] then q[m] == p[m].(parent := null, prev := null, next := null)
         else
           && q[m].parent == p[m].parent
           && q[m].prev == (if m == At(ks, i + 1) then At(ks, i - 1) else p[m].prev)
           && q[m].next == (if m == At(ks, i - 1) then At(ks, i + 1) else p[m].next)
           && q[m].first == (if m == n && i == 0 then At(ks, 1) else p[m].first)
           && q[m].last == (if m == n && i == |ks| - 1 then At(ks, i - 1) else p[m].last)
  }

  lemma WithoutAt(ks: seq<Node>, i: nat, k: int)
    requires i < |ks|
    ensures At(Without(ks, i), k) == At(ks, if k < i then k else k + 1)
  {
  }

  lemma UnlinkedChild(p: Memory, q: Memory, n: Node, ks: seq<Node>, i: nat, k: nat)
    requires Linked(p, n, ks) && i < |ks| && k < |ks| && k != i && Unlinked(p, q, n, ks, i)
    ensures ks[k] in q && q[ks[k]].parent == n
    ensures q[ks[k]].prev == At(ks, if k == i + 1 then i - 1 else k - 1)
    ensures q[ks[k]].next == At(ks, if k == i - 1 then i + 1 else k + 1)
  {
    assert q[ks[k]].parent == p[ks[k]].parent;
    assert ks[k] == At(ks, i + 1) <==> k == i + 1;
    assert ks[k] == At(ks, i - 1) <==> k == i - 1;
  }

  lemma UnlinkedChildren(p: Memory, q: Memory, n: Node, ks: seq<Node>, i: nat, k: nat)
    requires Linked(p, n, ks) && i < |ks| && k < |ks| - 1 && Unlinked(p, q, n, ks, i)
    ensures var rest := Without(ks, i);
            && rest[k] in q && q[rest[k]].parent == n
            && q[rest[k]].prev == At(rest, k - 1) && q[rest[k]].next == At(rest, k + 1)
  {
    UnlinkedChild(p, q, n, ks, i, if k < i then k else k + 1);
    WithoutAt(ks, i, k - 1);
    WithoutAt(ks, i, k);
    WithoutAt(ks, i, k + 1);
  }

  lemma WithoutUnrepeated(ks: seq<Node>, i: nat)
    requires i < |ks| && Unrepeated(ks)
    ensures Unrepeated(Without(ks, i)) && ks[i] !in Without(ks, i)
    ensures forall x :: x in Without(ks, i) <==> x in ks && x != ks[i]
  {
    forall x | x in ks && x != ks[i] ensures x in Without(ks, i) {
      var j :| 0 <= j < |ks| && ks[j] == x;
      assert Without(ks, i)[if j < i then j else j - 1] == x;
    }
  }

  lemma UnlinkedHere(p: Memory, q: Memory, n: Node, ks: seq<Node>, i: nat)
    requires Linked(p, n, ks) && i < |ks| && Unlinked(p, q, n, ks, i)
    ensures Linked(q, n, Without(ks, i))
  {
    var rest := Without(ks, i);
    forall k | 0 <= k < |rest|
      ensures rest[k] in q && q[rest[k]].parent == n
      ensures q[rest[k]].prev == At(rest, k - 1) && q[rest[k]].next == At(rest, k + 1)
    {
      UnlinkedChildren(p, q, n, ks, i, k);
    }
    WithoutUnrepeated(ks, i);
    WithoutAt(ks, i, 0);
    WithoutAt(ks, i, |rest| - 1);
    assert q[n].first == At(rest, 0);
    assert q[n].last == At(rest, |rest| - 1);
  }

  lemma UnlinkedElsewhere(p: Memory, q: Memory, n: Node, ks: seq<Node>, i: nat, m: Node, ms: seq<Node>)
    requires Linked(p, n, ks) && Linked(p, m, ms) && i < |ks| && m != n && Unlinked(p, q, n, ks, i)
    ensures Linked(q, m, ms)
  {
    forall k | 0 <= k < |ms|
      ensures ms[k] in q && q[ms[k]].parent == m && q[ms[k]].prev == p[ms[k]].prev && q[ms[k]].next == p[ms[k]].next
    {
      assert p[ms[k]].parent == m;
      assert ms[k] !in ks;
    }
    assert m in q;
  }

  lemma UnlinkedPlace(p: Memory, q: Memory, kids: Links, n: Node, i: nat, x: Node)
    requires LinkedBy(p, kids) && n in kids && i < |kids[n]| && x in kids && Unlinked(p, q, n, kids[n], i)
    ensures Placed(q, kids[n := Without(kids[n], i)], x)
  {
    var ks := kids[n];
    assert Placed(p, kids, x) && Linked(p, n, ks);
    WithoutUnrepeated(ks, i);
    if x == At(ks, i + 1) || x == At(ks, i - 1) {
      assert p[x].parent == n;
    }
    if x != ks[i] {
      assert q[x].parent == p[x].parent;
    }
  }

  lemma UnlinkedLists(p: Memory, q: Memory, kids: Links, n: Node, i: nat, m: Node)
    requires LinkedBy(p, kids) && n in kids && i < |kids[n]| && m in kids && Unlinked(p, q, n, kids[n], i)
    ensures Linked(q, m, kids[n := Without(kids[n], i)][m])
  {
    assert Linked(p, n, kids[n]) && Linked(p, m, kids[m]);
    if m == n {
      UnlinkedHere(p, q, n, kids[n], i);
    } else {
      UnlinkedElsewhere(p, q, n, kids[n], i, m, kids[m]);
    }
  }

  lemma UnlinkingKeepsLinks(p: Memory, q: Memory, kids: Links, n: Node, i: nat)
    requires LinkedBy(p, kids) && n in kids && i < |kids[n]| && Unlinked(p, q, n, kids[n], i)
    ensures LinkedBy(q, kids[n := Without(kids[n], i)])
  {
    var after := kids[n := Without(kids[n], i)];
    assert after.Keys == kids.Keys;
    forall m | m in after ensures Linked(q, m, after[m]) {
      UnlinkedLists(p, q, kids, n, i, m);
    }
    forall x | x in after ensures Placed(q, after, x) {
      UnlinkedPlace(p, q, kids, n, i, x);
    }
  }

  /** The assignments of RemoveChild. */
  method Detach(n: Node, c: Node, ghost all: set<Node>)
    requires n in all && c in all && n != c && c.next != c && c.prev != c
    requires c.next != null ==> c.next in all
    requires c.prev != null ==> c.prev in all
    modifies all`parent, all`firstChild, all`lastChild, all`prev, all`next
    ensures forall m | m in all :: m.parent == if m == c then null else old(m.parent)
    ensures forall m | m in all ::
              m.prev == if m == c then null else if m == old(c.next) then old(c.prev) else old(m.prev)
    ensures forall m | m in all ::
              m.next == if m == c then null else if m == old(c.prev) then old(c.next) else old(m.next)
    ensures forall m | m in all ::
              m.firstChild == if m == n && old(n.firstChild) == c then old(c.next) else old(m.firstChild)
    ensures forall m | m in all ::
              m.lastChild == if m == n && old(n.lastChild) == c then old(c.prev) else old(m.lastChild)
  {
    if n.firstChild == c {
      n.firstChild := c.next;
    }
    if c.next != null {
      c.next.prev := c.prev;
    }
    if n.lastChild == c {
      n.lastChild := c.prev;
    }
    if c.prev != null {
      c.prev.next := c.next;
    }
    c.parent, c.prev, c.next := null, null, null;
  }

  /** Unlinks child `i` of `n`. */
  method RemoveChild(n: Node, c: Node, ghost kids: Links, ghost i: nat) returns (ghost after: Links)
    requires WellLinked(kids) && n in kids && i < |kids[n]| && kids[n][i] == c
    modifies kids.Keys`parent, kids.Keys`firstChild, kids.Keys`lastChild, kids.Keys`prev, kids.Keys`next
    ensures after == kids[n := Without(kids[n], i)] && after.Keys == kids.Keys && WellLinked(after)
    ensures c.parent == null && c.prev == null && c.next == null
  {
    after := kids[n := Without(kids[n], i)];
    ghost var ks, p := kids[n], Read(kids.Keys);
    ghost var before, next := At(ks, i - 1), At(ks, i + 1);
    assert Linked(p, n, ks) && p[c].next == next && p[c].prev == before && p[n].first == At(ks, 0)
           && p[n].last == At(ks, |ks| - 1);
    assert c in kids && c.next == next && c.prev == before;
    assert n.firstChild == c <==> i == 0;
    assert n.lastChild == c <==> i == |ks| - 1;
    assert next != null ==> next in kids && next != c;
    assert before != null ==> before in kids && before != c;
    Detach(n, c, kids.Keys);
    assert Unlinked(p, Read(kids.Keys), n, ks, i);
    UnlinkingKeepsLinks(p, Read(kids.Keys), kids, n, i);
    assert after.Keys == kids.Keys;
  }

  // ---- inserting -------------------------------------------------------------

  /** From `p` to `q`, the loose node `c` became child `i` of `n`, before what was child `i`. */
  ghost predicate Inserted(p: Memory, q: Memory, n: Node, ks: seq<Node>, i: nat, c: Node)
    requires i < |ks|
  {
    && q.Keys == p.Keys
    && forall m {:trigger q[m]} | m in p ::
         if m == c then q[m] == p[m].(parent := n, prev := At(ks, i - 1), next := ks[i])
         else
           && q[m].parent == p[m].parent
           && q[m].prev == (if m == ks[i] then c else p[m].prev)
           && q[m].next == (if m == At(ks, i - 1) then c else p[m].next)
           && q[m].first == (if m == n && i == 0 then c else p[m].first)
           && q[m].last == p[m].last
  }

  lemma WithAt(ks: seq<Node>, i: nat, c: Node, k: int)
    requires i < |ks|
    ensures At(With(ks, i, c), k) == if k < i then At(ks, k) else if k == i then c else At(ks, k - 1)
  {
  }

  lemma InsertedChild(p: Memory, q: Memory, n: Node, ks: seq<Node>, i: nat, c: Node, k: nat)
    requires Linked(p, n, ks) && i < |ks| && k < |ks| && c in p && c !in ks && Inserted(p, q, n, ks, i, c)
    ensures ks[k] in q && q[ks[k]].parent == n
    ensures q[ks[k]].prev == if k == i then c else At(ks, k - 1)
    ensures q[ks[k]].next == if k == i - 1 then c else At(ks, k + 1)
  {
    assert q[ks[k]].parent == p[ks[k]].parent;
    assert ks[k] == At(ks, i - 1) <==> k == i - 1;
  }

  lemma InsertedChildren(p: Memory, q: Memory, n: Node, ks: seq<Node>, i: nat, c: Node, k: nat)
    requires Linked(p, n, ks) && i < |ks| && k < |ks| + 1 && c in p && c !in ks && c != n && Inserted(p, q, n, ks, i, c)
    ensures var more := With(ks, i, c);
            && more[k] in q && q[more[k]].parent == n
            && q[more[k]].prev == At(more, k - 1) && q[more[k]].next == At(more, k + 1)
  {
    WithAt(ks, i, c, k - 1);
    WithAt(ks, i, c, k);
    WithAt(ks, i, c, k + 1);
    if k != i {
      InsertedChild(p, q, n, ks, i, c, if k < i then k else k - 1);
    } else {
      assert q[c].parent == n;
    }
  }

  lemma WithUnrepeated(ks: seq<Node>, i: nat, c: Node)
    requires i < |ks| && Unrepeated(ks) && c !in ks
    ensures Unrepeated(With(ks, i, c))
    ensures forall x :: x in With(ks, i, c) <==> x in ks || x == c
  {
    var more := With(ks, i, c);
    assert more[i] == c;
    forall x | x in ks ensures x in more {
      var j :| 0 <= j < |ks| && ks[j] == x;
      assert more[if j < i then j else j + 1] == x;
    }
  }

  lemma InsertedHere(p: Memory, q: Memory, n: Node, ks: seq<Node>, i: nat, c: Node)
    requires Linked(p, n, ks) && i < |ks| && c in p && c !in ks && c != n && Inserted(p, q, n, ks, i, c)
    ensures Linked(q, n, With(ks, i, c))
  {
    var more := With(ks, i, c);
    forall k | 0 <= k < |more|
      ensures more[k] in q && q[more[k]].parent == n
      ensures q[more[k]].prev == At(more, k - 1) && q[more[k]].next == At(more, k + 1)
    {
      InsertedChildren(p, q, n, ks, i, c, k);
    }
    WithUnrepeated(ks, i, c);
    WithAt(ks, i, c, 0);
    WithAt(ks, i, c, |more| - 1);
    assert q[n].first == At(more, 0);
    assert q[n].last == At(more, |more| - 1);
  }

  lemma InsertedElsewhere(p: Memory, q: Memory, n: Node, ks: seq<Node>, i: nat, c: Node, m: Node, ms: seq<Node>)
    requires Linked(p, n, ks) && Linked(p, m, ms) && i < |ks| && m != n && c in p && p[c].parent == null
    requires Inserted(p, q, n, ks, i, c)
    ensures Linked(q, m, ms)
  {
    forall k | 0 <= k < |ms|
      ensures ms[k] in q && q[ms[k]].parent == m && q[ms[k]].prev == p[ms[k]].prev && q[ms[k]].next == p[ms[k]].next
    {
      assert p[ms[k]].parent == m;
      assert ms[k] !in ks && ms[k] != c;
    }
    assert m in q;
  }

  lemma InsertedPlace(p: Memory, q: Memory, kids: Links, n: Node, i: nat, c: Node, x: Node)
    requires LinkedBy(p, kids) && n in kids && i < |kids[n]| && x in kids && c in p && p[c].parent == null && c != n
    requires Inserted(p, q, n, kids[n], i, c)
    ensures Placed(q, kids[n := With(kids[n], i, c)], x)
  {
    var ks := kids[n];
    assert Placed(p, kids, x) && Linked(p, n, ks);
    assert c !in ks;
    WithUnrepeated(ks, i, c);
    if x == ks[i] || x == At(ks, i - 1) {
      assert p[x].parent == n;
    }
    if x == c {
      assert q[x].parent == n;
    } else {
      assert q[x].parent == p[x].parent;
    }
  }

  lemma InsertedLists(p: Memory, q: Memory, kids: Links, n: Node, i: nat, c: Node, m: Node)
    requires LinkedBy(p, kids) && n in kids && i < |kids[n]| && m in kids && c in p && p[c].parent == null && c != n
    requires Inserted(p, q, n, kids[n], i, c)
    ensures Linked(q, m, kids[n := With(kids[n], i, c)][m])
  {
    assert Linked(p, n, kids[n]) && Linked(p, m, kids[m]);
    if m == n {
      assert c !in kids[n];
      InsertedHere(p, q, n, kids[n], i, c);
    } else {
      InsertedElsewhere(p, q, n, kids[n], i, c, m, kids[m]);
    }
  }

  lemma InsertingKeepsLinks(p: Memory, q: Memory, kids: Links, n: Node, i: nat, c: Node)
    requires LinkedBy(p, kids) && n in kids && i < |kids[n]| && c in p && p[c].parent == null && c != n
    requires Inserted(p, q, n, kids[n], i, c)
    ensures LinkedBy(q, kids[n := With(kids[n], i, c)])
  {
    var after := kids[n := With(kids[n], i, c)];
    assert after.Keys == kids.Keys;
    forall m | m in after ensures Linked(q, m, after[m]) {
      InsertedLists(p, q, kids, n, i, c, m);
    }
    forall x | x in after ensures Placed(q, after, x) {
      InsertedPlace(p, q, kids, n, i, c, x);
    }
  }

  /** The assignments of InsertBefore. */
  method Attach(n: Node, c: Node, sibling: Node, ghost all: set<Node>)
    requires n in all && c in all && sibling in all && c != n && c != sibling && sibling.prev != c
    requires sibling.prev != null ==> sibling.prev in all
    modifies all`parent, all`firstChild, all`lastChild, all`prev, all`next
    ensures forall m | m in all :: m.parent == if m == c then n else old(m.parent)
    ensures forall m | m in all ::
              m.prev == if m == c then old(sibling.prev) else if m == sibling then c else old(m.prev)
    ensures forall m | m in all ::
              m.next == if m == c then sibling else if m == old(sibling.prev) then c else old(m.next)
    ensures forall m | m in all :: m.firstChild == if m == n && old(sibling.prev) == null then c else old(m.firstChild)
    ensures forall m | m in all :: m.lastChild == old(m.lastChild)
  {
    var prev := sibling.prev;
    if prev != null {
      prev.next := c;
    } else {
      n.firstChild := c;
    }
    sibling.prev := c;
    c.parent, c.prev, c.next := n, prev, sibling;
  }

  /** Links the loose node `c` before child `i` of `n`. */
  method InsertBefore(n: Node, c: Node, sibling: Node, ghost kids: Links, ghost i: nat) returns (ghost after: Links)
    requires WellLinked(kids) && n in kids && i < |kids[n]| && kids[n][i] == sibling
    requires c in kids && c != n && c.parent == null && c.prev == null && c.next == null
    modifies kids.Keys`parent, kids.Keys`firstChild, kids.Keys`lastChild, kids.Keys`prev, kids.Keys`next
    ensures after == kids[n := With(kids[n], i, c)] && after.Keys == kids.Keys && WellLinked(after)
  {
    after := kids[n := With(kids[n], i, c)];
    ghost var ks, p := kids[n], Read(kids.Keys);
    assert Linked(p, n, ks) && p[sibling].prev == At(ks, i - 1) && p[sibling].parent == n && p[n].first == At(ks, 0);
    assert sibling in kids && sibling.prev == At(ks, i - 1) && c != sibling;
    assert forall k | 0 <= k < |ks| :: p[ks[k]].parent == n;
    assert i > 0 ==> ks[i - 1] in p && ks[i - 1] != c;
    Attach(n, c, sibling, kids.Keys);
    assert Inserted(p, Read(kids.Keys), n, ks, i, c);
    InsertingKeepsLinks(p, Read(kids.Keys), kids, n, i, c);
    assert after.Keys == kids.Keys;
  }

  lemma FirstChild(n: Node, kids: Links)
    requires WellLinked(kids) && n in kids
    ensures n.firstChild == At(kids[n], 0)
  {
    assert Linked(Read(kids.Keys), n, kids[n]);
  }

  lemma NextSibling(n: Node, kids: Links, i: nat)
    requires WellLinked(kids) && n in kids && i < |kids[n]|
    ensures kids[n][i] in kids && kids[n][i].next == At(kids[n], i + 1)
  {
    var p := Read(kids.Keys);
    assert Linked(p, n, kids[n]) && p[kids[n][i]].next == At(kids[n], i + 1);
  }
}
