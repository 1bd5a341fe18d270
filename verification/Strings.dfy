/** The orders and sorts the Go code takes from `sort` and from `<` on strings.

    Go compares strings byte by byte; on UTF-8 that is the order of the code points. A sort is
    modelled by what it promises, a sorted permutation, and `SortUnique` says that this
    determines the result wherever the order tells the elements apart. */
module Strings {

  predicate Le(a: string, b: string) {
    a == [] || (b != [] && (a[0] < b[0] || (a[0] == b[0] && Le(a[1..], b[1..]))))
  }

  lemma {:induction false} LeTotal(a: string, b: string)
    ensures Le(a, b) || Le(b, a)
  {
    if a != [] && b != [] { LeTotal(a[1..], b[1..]); }
  }

  lemma {:induction false} LeAntisymmetric(a: string, b: string)
    requires Le(a, b) && Le(b, a)
    ensures a == b
  {
    if a != [] {
      LeAntisymmetric(a[1..], b[1..]);
      assert a == [a[0]] + a[1..] && b == [b[0]] + b[1..];
    }
  }

  lemma {:induction false} LeTransitive(a: string, b: string, c: string)
    requires Le(a, b) && Le(b, c)
    ensures Le(a, c)
  {
    if a != [] && a[0] == b[0] == c[0] { LeTransitive(a[1..], b[1..], c[1..]); }
  }

  /** The order of the code points at the first difference, a text after its own prefixes. */
  lemma {:induction false} LeIff(a: string, b: string)
    ensures Le(a, b) <==>
            || (|a| <= |b| && b[..|a|] == a)
            || exists i :: 0 <= i < |a| && i < |b| && a[..i] == b[..i] && a[i] < b[i]
  {
    if a != [] && b != [] {
      LeIff(a[1..], b[1..]);
      if a[0] == b[0] { FirstDifference(a, b); } else { assert a[..0] == b[..0]; }
    }
  }

  lemma FirstDifference(a: string, b: string)
    requires a != [] && b != [] && a[0] == b[0]
    ensures |a| <= |b| && b[..|a|] == a <==> |a[1..]| <= |b[1..]| && b[1..][..|a| - 1] == a[1..]
    ensures (exists i :: 0 <= i < |a| && i < |b| && a[..i] == b[..i] && a[i] < b[i])
            <==> exists i :: 0 <= i < |a[1..]| && i < |b[1..]| && a[1..][..i] == b[1..][..i] && a[1..][i] < b[1..][i]
  {
    assert a == [a[0]] + a[1..] && b == [b[0]] + b[1..];
    if |a| <= |b| { assert b[..|a|] == [b[0]] + b[1..][..|a| - 1]; }
    if i :| 0 <= i < |a| && i < |b| && a[..i] == b[..i] && a[i] < b[i] {
      assert a[1..][..i - 1] == a[..i][1..] && b[1..][..i - 1] == b[..i][1..];
      assert a[1..][i - 1] < b[1..][i - 1];
    }
    if i :| 0 <= i < |a[1..]| && i < |b[1..]| && a[1..][..i] == b[1..][..i] && a[1..][i] < b[1..][i] {
      assert a[..i + 1] == [a[0]] + a[1..][..i] && b[..i + 1] == [b[0]] + b[1..][..i];
      assert a[i + 1] < b[i + 1];
    }
  }

  /** The sort key of the code's comparisons: one string, or a string and a tie-breaker. */
  datatype Key = Key(first: string, second: string)

  function TextKey(s: string): Key { Key(s, "") }

  predicate KeyLe(a: Key, b: Key) {
    if a.first == b.first then Le(a.second, b.second) else Le(a.first, b.first)
  }

  lemma KeyLeTotal(a: Key, b: Key)
    ensures KeyLe(a, b) || KeyLe(b, a)
  {
    LeTotal(a.first, b.first);
    LeTotal(a.second, b.second);
  }

  lemma KeyLeTransitive(a: Key, b: Key, c: Key)
    requires KeyLe(a, b) && KeyLe(b, c)
    ensures KeyLe(a, c)
  {
    if a.first == b.first == c.first {
      LeTransitive(a.second, b.second, c.second);
    } else if a.first != b.first && b.first != c.first {
      if a.first == c.first { LeAntisymmetric(a.first, b.first); }
      LeTransitive(a.first, b.first, c.first);
    }
  }

  lemma KeyLeAntisymmetric(a: Key, b: Key)
    requires KeyLe(a, b) && KeyLe(b, a)
    ensures a == b
  {
    if a.first != b.first { LeAntisymmetric(a.first, b.first); }
    LeAntisymmetric(a.second, b.second);
  }

  ghost predicate SortedBy<T>(key: T -> Key, s: seq<T>) {
    forall i, j | 0 <= i < j < |s| :: KeyLe(key(s[i]), key(s[j]))
  }

  lemma FirstIsLeast<T>(key: T -> Key, x: T, s: seq<T>)
    requires SortedBy(key, s) && (s != [] ==> KeyLe(key(x), key(s[0])))
    ensures SortedBy(key, [x] + s)
  {
    var r := [x] + s;
    forall i, j | 0 <= i < j < |r| ensures KeyLe(key(r[i]), key(r[j])) {
      if i == 0 && j > 1 { KeyLeTransitive(key(x), key(s[0]), key(s[j - 1])); }
    }
  }

  lemma LeastFirst<T>(key: T -> Key, first: T, x: T, s: seq<T>, rest: seq<T>)
    requires SortedBy(key, rest) && multiset(rest) == multiset(s) + multiset{x}
    requires KeyLe(key(first), key(x)) && forall y | y in s :: KeyLe(key(first), key(y))
    ensures SortedBy(key, [first] + rest)
  {
    if rest != [] { assert rest[0] in multiset(rest); }
    FirstIsLeast(key, first, rest);
  }

  function Insert<T>(key: T -> Key, x: T, s: seq<T>): (r: seq<T>)
    requires SortedBy(key, s)
    ensures SortedBy(key, r)
    ensures multiset(r) == multiset(s) + multiset{x} && |r| == |s| + 1
  {
    if s == [] then [x]
    else if KeyLe(key(x), key(s[0])) then
      FirstIsLeast(key, x, s);
      [x] + s
    else
      var rest := Insert(key, x, s[1..]);
      assert s == [s[0]] + s[1..];
      KeyLeTotal(key(s[0]), key(x));
      LeastFirst(key, s[0], x, s[1..], rest);
      [s[0]] + rest
  }

  /** A sort as `sort.Slice` promises it: the same elements, in order. */
  function Sort<T>(key: T -> Key, s: seq<T>): (r: seq<T>)
    ensures SortedBy(key, r)
    ensures multiset(r) == multiset(s)
    ensures |r| == |s|
  {
    if s == [] then []
    else
      var r := Insert(key, s[0], Sort(key, s[1..]));
      assert s == [s[0]] + s[1..];
      r
  }

  ghost predicate Distinct<T>(s: seq<T>) {
    forall i, j | 0 <= i < j < |s| :: s[i] != s[j]
  }

  ghost predicate DistinctKeys<T>(key: T -> Key, s: seq<T>) {
    forall i, j | 0 <= i < j < |s| :: key(s[i]) != key(s[j])
  }

  lemma HasElement<T>(s: seq<T>)
    ensures s != [] <==> exists x :: x in s
  {
    if s != [] { assert s[0] in s; }
  }

  /** Two sorted lists with the same elements and no repeated key are the same list: the
      random order in which Go iterates a map cannot be seen after the sort. */
  lemma {:induction false} SortUnique<T>(key: T -> Key, a: seq<T>, b: seq<T>)
    requires SortedBy(key, a) && SortedBy(key, b)
    requires DistinctKeys(key, a) && DistinctKeys(key, b)
    requires forall x :: x in a <==> x in b
    ensures a == b
  {
    HasElement(a);
    HasElement(b);
    if a != [] {
      assert a[0] in b && b[0] in a;
      var i :| 0 <= i < |b| && b[i] == a[0];
      var j :| 0 <= j < |a| && a[j] == b[0];
      assert key(a[0]) == key(b[0]) by {
        KeyLeTotal(key(a[0]), key(a[0]));
        KeyLeTotal(key(b[0]), key(b[0]));
        KeyLeAntisymmetric(key(a[0]), key(b[0]));
      }
      assert i == 0;
      forall x ensures x in a[1..] <==> x in b[1..] {
        if x in a[1..] {
          var k :| 0 <= k < |a[1..]| && a[1..][k] == x;
          assert a[k + 1] == x && x in a;
          assert key(a[0]) != key(a[k + 1]);
          assert x in b && x != b[0];
          var m :| 0 <= m < |b| && b[m] == x;
          assert b[1..][m - 1] == x;
        }
        if x in b[1..] {
          var k :| 0 <= k < |b[1..]| && b[1..][k] == x;
          assert b[k + 1] == x && x in b;
          assert key(b[0]) != key(b[k + 1]);
          assert x in a && x != a[0];
          var m :| 0 <= m < |a| && a[m] == x;
          assert a[1..][m - 1] == x;
        }
      }
      SortUnique(key, a[1..], b[1..]);
      assert a == [a[0]] + a[1..] && b == [b[0]] + b[1..];
    }
  }

  /** A list is distinct iff no element counts twice. */
  lemma {:induction false} DistinctIsCounted<T>(s: seq<T>)
    ensures Distinct(s) <==> forall x :: multiset(s)[x] <= 1
  {
    if s != [] {
      var n := |s| - 1;
      var a, y := s[..n], s[n];
      assert s == a + [y];
      DistinctIsCounted(a);
      assert forall x :: multiset(s)[x] == multiset(a)[x] + if x == y then 1 else 0;
      assert y in a <==> multiset(a)[y] > 0;
      if Distinct(s) {
        assert forall i | 0 <= i < n :: a[i] == s[i] != y;
        assert y !in a;
      } else if Distinct(a) {
        assert exists i | 0 <= i < n :: s[i] == y;
        assert y in a;
      }
    }
  }

  lemma SortKeepsDistinct<T>(key: T -> Key, s: seq<T>)
    ensures Distinct(s) <==> Distinct(Sort(key, s))
    ensures forall x :: x in s <==> x in Sort(key, s)
  {
    DistinctIsCounted(s);
    DistinctIsCounted(Sort(key, s));
    forall x ensures x in s <==> x in Sort(key, s) { assert x in multiset(s) <==> x in multiset(Sort(key, s)); }
  }

  lemma KeysDiffer<T>(key: T -> Key, s: seq<T>, x: T, y: T)
    requires DistinctKeys(key, s) && x in s && y in s && x != y
    ensures key(x) != key(y)
  {
    var a :| 0 <= a < |s| && s[a] == x;
    var b :| 0 <= b < |s| && s[b] == y;
    assert a < b || b < a;
  }

  lemma SortKeepsDistinctKeys<T>(key: T -> Key, s: seq<T>)
    requires DistinctKeys(key, s)
    ensures DistinctKeys(key, Sort(key, s))
    ensures forall x :: x in s <==> x in Sort(key, s)
  {
    SortKeepsDistinct(key, s);
    forall i, j | 0 <= i < j < |s| ensures s[i] != s[j] { assert key(s[i]) != key(s[j]); }
    DistinctCarriesOver(key, s, Sort(key, s));
  }

  lemma DistinctCarriesOver<T>(key: T -> Key, s: seq<T>, r: seq<T>)
    requires DistinctKeys(key, s) && Distinct(r) && forall x :: x in s <==> x in r
    ensures DistinctKeys(key, r)
  {
    forall i, j | 0 <= i < j < |r| ensures key(r[i]) != key(r[j]) {
      assert r[i] in r && r[j] in r;
      KeysDiffer(key, s, r[i], r[j]);
    }
  }

  /** `unicode.ToLower` on the letters whose lower case is ASCII; a lookup among ASCII
      names can tell no other apart. */
  function LowerChar(c: char): char {
    if 'A' <= c <= 'Z' then c - 'A' + 'a'
    else if c == '\U{212A}' then 'k'
    else if c == '\U{0130}' then 'i'
    else c
  }

  function Lower(s: string): string {
    if s == "" then "" else [LowerChar(s[0])] + Lower(s[1..])
  }

  // ---- joining ---------------------------------------------------------------

  lemma JoinThree<T>(a: seq<T>, b: seq<T>, c: seq<T>)
    ensures a + (b + c) == a + b + c
  {
  }

  // ---- splitting -------------------------------------------------------------

  /** `strings.Split` on one character. */
  function Split(s: string, c: char): (r: seq<string>)
    ensures r != []
  {
    if s == "" then [""]
    else if s[0] == c then [""] + Split(s[1..], c)
    else var r := Split(s[1..], c); [[s[0]] + r[0]] + r[1..]
  }

  function Join(es: seq<string>, c: char): string
    requires es != []
  {
    if |es| == 1 then es[0] else es[0] + [c] + Join(es[1..], c)
  }

  lemma {:induction false} SplitOfAppend(a: string, b: string, c: char)
    ensures Split(a + [c] + b, c) == Split(a, c) + Split(b, c)
  {
    if a == "" {
      assert a + [c] + b == [c] + b && ([c] + b)[1..] == b;
    } else {
      assert (a + [c] + b)[1..] == a[1..] + [c] + b && (a + [c] + b)[0] == a[0];
      SplitOfAppend(a[1..], b, c);
      if a[0] != c {
        var r := Split(a[1..], c);
        assert (r + Split(b, c))[1..] == r[1..] + Split(b, c);
      }
    }
  }

  lemma {:induction false} JoinOfSplit(s: string, c: char)
    ensures Join(Split(s, c), c) == s
  {
    if s != "" {
      JoinOfSplit(s[1..], c);
      var r := Split(s[1..], c);
      if s[0] == c {
        assert ([""] + r)[1..] == r;
        assert "" + [c] + s[1..] == s;
      } else {
        var e := [[s[0]] + r[0]] + r[1..];
        assert e[1..] == r[1..];
        assert [s[0]] + s[1..] == s;
        if |r| > 1 {
          assert [s[0]] + r[0] + [c] + Join(r[1..], c) == [s[0]] + (r[0] + [c] + Join(r[1..], c));
        }
      }
    }
  }

  lemma {:induction false} JoinOfAppend(a: seq<string>, b: seq<string>, c: char)
    requires a != [] && b != []
    ensures Join(a + b, c) == Join(a, c) + [c] + Join(b, c)
  {
    if |a| == 1 {
      assert (a + b)[1..] == b;
    } else {
      assert (a + b)[1..] == a[1..] + b;
      JoinOfAppend(a[1..], b, c);
      assert a[0] + [c] + (Join(a[1..], c) + [c] + Join(b, c)) == a[0] + [c] + Join(a[1..], c) + [c] + Join(b, c);
    }
  }

  lemma {:induction false} SplitOfOne(s: string, c: char)
    requires c !in s
    ensures Split(s, c) == [s]
  {
    if s != "" {
      assert s[0] in s && forall x | x in s[1..] :: x in s;
      SplitOfOne(s[1..], c);
      assert [s[0]] + s[1..] == s;
    }
  }

  /** The elements of a split hold no separator. */
  lemma {:induction false} SplitHasNoSeparator(s: string, c: char)
    ensures forall e | e in Split(s, c) :: c !in e
  {
    if s != "" { SplitHasNoSeparator(s[1..], c); }
  }

  lemma {:induction false} SplitOfJoin(es: seq<string>, c: char)
    requires es != [] && forall e | e in es :: c !in e
    ensures Split(Join(es, c), c) == es
  {
    assert es[0] in es && forall e | e in es[1..] :: e in es;
    SplitOfOne(es[0], c);
    if |es| > 1 {
      SplitOfJoin(es[1..], c);
      SplitOfAppend(es[0], Join(es[1..], c), c);
      assert es == [es[0]] + es[1..];
    }
  }
}
