/** Labelled rose trees: the values that the linked `ChildrenTree` stands for.

    A label is a node id (the routing trees of the mesh) or a heap cell (the
    shape of a linked tree). Lookup is by first occurrence in preorder, which is
    the order in which the depth-first search of the source meets the nodes.
  */
module Trees {
  import Sequences

  const ID_LIMIT: int := 0x1_0000_0000
  const NO_ID: Id := 0xFFFF_FFFF  // UINT32_MAX, "no such node"
  const MAX_CHILDREN: nat := 4

  newtype Id = x: int | 0 <= x < ID_LIMIT

  datatype Option<+T> = None | Some(value: T)

  datatype Tree<T> = Node(root: T, kids: seq<Tree<T>>)

  function Leaf<T>(x: T): Tree<T> {
    Node(x, [])
  }

  function Labels<T>(f: seq<Tree<T>>): (r: seq<T>)
    ensures |r| == |f| && forall i :: 0 <= i < |f| ==> r[i] == f[i].root
  {
    seq(|f|, i requires 0 <= i < |f| => f[i].root)
  }

  /** All labels, a node before its children, children left to right. */
  function Pre<T>(t: Tree<T>): seq<T> {
    [t.root] + PreAll(t.kids)
  }

  function PreAll<T>(f: seq<Tree<T>>): seq<T> {
    if f == [] then [] else Pre(f[0]) + PreAll(f[1..])
  }

  predicate NoDup<T(==)>(s: seq<T>) {
    forall i, j :: 0 <= i < j < |s| ==> s[i] != s[j]
  }

  predicate Unique<T(==)>(t: Tree<T>) {
    NoDup(Pre(t))
  }

  /** The first subtree in preorder whose root is labelled `a`. */
  function Sub<T(==)>(t: Tree<T>, a: T): (r: Option<Tree<T>>)
    ensures r.Some? <==> a in Pre(t)
    ensures r.Some? ==> r.value.root == a
  {
    if t.root == a then Some(t) else SubAll(t.kids, a)
  }

  function SubAll<T(==)>(f: seq<Tree<T>>, a: T): (r: Option<Tree<T>>)
    ensures r.Some? <==> a in PreAll(f)
    ensures r.Some? ==> r.value.root == a
  {
    if f == [] then None
    else var r := Sub(f[0], a); if r.Some? then r else SubAll(f[1..], a)
  }

  /** The labels of the children of the first node labelled `a`. */
  function KidsOf<T(==)>(t: Tree<T>, a: T): seq<T> {
    var u := Sub(t, a);
    if u.None? then [] else Labels(u.value.kids)
  }

  /** A new leaf `x`, last under the first node labelled `a`. */
  function Insert<T(==)>(t: Tree<T>, a: T, x: T): (r: Tree<T>)
    ensures r.root == t.root
  {
    if t.root == a then Node(t.root, t.kids + [Leaf(x)])
    else Node(t.root, InsertAll(t.kids, a, x))
  }

  function InsertAll<T(==)>(f: seq<Tree<T>>, a: T, x: T): (r: seq<Tree<T>>)
    ensures Labels(r) == Labels(f)
  {
    if f == [] then []
    else if a in Pre(f[0]) then [Insert(f[0], a, x)] + f[1..]
    else [f[0]] + InsertAll(f[1..], a, x)
  }

  /** The root's child whose subtree holds `d`: the first hop on the way down. */
  function Path<T(==)>(t: Tree<T>, d: T): Option<T> {
    PathAll(t.kids, d)
  }

  function PathAll<T(==)>(f: seq<Tree<T>>, d: T): (r: Option<T>)
    ensures r.Some? <==> d in PreAll(f)
    ensures r.Some? ==> r.value in Labels(f)
  {
    if f == [] then None
    else if d in Pre(f[0]) then assert Labels(f)[0] == f[0].root; Some(f[0].root)
    else
      var r := PathAll(f[1..], d);
      assert Labels(f)[1..] == Labels(f[1..]);
      r
  }

  // ---------------------------------------------------------------- sequences

  predicate Spliced<T(==)>(s: seq<T>, r: seq<T>, k: nat, x: T) {
    k <= |s| && r == s[..k] + [x] + s[k..]
  }

  /** `r` has the members of `s` and `x`. */
  predicate Extends<T(==)>(s: seq<T>, r: seq<T>, x: T) {
    && x in r
    && (forall i :: 0 <= i < |s| ==> s[i] in r)
    && (forall i :: 0 <= i < |r| ==> r[i] == x || r[i] in s)
  }

  lemma SplicedNoDup<T>(s: seq<T>, r: seq<T>, k: nat, x: T)
    requires Spliced(s, r, k, x) && NoDup(s) && x !in s
    ensures NoDup(r)
  {
    forall i, j | 0 <= i < j < |r| ensures r[i] != r[j] {
      if i != k && j != k {
        assert r[i] == s[if i < k then i else i - 1] && r[j] == s[if j < k then j else j - 1];
      }
    }
  }

  lemma NoDupParts<T>(a: seq<T>, b: seq<T>)
    requires NoDup(a + b)
    ensures NoDup(a) && NoDup(b) && forall x :: x in a ==> x !in b
  {
    var s := a + b;
    assert forall i :: 0 <= i < |a| ==> a[i] == s[i];
    assert forall i :: 0 <= i < |b| ==> b[i] == s[|a| + i];
    forall i, j | 0 <= i < |a| && 0 <= j < |b| ensures a[i] != b[j] {
      assert s[i] != s[|a| + j];
    }
  }

  /** A repetition-free list drawn from a set is no longer than the set. */
  lemma {:induction false} NoDupBound<T>(s: seq<T>, bound: set<T>)
    requires NoDup(s) && forall x :: x in s ==> x in bound
    ensures |s| <= |bound|
  {
    if s != [] {
      assert s == [s[0]] + s[1..];
      NoDupParts([s[0]], s[1..]);
      NoDupBound(s[1..], bound - {s[0]});
    }
  }

  // ------------------------------------------------------------------ inserting

  /** Inserting splices the new label into the preorder at one place. */
  lemma {:induction false} InsertPre<T>(t: Tree<T>, a: T, x: T) returns (k: nat)
    requires a in Pre(t)
    ensures Spliced(Pre(t), Pre(Insert(t, a, x)), k, x)
    decreases t
  {
    if t.root == a {
      k := |Pre(t)|;
      PreAllAppend(t.kids, [Leaf(x)]);
      assert PreAll([Leaf(x)]) == [x];
    } else {
      var j := InsertAllPre(t.kids, a, x);
      k := j + 1;
      var p, q := PreAll(t.kids), PreAll(InsertAll(t.kids, a, x));
      assert [t.root] + (p[..j] + [x] + p[j..]) == Pre(t)[..k] + [x] + Pre(t)[k..];
    }
  }

  lemma {:induction false} InsertAllPre<T>(f: seq<Tree<T>>, a: T, x: T) returns (k: nat)
    requires a in PreAll(f)
    ensures Spliced(PreAll(f), PreAll(InsertAll(f, a, x)), k, x)
    decreases f
  {
    var g := InsertAll(f, a, x);
    if a in Pre(f[0]) {
      k := InsertPre(f[0], a, x);
      assert g[1..] == f[1..];
      Sequences.PutInFront(Pre(f[0]), PreAll(f[1..]), k, x);
    } else {
      var j := InsertAllPre(f[1..], a, x);
      k := |Pre(f[0])| + j;
      assert g[1..] == InsertAll(f[1..], a, x);
      Sequences.PutBehind(Pre(f[0]), PreAll(f[1..]), j, x);
    }
  }

  lemma {:induction false} PreAllAppend<T>(f: seq<Tree<T>>, g: seq<Tree<T>>)
    ensures PreAll(f + g) == PreAll(f) + PreAll(g)
  {
    if f == [] {
      assert f + g == g;
    } else {
      assert (f + g)[1..] == f[1..] + g;
      PreAllAppend(f[1..], g);
    }
  }

  /** The labels after an insertion, and uniqueness when the label is new. */
  lemma InsertLabels<T>(t: Tree<T>, a: T, x: T)
    requires a in Pre(t)
    ensures Extends(Pre(t), Pre(Insert(t, a, x)), x)
    ensures |Pre(Insert(t, a, x))| == |Pre(t)| + 1
    ensures Unique(t) && x !in Pre(t) ==> Unique(Insert(t, a, x))
  {
    var k := InsertPre(t, a, x);
    var s, r := Pre(t), Pre(Insert(t, a, x));
    assert s == s[..k] + s[k..];
    if Unique(t) && x !in s {
      SplicedNoDup(s, r, k, x);
    }
  }

  /** An insertion grows one child list at its end and leaves every other as it
      was; only a second occurrence of the inserted label could be hidden by it. */
  lemma {:induction false} InsertKids<T>(t: Tree<T>, a: T, x: T, b: T)
    requires a in Pre(t) && (b != x || b == a || x !in Pre(t))
    ensures KidsOf(Insert(t, a, x), b) ==
            if b == a then KidsOf(t, a) + [x] else KidsOf(t, b)
    decreases t
  {
    InsertLabels(t, a, x);
    if t.root == a {
      if b != a { SubAllAppend(t.kids, x, b); }
    } else if t.root != b {
      InsertAllKids(t.kids, a, x, b);
    } else {
      assert Labels(InsertAll(t.kids, a, x)) == Labels(t.kids);
    }
  }

  function KidsOfAll<T(==)>(f: seq<Tree<T>>, a: T): seq<T> {
    var u := SubAll(f, a);
    if u.None? then [] else Labels(u.value.kids)
  }

  lemma {:induction false} SubAllAppend<T>(f: seq<Tree<T>>, x: T, b: T)
    ensures KidsOfAll(f + [Leaf(x)], b) == KidsOfAll(f, b)
  {
    if f == [] {
      assert f + [Leaf(x)] == [Leaf(x)] && Pre(Leaf(x)) == [x];
      assert SubAll([Leaf(x)], b) == if b == x then Some(Leaf(x)) else None;
      assert Labels(Leaf(x).kids) == [];
    } else {
      assert (f + [Leaf(x)])[1..] == f[1..] + [Leaf(x)];
      SubAllAppend(f[1..], x, b);
    }
  }

  lemma {:induction false} InsertAllKids<T>(f: seq<Tree<T>>, a: T, x: T, b: T)
    requires a in PreAll(f) && (b != x || b == a || x !in PreAll(f))
    ensures KidsOfAll(InsertAll(f, a, x), b) ==
            if b == a then KidsOfAll(f, a) + [x] else KidsOfAll(f, b)
    decreases f
  {
    var g := InsertAll(f, a, x);
    if a in Pre(f[0]) {
      assert g[0] == Insert(f[0], a, x) && g[1..] == f[1..];
      InsertKids(f[0], a, x, b);
      InsertLabels(f[0], a, x);
      if b == x && b != a {
        assert KidsOf(f[0], x) == [] && KidsOfAll(f, x) == [];
      }
    } else {
      assert g[0] == f[0] && g[1..] == InsertAll(f[1..], a, x);
      InsertAllKids(f[1..], a, x, b);
    }
  }

  /** Older routes survive an insertion; the new label is reached the way its
      parent is, or directly when it hangs under the root. */
  lemma InsertPath<T>(t: Tree<T>, a: T, x: T, d: T)
    requires a in Pre(t) && x !in Pre(t)
    ensures d != x ==> Path(Insert(t, a, x), d) == Path(t, d)
    ensures Path(Insert(t, a, x), x) == if a == t.root then Some(x) else Path(t, a)
  {
    if a == t.root {
      PathAllAppend(t.kids, x, d);
      PathAllAppend(t.kids, x, x);
    } else {
      InsertAllPath(t.kids, a, x, d);
      InsertAllPath(t.kids, a, x, x);
    }
  }

  lemma {:induction false} PathAllAppend<T>(f: seq<Tree<T>>, x: T, d: T)
    requires x !in PreAll(f)
    ensures PathAll(f + [Leaf(x)], d) == if d == x then Some(x) else PathAll(f, d)
  {
    if f == [] {
      assert Pre(Leaf(x)) == [x] && (f + [Leaf(x)])[1..] == [];
    } else {
      assert (f + [Leaf(x)])[1..] == f[1..] + [Leaf(x)];
      PathAllAppend(f[1..], x, d);
    }
  }

  lemma {:induction false} InsertAllPath<T>(f: seq<Tree<T>>, a: T, x: T, d: T)
    requires a in PreAll(f) && x !in PreAll(f)
    ensures PathAll(InsertAll(f, a, x), d) == if d == x then PathAll(f, a) else PathAll(f, d)
    decreases f
  {
    var g := InsertAll(f, a, x);
    if a in Pre(f[0]) {
      InsertLabels(f[0], a, x);
      assert g[1..] == f[1..];
    } else {
      assert g[1..] == InsertAll(f[1..], a, x);
      InsertAllPath(f[1..], a, x, d);
    }
  }

  // -------------------------------------------------------------------- lookups

  /** Next-hop search refines lookup: away from the root it finds exactly the ids
      that lookup finds, and names the child whose subtree holds the node. */
  lemma PathFindsSub<T>(t: Tree<T>, d: T)
    requires d != t.root
    ensures Path(t, d).Some? <==> Sub(t, d).Some?
    ensures Path(t, d).Some? ==>
              exists i :: 0 <= i < |t.kids| && t.kids[i].root == Path(t, d).value
                       && Sub(t, d) == Sub(t.kids[i], d)
  {
    if d in PreAll(t.kids) {
      var i := PathAllFindsSub(t.kids, d);
    }
  }

  lemma {:induction false} PathAllFindsSub<T>(f: seq<Tree<T>>, d: T) returns (i: nat)
    requires d in PreAll(f)
    ensures i < |f| && PathAll(f, d) == Some(f[i].root) && SubAll(f, d) == Sub(f[i], d) && d in Pre(f[i])
    ensures forall j :: 0 <= j < i ==> d !in Pre(f[j])
  {
    if d in Pre(f[0]) {
      i := 0;
    } else {
      i := PathAllFindsSub(f[1..], d);
      i := i + 1;
    }
  }

  lemma {:induction false} InSomeKid<T>(f: seq<Tree<T>>, i: nat, d: T)
    requires i < |f| && d in Pre(f[i])
    ensures d in PreAll(f)
  {
    if i > 0 {
      assert f[i] == f[1..][i - 1];
      InSomeKid(f[1..], i - 1, d);
    }
  }

  /** The root of a repetition-free tree is not repeated below it. */
  lemma UniqueParts<T>(t: Tree<T>)
    requires Unique(t)
    ensures t.root !in PreAll(t.kids) && NoDup(PreAll(t.kids)) && NoDup(Labels(t.kids))
    ensures forall i :: 0 <= i < |t.kids| ==> Unique(t.kids[i])
  {
    NoDupParts([t.root], PreAll(t.kids));
    UniqueForest(t.kids);
  }

  lemma {:induction false} UniqueForest<T>(f: seq<Tree<T>>)
    requires NoDup(PreAll(f))
    ensures forall i :: 0 <= i < |f| ==> Unique(f[i])
    ensures NoDup(Labels(f))
    ensures forall i, d :: 0 <= i < |f| && d in Pre(f[i]) ==> SubAll(f, d) == Sub(f[i], d)
  {
    if f != [] {
      NoDupParts(Pre(f[0]), PreAll(f[1..]));
      UniqueForest(f[1..]);
      forall i, d | 0 <= i < |f| && d in Pre(f[i]) ensures SubAll(f, d) == Sub(f[i], d) {
        if i > 0 {
          assert f[i] == f[1..][i - 1];
          InSomeKid(f[1..], i - 1, d);
          assert d !in Pre(f[0]);
        }
      }
      forall j | 0 < j < |f| ensures f[0].root != f[j].root {
        assert f[j] == f[1..][j - 1];
        InSomeKid(f[1..], j - 1, f[j].root);
      }
      assert forall i :: 1 <= i < |f| ==> f[i] == f[1..][i - 1];
    }
  }

  /** Child lists of a repetition-free tree have no repeats, and their members are
      in the tree. */
  lemma {:induction false} KidsNoDup<T>(t: Tree<T>, a: T)
    requires Unique(t)
    ensures NoDup(KidsOf(t, a)) && forall x :: x in KidsOf(t, a) ==> x in PreAll(t.kids)
    decreases t
  {
    UniqueParts(t);
    if t.root == a {
      forall i | 0 <= i < |t.kids| ensures t.kids[i].root in PreAll(t.kids) {
        InSomeKid(t.kids, i, t.kids[i].root);
      }
    } else if a in PreAll(t.kids) {
      var i := PathAllFindsSub(t.kids, a);
      KidsNoDup(t.kids[i], a);
      forall x | x in KidsOf(t.kids[i], a) ensures x in PreAll(t.kids) {
        InSomeKid(t.kids, i, x);
      }
    }
  }

  // ---------------------------------------------------- trees cut at depth two

  /** No node is more than two edges below the root. */
  predicate DepthTwo<T>(t: Tree<T>) {
    forall i, j :: 0 <= i < |t.kids| && 0 <= j < |t.kids[i].kids| ==> t.kids[i].kids[j].kids == []
  }

  lemma {:induction false} LeavesPre<T>(f: seq<Tree<T>>)
    requires forall i :: 0 <= i < |f| ==> f[i].kids == []
    ensures PreAll(f) == Labels(f)
  {
    if f != [] {
      LeavesPre(f[1..]);
      assert Pre(f[0]) == [f[0].root];
      assert Labels(f) == [f[0].root] + Labels(f[1..]);
    }
  }

  /** In a repetition-free tree of depth two, a child's own list is what the child
      holds, and a routed label is the hop itself or one of the hop's children. */
  lemma DepthTwoKid<T>(t: Tree<T>, i: nat)
    requires Unique(t) && DepthTwo(t) && i < |t.kids|
    ensures t.kids[i].root in KidsOf(t, t.root)
    ensures KidsOf(t, t.kids[i].root) == Labels(t.kids[i].kids)
    ensures Pre(t.kids[i]) == [t.kids[i].root] + KidsOf(t, t.kids[i].root)
  {
    UniqueParts(t);
    UniqueForest(t.kids);
    var u := t.kids[i];
    assert u.root in Pre(u);
    InSomeKid(t.kids, i, u.root);
    assert Sub(t, u.root) == SubAll(t.kids, u.root) == Sub(u, u.root) == Some(u);
    assert Labels(t.kids)[i] == u.root;
    LeavesPre(u.kids);
  }

  lemma DepthTwoPath<T>(t: Tree<T>, d: T)
    requires Unique(t) && DepthTwo(t)
    ensures Path(t, d).Some? ==>
              var c := Path(t, d).value;
              c in KidsOf(t, t.root) && (d == c || d in KidsOf(t, c))
    ensures d in KidsOf(t, t.root) ==> Path(t, d) == Some(d)
    ensures forall c :: c in KidsOf(t, t.root) && d in KidsOf(t, c) ==> Path(t, d) == Some(c)
  {
    UniqueParts(t);
    UniqueForest(t.kids);
    if d in PreAll(t.kids) {
      var i := PathAllFindsSub(t.kids, d);
      DepthTwoKid(t, i);
    }
    forall c | c in KidsOf(t, t.root) && (d == c || d in KidsOf(t, c)) ensures Path(t, d) == Some(c) {
      var k :| 0 <= k < |t.kids| && t.kids[k].root == c;
      DepthTwoKid(t, k);
      InSomeKid(t.kids, k, d);
      var i := PathAllFindsSub(t.kids, d);
      if i != k { UniqueApart(t.kids, i, k, d); }
    }
  }

  lemma {:induction false} UniqueApart<T>(f: seq<Tree<T>>, i: nat, k: nat, d: T)
    requires NoDup(PreAll(f)) && i < |f| && k < |f| && d in Pre(f[i]) && d in Pre(f[k])
    ensures i == k
  {
    NoDupParts(Pre(f[0]), PreAll(f[1..]));
    if i == 0 && k > 0 {
      InSomeKid(f[1..], k - 1, d);
    } else if k == 0 && i > 0 {
      InSomeKid(f[1..], i - 1, d);
    } else if i > 0 {
      UniqueApart(f[1..], i - 1, k - 1, d);
    }
  }

  /** Everything in such a tree is the root, a child or a grandchild. */
  lemma DepthTwoMember<T>(t: Tree<T>, d: T)
    requires Unique(t) && DepthTwo(t) && d in Pre(t)
    ensures d == t.root || d in KidsOf(t, t.root) ||
            exists c :: c in KidsOf(t, t.root) && d in KidsOf(t, c)
  {
    if d != t.root {
      DepthTwoPath(t, d);
    }
  }

  /** Growing the root or one of its children keeps the depth at two. */
  lemma InsertDepthTwo<T>(t: Tree<T>, a: T, x: T)
    requires Unique(t) && DepthTwo(t) && (a == t.root || a in KidsOf(t, t.root))
    ensures a in Pre(t) && DepthTwo(Insert(t, a, x))
  {
    if a != t.root {
      UniqueParts(t);
      var k :| 0 <= k < |t.kids| && t.kids[k].root == a;
      InSomeKid(t.kids, k, a);
      InsertAllInto(t.kids, k, a, x);
      LeafUnderChild(t, k, a, x);
    }
  }

  lemma LeafUnderChild<T>(t: Tree<T>, k: nat, a: T, x: T)
    requires DepthTwo(t) && k < |t.kids| && t.kids[k].root == a
    ensures DepthTwo(Node(t.root, t.kids[k := Insert(t.kids[k], a, x)]))
  {
    var u := Insert(t.kids[k], a, x);
    assert u == Node(a, t.kids[k].kids + [Leaf(x)]);
  }

  lemma {:induction false} InsertAllInto<T>(f: seq<Tree<T>>, k: nat, a: T, x: T)
    requires NoDup(PreAll(f)) && k < |f| && a in Pre(f[k])
    ensures InsertAll(f, a, x) == f[k := Insert(f[k], a, x)]
  {
    NoDupParts(Pre(f[0]), PreAll(f[1..]));
    if k == 0 {
      Sequences.UpdateFirst(f, Insert(f[0], a, x));
    } else {
      InSomeKid(f[1..], k - 1, a);
      InsertAllInto(f[1..], k - 1, a, x);
      Sequences.UpdateLater(f, k, Insert(f[k], a, x));
    }
  }
}
