/** The linked routing tree of a node half: heap nodes with a four-slot child
    array, a child count and a parent pointer.

    Nodes are numbered in the order in which they were made. The ghost `shape` is
    the tree of numbers the pointers form and `keys` gives the id of each number;
    the tree of ids, `Model()`, is the value the operations are specified on.
  */
module ChildrenTrees {
  import Sequences
  import opened Trees
  import opened TreeOps
  import LevelOrder
  import Printer

  class TreeNode {
    var id: Id
    var parent: TreeNode?
    const children: array<TreeNode?>
    var count: nat
    ghost const number: nat

    constructor (id: Id, ghost number: nat)
      ensures this.id == id && parent == null && count == 0 && this.number == number
      ensures fresh(children) && children.Length == MAX_CHILDREN
    {
      this.id := id;
      this.number := number;
      parent := null;
      children := new TreeNode?[MAX_CHILDREN](_ => null);
      count := 0;
    }

    /** Make a node and put it in the next free slot. */
    method Spawn(childId: Id, ghost childNumber: nat) returns (n: TreeNode)
      requires count < MAX_CHILDREN == children.Length
      modifies `count, children
      ensures fresh(n) && fresh(n.children) && n.children.Length == MAX_CHILDREN
      ensures n.id == childId && n.number == childNumber && n.parent == this && n.count == 0
      ensures count == old(count) + 1 && children[old(count)] == n
      ensures forall i :: 0 <= i < old(count) ==> children[i] == old(children[i])
    {
      n := new TreeNode(childId, childNumber);
      children[count] := n;
      count := count + 1;
      n.parent := this;
    }
  }

  // ------------------------------------------------------------ numbers and ids

  function Key(keys: seq<Id>, n: int): Id {
    if 0 <= n < |keys| then keys[n] else NO_ID
  }

  function KeysOf(keys: seq<Id>, s: seq<int>): (r: seq<Id>)
    ensures |r| == |s| && forall i :: 0 <= i < |s| ==> r[i] == Key(keys, s[i])
  {
    seq(|s|, i requires 0 <= i < |s| => Key(keys, s[i]))
  }

  /** The tree of ids under a tree of numbers. */
  function Ids(t: Tree<int>, keys: seq<Id>): Tree<Id> {
    Node(Key(keys, t.root), IdsAll(t.kids, keys))
  }

  function IdsAll(f: seq<Tree<int>>, keys: seq<Id>): (r: seq<Tree<Id>>)
    ensures |r| == |f| && forall i :: 0 <= i < |f| ==> r[i] == Ids(f[i], keys)
  {
    if f == [] then [] else [Ids(f[0], keys)] + IdsAll(f[1..], keys)
  }

  /** The first number in preorder whose id is `id`. */
  function First(t: Tree<int>, keys: seq<Id>, id: Id): (r: Option<int>)
    ensures r.Some? ==> Key(keys, r.value) == id && r.value in Pre(t)
    ensures r.Some? <==> id in Pre(Ids(t, keys))
  {
    if Key(keys, t.root) == id then Some(t.root) else FirstAll(t.kids, keys, id)
  }

  function FirstAll(f: seq<Tree<int>>, keys: seq<Id>, id: Id): (r: Option<int>)
    ensures r.Some? ==> Key(keys, r.value) == id && r.value in PreAll(f)
    ensures r.Some? <==> id in PreAll(IdsAll(f, keys))
  {
    if f == [] then None
    else var r := First(f[0], keys, id); if r.Some? then r else FirstAll(f[1..], keys, id)
  }

  /** Inserting under the first node with an id is inserting under that id. */
  lemma {:induction false} IdsInsert(t: Tree<int>, keys: seq<Id>, id: Id, x: int)
    requires Unique(t) && id in Pre(Ids(t, keys))
    ensures Ids(Insert(t, First(t, keys, id).value, x), keys) == Insert(Ids(t, keys), id, Key(keys, x))
    decreases t
  {
    UniqueParts(t);
    if Key(keys, t.root) == id {
      IdsAppend(t.kids, keys, x);
    } else {
      assert First(t, keys, id).value in PreAll(t.kids);
      IdsInsertAll(t.kids, keys, id, x);
    }
  }

  lemma {:induction false} IdsInsertAll(f: seq<Tree<int>>, keys: seq<Id>, id: Id, x: int)
    requires NoDup(PreAll(f)) && id in PreAll(IdsAll(f, keys))
    ensures IdsAll(InsertAll(f, FirstAll(f, keys, id).value, x), keys) ==
            InsertAll(IdsAll(f, keys), id, Key(keys, x))
    decreases f
  {
    NoDupParts(Pre(f[0]), PreAll(f[1..]));
    if id in Pre(Ids(f[0], keys)) {
      IdsInsert(f[0], keys, id, x);
    } else {
      assert FirstAll(f, keys, id).value in PreAll(f[1..]);
      IdsInsertAll(f[1..], keys, id, x);
    }
  }

  lemma IdsAppend(f: seq<Tree<int>>, keys: seq<Id>, x: int)
    ensures IdsAll(f + [Leaf(x)], keys) == IdsAll(f, keys) + [Leaf(Key(keys, x))]
  {
    assert Ids(Leaf(x), keys) == Leaf(Key(keys, x));
  }

  /** The children under the first node with an id are those under that id. */
  lemma {:induction false} IdsKids(t: Tree<int>, keys: seq<Id>, id: Id)
    requires Unique(t) && id in Pre(Ids(t, keys))
    ensures KidsOf(Ids(t, keys), id) == KeysOf(keys, KidsOf(t, First(t, keys, id).value))
    decreases t
  {
    UniqueParts(t);
    if Key(keys, t.root) != id {
      IdsKidsAll(t.kids, keys, id);
    }
  }

  lemma {:induction false} IdsKidsAll(f: seq<Tree<int>>, keys: seq<Id>, id: Id)
    requires NoDup(PreAll(f)) && id in PreAll(IdsAll(f, keys))
    ensures KidsOfAll(IdsAll(f, keys), id) == KeysOf(keys, KidsOfAll(f, FirstAll(f, keys, id).value))
    decreases f
  {
    NoDupParts(Pre(f[0]), PreAll(f[1..]));
    assert IdsAll(f, keys)[1..] == IdsAll(f[1..], keys);
    if id in Pre(Ids(f[0], keys)) {
      IdsKids(f[0], keys, id);
    } else {
      assert FirstAll(f, keys, id).value in PreAll(f[1..]);
      IdsKidsAll(f[1..], keys, id);
    }
  }

  /** Only the ids of the numbers in a tree matter to it. */
  lemma {:induction false} IdsAgree(t: Tree<int>, keys: seq<Id>, more: seq<Id>, id: Id)
    requires forall i :: 0 <= i < |Pre(t)| ==> Key(keys, Pre(t)[i]) == Key(more, Pre(t)[i])
    ensures Ids(t, more) == Ids(t, keys)
    ensures First(t, more, id) == First(t, keys, id)
    decreases t
  {
    assert Pre(t)[0] == t.root;
    assert forall i :: 0 <= i < |PreAll(t.kids)| ==> PreAll(t.kids)[i] == Pre(t)[i + 1];
    IdsAgreeAll(t.kids, keys, more, id);
  }

  lemma {:induction false} IdsAgreeAll(f: seq<Tree<int>>, keys: seq<Id>, more: seq<Id>, id: Id)
    requires forall i :: 0 <= i < |PreAll(f)| ==> Key(keys, PreAll(f)[i]) == Key(more, PreAll(f)[i])
    ensures IdsAll(f, more) == IdsAll(f, keys)
    ensures FirstAll(f, more, id) == FirstAll(f, keys, id)
    decreases f
  {
    if f != [] {
      var p, q, r := Pre(f[0]), PreAll(f[1..]), PreAll(f);
      assert forall i :: 0 <= i < |p| ==> p[i] == r[i];
      assert forall i :: 0 <= i < |q| ==> q[i] == r[|p| + i];
      IdsAgree(f[0], keys, more, id);
      IdsAgreeAll(f[1..], keys, more, id);
    }
  }

  /** The first node with an id stays the first when something is hung below it. */
  lemma {:induction false} FirstStays(t: Tree<int>, keys: seq<Id>, id: Id, x: int)
    requires Unique(t) && id in Pre(Ids(t, keys))
    ensures First(Insert(t, First(t, keys, id).value, x), keys, id) == First(t, keys, id)
    decreases t
  {
    if Key(keys, t.root) != id {
      UniqueParts(t);
      FirstStaysAll(t.kids, keys, id, x);
    }
  }

  lemma {:induction false} FirstStaysAll(f: seq<Tree<int>>, keys: seq<Id>, id: Id, x: int)
    requires NoDup(PreAll(f)) && id in PreAll(IdsAll(f, keys))
    ensures FirstAll(InsertAll(f, FirstAll(f, keys, id).value, x), keys, id) == FirstAll(f, keys, id)
    decreases f
  {
    NoDupParts(Pre(f[0]), PreAll(f[1..]));
    if id in Pre(Ids(f[0], keys)) {
      FirstStays(f[0], keys, id, x);
    } else {
      assert FirstAll(f, keys, id).value in PreAll(f[1..]);
      FirstStaysAll(f[1..], keys, id, x);
    }
  }

  /** Which node has a free slot depends on the shape alone. */
  lemma {:induction false} IdsOpenDepth(t: Tree<int>, keys: seq<Id>)
    ensures LevelOrder.OpenDepth(Ids(t, keys)) == LevelOrder.OpenDepth(t)
    decreases t
  {
    if |t.kids| >= MAX_CHILDREN {
      IdsShallowest(t.kids, keys);
      IdsOpenDepth(t.kids[LevelOrder.Shallowest(t.kids)], keys);
    }
  }

  lemma {:induction false} IdsShallowest(f: seq<Tree<int>>, keys: seq<Id>)
    requires f != []
    ensures LevelOrder.Shallowest(IdsAll(f, keys)) == LevelOrder.Shallowest(f)
    decreases f
  {
    forall i | 0 <= i < |f| ensures LevelOrder.OpenDepth(IdsAll(f, keys)[i]) == LevelOrder.OpenDepth(f[i]) {
      IdsOpenDepth(f[i], keys);
    }
    LevelOrder.ShallowestIs(IdsAll(f, keys), LevelOrder.Shallowest(f));
  }

  lemma {:induction false} IdsAddChild(t: Tree<int>, keys: seq<Id>, x: int)
    ensures Ids(LevelOrder.AddChild(t, x), keys) == LevelOrder.AddChild(Ids(t, keys), Key(keys, x))
    decreases t
  {
    if |t.kids| < MAX_CHILDREN {
      IdsAppend(t.kids, keys, x);
    } else {
      var k := LevelOrder.Shallowest(t.kids);
      IdsShallowest(t.kids, keys);
      IdsAddChild(t.kids[k], keys, x);
      IdsReplaced(t.kids, keys, k, LevelOrder.AddChild(t.kids[k], x));
    }
  }

  lemma IdsReplaced(f: seq<Tree<int>>, keys: seq<Id>, k: nat, u: Tree<int>)
    requires k < |f|
    ensures IdsAll(f[k := u], keys) == IdsAll(f, keys)[k := Ids(u, keys)]
  {
  }

  /** A child of a subtree is a subtree. */
  lemma {:induction false} SubKid<T>(t: Tree<T>, u: Tree<T>, i: nat)
    requires Unique(t) && Sub(t, u.root) == Some(u) && i < |u.kids|
    ensures Sub(t, u.kids[i].root) == Some(u.kids[i])
    decreases t
  {
    UniqueParts(t);
    UniqueForest(t.kids);
    var v := u.kids[i];
    if t.root == u.root {
      InSomeKid(t.kids, i, v.root);
    } else {
      var j := PathAllFindsSub(t.kids, u.root);
      SubKid(t.kids[j], u, i);
      InSomeKid(t.kids, j, v.root);
    }
  }

  // ------------------------------------------------------------ the linked tree

  /** The shape one number at a time: the children and the parent of each. */
  datatype Links = Links(down: seq<seq<int>>, up: seq<int>) {
    ghost predicate Of(t: Tree<int>) {
      && Unique(t) && t.root == 0
      && 0 < |up| == |down|
      && (forall i :: 0 <= i < |Pre(t)| ==> 0 <= Pre(t)[i] < |down|)
      && (forall n :: 0 <= n < |down| ==> At(t, n))
    }

    ghost predicate At(t: Tree<int>, n: int)
      requires 0 <= n < |down| == |up|
    {
      && n in Pre(t) && down[n] == KidsOf(t, n)
      && forall i :: 0 <= i < |down[n]| ==> 0 < down[n][i] < |up| && up[down[n][i]] == n
    }

    /** A new number under `c`. */
    function Add(c: int): Links
      requires 0 <= c < |down|
    {
      Links(down[c := down[c] + [|down|]] + [[]], up + [c])
    }
  }

  lemma LinksAdd(l: Links, t: Tree<int>, c: int)
    requires l.Of(t) && 0 <= c < |l.down|
    ensures l.Add(c).Of(Insert(t, c, |l.down|))
  {
    var x, u := |l.down|, Insert(t, c, |l.down|);
    assert l.At(t, c);
    InsertLabels(t, c, x);
    forall d | 0 <= d <= x ensures l.Add(c).At(u, d) {
      InsertKids(t, c, x, d);
      if d < x { assert l.At(t, d); }
    }
  }

  class ChildrenTree {
    var head: TreeNode
    ghost var shape: Tree<int>
    ghost var keys: seq<Id>
    ghost var links: Links
    ghost var nodes: seq<TreeNode>
    ghost var owner: map<object, nat>  // whose slots an array is
    ghost var Repr: set<object>        // the nodes and their arrays

    /** The pointers are those of the links: every node has its number, its id, its
        children in its slots and its parent behind it, and no slot array serves
        twice. */
    ghost predicate Linked()
      reads `links, `keys, `nodes, `owner, `Repr, Repr
    {
      && 0 < |nodes| == |keys| == |links.down| == |links.up|
      && forall n :: 0 <= n < |nodes| ==> At(n)
    }

    ghost predicate At(n: int)
      requires 0 <= n < |nodes| == |keys| == |links.down| == |links.up|
      reads `links, `keys, `nodes, `owner, `Repr, Repr
    {
      var node := nodes[n];
      && node in Repr && node.children in Repr
      && node.number == n && node.id == keys[n]
      && node.children.Length == MAX_CHILDREN && node.children in owner && owner[node.children] == n
      && node.count == |links.down[n]| <= MAX_CHILDREN
      && (forall i :: 0 <= i < node.count ==>
            0 <= links.down[n][i] < |nodes| && node.children[i] == nodes[links.down[n][i]])
      && (n > 0 ==> 0 <= links.up[n] < |nodes| && node.parent == nodes[links.up[n]])
    }

    ghost predicate Valid()
      reads this, Repr
    {
      && this !in Repr && Linked() && links.Of(shape)
      && head == nodes[0] && head in Repr && head.parent == null
    }

    /** What a subtree says about its node in the heap. */
    lemma AtSub(sub: Tree<int>)
      requires Valid() && Sub(shape, sub.root) == Some(sub)
      ensures 0 <= sub.root < |nodes| && At(sub.root) && links.down[sub.root] == Labels(sub.kids)
      ensures forall i :: 0 <= i < |sub.kids| ==>
                Sub(shape, sub.kids[i].root) == Some(sub.kids[i]) && links.down[sub.root][i] == sub.kids[i].root
    {
      var i :| 0 <= i < |Pre(shape)| && Pre(shape)[i] == sub.root;
      assert links.At(shape, sub.root);
      forall i | 0 <= i < |sub.kids| ensures Sub(shape, sub.kids[i].root) == Some(sub.kids[i]) {
        SubKid(shape, sub, i);
      }
    }

    /** The node is the root of this subtree. */
    ghost predicate StandsFor(node: TreeNode, u: Tree<int>)
      reads this
    {
      Sub(shape, u.root) == Some(u) && 0 <= u.root < |nodes| && node == nodes[u.root]
    }

    lemma NodeAt(node: TreeNode, sub: Tree<int>)
      requires Valid() && StandsFor(node, sub)
      ensures node.count == |sub.kids| <= MAX_CHILDREN && sub.root < |keys| && node.id == keys[sub.root]
    {
      AtSub(sub);
    }

    lemma KidAt(node: TreeNode, sub: Tree<int>, i: nat)
      requires Valid() && StandsFor(node, sub) && i < node.count
      ensures i < |sub.kids| && i < node.children.Length && node.children[i] != null
      ensures StandsFor(node.children[i], sub.kids[i])
      ensures sub.kids[i].root < |keys| && node.children[i].id == keys[sub.kids[i].root]
    {
      AtSub(sub);
      AtSub(sub.kids[i]);
    }

    /** The tree of ids: parent to children, children in slot order. */
    ghost function Model(): Tree<Id>
      reads `shape, `keys
    {
      Ids(shape, keys)
    }

    /** What the first node with an id looks like in the heap. */
    lemma AtFirst(id: Id)
      requires Valid() && id in Pre(Model())
      ensures var c := First(shape, keys, id).value; var ks := KidsOf(Model(), id);
              && 0 <= c < |nodes| && nodes[c].id == id && nodes[c].children.Length == MAX_CHILDREN
              && nodes[c].count == |ks| <= MAX_CHILDREN
              && forall i :: 0 <= i < |ks| ==> nodes[c].children[i] != null && nodes[c].children[i].id == ks[i]
    {
      var c := First(shape, keys, id).value;
      var i :| 0 <= i < |Pre(shape)| && Pre(shape)[i] == c;
      assert links.At(shape, c) && At(c);
      IdsKids(shape, keys, id);
      forall i | 0 <= i < |KidsOf(Model(), id)|
        ensures nodes[c].children[i] != null && nodes[c].children[i].id == KidsOf(Model(), id)[i]
      {
        assert At(links.down[c][i]);
      }
    }

    constructor (id: Id)
      ensures Valid() && fresh(Repr) && Model() == Leaf(id)
    {
      var n := new TreeNode(id, 0);
      head := n;
      shape := Leaf(0);
      keys := [id];
      links := Links([[]], [0]);
      nodes := [n];
      owner := map[n.children := 0];
      Repr := {n, n.children};
      new;
      assert Pre(shape) == [0] && Labels<int>([]) == [] && At(0) && links.At(shape, 0);
    }

    /** Rename the root. */
    method EditHead(newId: Id)
      requires Valid()
      modifies this, Repr
      ensures Valid() && Repr == old(Repr)
      ensures Model() == Node(newId, old(Model()).kids)
    {
      UniqueParts(shape);
      forall i | 0 <= i < |PreAll(shape.kids)| ensures PreAll(shape.kids)[i] != 0 {
        assert PreAll(shape.kids)[i] in PreAll(shape.kids);
      }
      IdsAgreeAll(shape.kids, keys, keys[0 := newId], newId);
      assert At(0);
      head.id := newId;
      keys := keys[0 := newId];
      forall n | 0 <= n < |nodes| ensures At(n) {
        assert old(At(n));
      }
    }

    /** Hang a new node in the next free slot of number `p`. */
    method Hang(node: TreeNode, childId: Id, ghost p: int)
      requires Linked() && this !in Repr
      requires 0 <= p < |nodes| && node == nodes[p] && node.count < MAX_CHILDREN
      modifies `links, `keys, `nodes, `owner, `Repr, Repr
      ensures Linked() && fresh(Repr - old(Repr)) && this !in Repr
      ensures links == old(links).Add(p) && keys == old(keys) + [childId]
      ensures old(nodes) <= nodes && nodes[0].parent == old(nodes[0].parent)
    {
      assert At(p);
      var n := node.Spawn(childId, |nodes|);
      links := links.Add(p);
      keys := keys + [childId];
      owner := owner[n.children := |nodes|];
      nodes := nodes + [n];
      Repr := Repr + {n, n.children};
      forall k | 0 <= k < |nodes| ensures At(k) {
        if k < |old(nodes)| { assert old(At(k)); }
      }
      assert old(At(0));
    }

    /** Hang a new node and say so in the shape. */
    method Attach(node: TreeNode, childId: Id, ghost p: int)
      requires Valid() && 0 <= p < |nodes| && node == nodes[p] && node.count < MAX_CHILDREN
      modifies this, Repr
      ensures Valid() && fresh(Repr - old(Repr)) && old(nodes) <= nodes
      ensures shape == Insert(old(shape), p, old(|nodes|)) && keys == old(keys) + [childId]
      ensures links == old(links).Add(p)
    {
      LinksAdd(links, shape, p);
      shape := Insert(shape, p, |links.down|);
      forall n | 0 <= n < |nodes| ensures At(n) {
        assert old(At(n));
      }
      Hang(node, childId, p);
      assert At(0);
    }

    /** The ids after a new node with a new number came in under number `c`. */
    lemma ModelAfter(t: Tree<int>, before: seq<Id>, l: Links, id: Id, x: Id)
      requires l.Of(t) && |before| == |l.down|
      ensures Ids(t, before + [x]) == Ids(t, before)
      ensures First(t, before + [x], id) == First(t, before, id)
    {
      IdsAgree(t, before, before + [x], id);
    }

    /** Depth-first search: the first node in preorder that carries the id. */
    method FindNode(id: Id, node: TreeNode, ghost sub: Tree<int>) returns (r: TreeNode?)
      requires Valid() && StandsFor(node, sub)
      ensures r == null <==> First(sub, keys, id).None?
      ensures r != null ==> 0 <= First(sub, keys, id).value < |nodes| && r == nodes[First(sub, keys, id).value]
      decreases sub
    {
      NodeAt(node, sub);
      if node.id == id { return node; }
      if node.count == 0 { return null; }
      for i := 0 to node.count
        invariant FirstAll(sub.kids, keys, id) == FirstAll(sub.kids[i..], keys, id)
      {
        KidAt(node, sub, i);
        assert sub.kids[i..][1..] == sub.kids[i + 1..];
        if node.children[i].id == id { return node.children[i]; }
        r := FindNode(id, node.children[i], sub.kids[i]);
        if r != null { return; }
      }
      return null;
    }

    method NodeExists(id: Id) returns (ok: bool)
      requires Valid()
      ensures ok <==> id in Pre(Model())
    {
      var n := FindNode(id, head, shape);
      ok := n != null;
    }

    /** Is `target` the id of a proper descendant of `node`? */
    method FindParentRecursive(node: TreeNode, target: Id, ghost sub: Tree<int>) returns (ok: bool)
      requires Valid() && StandsFor(node, sub)
      ensures ok <==> target in PreAll(IdsAll(sub.kids, keys))
      decreases sub
    {
      NodeAt(node, sub);
      for i := 0 to node.count
        invariant target in PreAll(IdsAll(sub.kids, keys)) <==> target in PreAll(IdsAll(sub.kids[i..], keys))
      {
        KidAt(node, sub, i);
        assert sub.kids[i..][1..] == sub.kids[i + 1..];
        var child := node.children[i];
        if child.id == target { return true; }
        ok := FindParentRecursive(child, target, sub.kids[i]);
        if ok { return; }
      }
      return false;
    }

    /** The first hop from the root towards the node with the id. */
    method FindPathParent(id: Id) returns (ok: bool, parent: Id)
      requires Valid()
      ensures ok <==> Path(Model(), id).Some?
      ensures parent == if ok then Path(Model(), id).value else NO_ID
    {
      ghost var f := IdsAll(shape.kids, keys);
      NodeAt(head, shape);
      for i := 0 to head.count
        invariant PathAll(f, id) == PathAll(f[i..], id)
      {
        KidAt(head, shape, i);
        assert f[i..][1..] == f[i + 1..] && f[i] == Ids(shape.kids[i], keys);
        var child := head.children[i];
        if child.id == id { return true, child.id; }
        var below := FindParentRecursive(child, id, shape.kids[i]);
        if below { return true, child.id; }
      }
      return false, NO_ID;
    }

    /** Copy out the ids of the children of the node with the id. */
    method GetChildren(parentId: Id, out: array<Id>) returns (ok: bool, n: nat)
      requires Valid() && out.Length == MAX_CHILDREN && out !in Repr
      modifies out
      ensures ok <==> parentId in Pre(Model())
      ensures ok ==> n <= MAX_CHILDREN && out[..n] == KidsOf(Model(), parentId)
      ensures !ok ==> n == 0
      ensures forall i :: n <= i < MAX_CHILDREN ==> out[i] == old(out[i])
    {
      n := 0;
      var node := FindNode(parentId, head, shape);
      if node == null { return false, 0; }
      AtFirst(parentId);
      ghost var ks := KidsOf(Model(), parentId);
      for i := 0 to node.count
        invariant out[..i] == ks[..i]
        invariant forall j :: i <= j < MAX_CHILDREN ==> out[j] == old(out[j])
      {
        out[i] := node.children[i].id;
      }
      return true, node.count;
    }

    /** Attach a child under the node with the id, if it exists and has a slot. */
    method AddAnyChild(parentId: Id, childId: Id) returns (ok: bool)
      requires Valid()
      modifies this, Repr
      ensures Valid() && fresh(Repr - old(Repr)) && old(nodes) <= nodes
      ensures (Model(), ok) == TreeOps.AddAnyChild(old(Model()), parentId, childId)
      ensures !ok ==> shape == old(shape) && keys == old(keys) && links == old(links)
      ensures ok ==>
                var c := First(old(shape), old(keys), parentId).value;
                && shape == Insert(old(shape), c, old(|nodes|))
                && First(shape, keys, parentId) == Some(c) && 0 <= c < |old(links).down|
                && links == old(links).Add(c)
    {
      var p := FindNode(parentId, head, shape);
      if p == null { return false; }
      AtFirst(parentId);
      if p.count > 3 { return false; }
      ghost var t, ks, l := shape, keys, links;
      Attach(p, childId, First(shape, keys, parentId).value);
      ModelAfter(t, ks, l, parentId, childId);
      IdsInsert(t, keys, parentId, |ks|);
      FirstStays(t, keys, parentId, |ks|);
      ok := true;
    }

    /** The search of `add_child`, with the queue of the source: its front is the end of
        `queue`. */
    method FindOpen() returns (place: TreeNode, ghost p: int)
      requires Valid()
      ensures p == LevelOrder.FirstOpen([shape]) && p in Pre(shape) && 0 <= p < |nodes|
      ensures place == nodes[p] && place.count < MAX_CHILDREN
    {
      ghost var q := [shape];
      var queue, found := [head], false;
      place, p := head, 0;
      while !found && queue != []
        invariant if found then p == LevelOrder.FirstOpen([shape]) && p in Pre(shape) && 0 <= p < |nodes|
                                && place == nodes[p] && place.count < MAX_CHILDREN
                  else q != [] && Queued(queue, q) && LevelOrder.FirstOpen(q) == LevelOrder.FirstOpen([shape])
        decreases !found, |PreAll(q)|
      {
        var temp := queue[|queue| - 1];
        NodeAt(temp, q[0]);
        if temp.count < 4 {
          found := true;
          place, p := temp, q[0].root;
          queue := queue[..|queue| - 1];
        } else {
          var longer := PushChildren(temp, queue, q[0]);
          QueuedNext(queue, q, longer, q[0].kids);
          queue := longer[..|longer| - 1];
          q := LevelOrder.Enqueued(q);
        }
      }
    }

    /** Level-order insertion: it always finds a place. */
    method AddChild(childId: Id) returns (found: bool)
      requires Valid()
      modifies this, Repr
      ensures Valid() && fresh(Repr - old(Repr)) && old(nodes) <= nodes
      ensures found && Model() == LevelOrder.AddChild(old(Model()), childId)
    {
      ghost var t, ks, l := shape, keys, links;
      var temp, p := FindOpen();
      Attach(temp, childId, p);
      AddedChild(t, ks, l, childId);
      found := true;
    }

    lemma AddedChild(t: Tree<int>, before: seq<Id>, l: Links, x: Id)
      requires l.Of(t) && |before| == |l.down|
      ensures Ids(Insert(t, LevelOrder.FirstOpen([t]), |before|), before + [x]) ==
              LevelOrder.AddChild(Ids(t, before), x)
    {
      LevelOrder.AddChildIsLevelOrder(t, |before|);
      IdsAddChild(t, before + [x], |before|);
      ModelAfter(t, before, l, 0, x);
    }

    /** The vector holds the nodes of `q`, front last; all of them are subtrees. */
    ghost predicate Queued(queue: seq<TreeNode>, q: seq<Tree<int>>)
      reads this
    {
      && |queue| == |q|
      && forall i :: 0 <= i < |q| ==> StandsFor(queue[|q| - 1 - i], q[i])
    }

    /** The children stand before the rest, the last one first. */
    ghost predicate Pushed(longer: seq<TreeNode>, ks: seq<Tree<int>>)
      reads this
    {
      |ks| <= |longer| && forall i :: 0 <= i < |ks| ==> StandsFor(longer[|ks| - 1 - i], ks[i])
    }

    /** The queue after the children of its front came in and the front left. */
    lemma QueuedNext(queue: seq<TreeNode>, q: seq<Tree<int>>, longer: seq<TreeNode>, ks: seq<Tree<int>>)
      requires q != [] && Queued(queue, q) && Pushed(longer, ks)
      requires |longer| == |ks| + |queue| && longer[|ks|..] == queue
      ensures Queued(longer[..|longer| - 1], q[1..] + ks)
    {
      var r, next := q[1..] + ks, longer[..|longer| - 1];
      forall i | 0 <= i < |r| ensures StandsFor(next[|r| - 1 - i], r[i]) { QueuedAt(queue, q, longer, ks, i); }
    }

    lemma QueuedAt(queue: seq<TreeNode>, q: seq<Tree<int>>, longer: seq<TreeNode>, ks: seq<Tree<int>>, i: nat)
      requires q != [] && Queued(queue, q) && Pushed(longer, ks)
      requires |longer| == |ks| + |queue| && longer[|ks|..] == queue
      requires i < |q| - 1 + |ks|
      ensures var r, next := q[1..] + ks, longer[..|longer| - 1]; StandsFor(next[|r| - 1 - i], r[i])
    {
      Sequences.QueueMoves(queue, longer, q, ks, i);
    }

    method PushChildren(temp: TreeNode, queue: seq<TreeNode>, ghost u: Tree<int>) returns (r: seq<TreeNode>)
      requires Valid() && StandsFor(temp, u)
      ensures |r| == |u.kids| + |queue| && r[|u.kids|..] == queue
      ensures Pushed(r, u.kids)
    {
      r := queue;
      NodeAt(temp, u);
      for i := 0 to temp.count
        invariant |r| == i + |queue| && r[i..] == queue
        invariant forall j :: 0 <= j < i ==> StandsFor(r[i - 1 - j], u.kids[j])
      {
        KidAt(temp, u, i);
        r := [temp.children[i]] + r;
      }
    }

    /** Is `x` the id of a child of the first node with the id? */
    method HasChild(node: TreeNode, ghost id: Id, x: Id) returns (found: bool)
      requires Valid() && id in Pre(Model())
      requires var c := First(shape, keys, id).value; 0 <= c < |nodes| && node == nodes[c]
      ensures node.id == id && (found <==> x in KidsOf(Model(), id))
    {
      AtFirst(id);
      ghost var ks := KidsOf(Model(), id);
      for j := 0 to node.count
        invariant x !in ks[..j]
      {
        if node.children[j].id == x { return true; }
      }
      assert ks[..node.count] == ks;
      return false;
    }

    /** Nothing was hung under an old node other than `c`. */
    twostate predicate OthersKept(c: Option<int>)
      reads `nodes, `links
    {
      && old(nodes) <= nodes && |old(nodes)| <= |old(links).down| && |old(nodes)| <= |links.down|
      && forall k :: 0 <= k < |old(nodes)| && Some(k) != c ==> links.down[k] == old(links).down[k]
    }

    /** One round of the merge: add `x` under the node unless it has it. */
    method Merge(node: TreeNode, id: Id, x: Id) returns (ok: bool)
      requires Valid() && id in Pre(Model())
      requires var c := First(shape, keys, id).value; 0 <= c < |nodes| && node == nodes[c]
      modifies this, Repr
      ensures Valid() && fresh(Repr - old(Repr)) && OthersKept(First(shape, keys, id))
      ensures First(shape, keys, id) == First(old(shape), old(keys), id)
      ensures id in Pre(Model())
      ensures (Model(), ok) ==
              if x in KidsOf(old(Model()), id) then (old(Model()), true)
              else TreeOps.AddAnyChild(old(Model()), id, x)
    {
      var found := HasChild(node, id, x);
      if found { return true; }
      ok := AddAnyChild(node.id, x);
    }

    /** Merge a child list into the node with the id. */
    method UpdateNode(id: Id, list: array<Id>, n: nat) returns (ok: bool)
      requires Valid() && list.Length == MAX_CHILDREN && n <= MAX_CHILDREN && list !in Repr
      modifies this, Repr
      ensures Valid() && fresh(Repr - old(Repr))
      ensures (Model(), ok) == TreeOps.UpdateNode(old(Model()), id, list[..n])
      ensures OthersKept(First(old(shape), old(keys), id))
    {
      var node := FindNode(id, head, shape);
      if node == null { return false; }
      ghost var c, ids := First(shape, keys, id), list[..n];
      for i := 0 to n
        invariant Valid() && fresh(Repr - old(Repr)) && list[..n] == ids
        invariant First(shape, keys, id) == c && 0 <= c.value < |nodes| && node == nodes[c.value]
        invariant OthersKept(c)
        invariant TreeOps.UpdateNode(Model(), id, ids[i..]) == TreeOps.UpdateNode(old(Model()), id, ids)
      {
        Sequences.HeadAndTail(ids, i);
        TreeOps.UpdateNodeStep(Model(), id, ids[i], ids[i + 1..]);
        ok := Merge(node, id, list[i]);
        if !ok { return; }
      }
      ok := true;
    }

    /** The JSON text of a subtree. */
    method SerializeNode(node: TreeNode, ghost sub: Tree<int>) returns (s: string)
      requires Valid() && StandsFor(node, sub)
      ensures s == Printer.Text(Ids(sub, keys))
      decreases sub, 1
    {
      NodeAt(node, sub);
      s := "{\"id\":" + Printer.Decimal(node.id as int) + ",\"children\":[";
      s := SerializeChildren(node, s, sub);
      s := s + "]}";
    }

    method SerializeChildren(node: TreeNode, start: string, ghost sub: Tree<int>) returns (s: string)
      requires Valid() && StandsFor(node, sub)
      ensures s == start + Printer.TextAll(IdsAll(sub.kids, keys))
      decreases sub, 0
    {
      ghost var f := IdsAll(sub.kids, keys);
      s := start;
      NodeAt(node, sub);
      for i := 0 to node.count
        invariant Printer.Joined(start, s, i, f)
      {
        KidAt(node, sub, i);
        Printer.JoinNext(start, s, i, f);
        if i > 0 { s := s + ","; }
        var kid := SerializeNode(node.children[i], sub.kids[i]);
        s := s + kid;
      }
    }

    method SerializeTree() returns (s: string)
      requires Valid()
      ensures s == Printer.Text(Model())
    {
      s := SerializeNode(head, shape);
    }
  }
}
