/** Level-order insertion (`add_child`).

    The source keeps a queue of nodes, takes them from the front and puts the
    children of a full node at the back. `FirstOpen` follows that queue;
    `AddChild` says the same without one: the new leaf goes under the shallowest
    node that has a free slot, the leftmost of those.
  */
module LevelOrder {
  import Sequences
  import opened Trees

  /** Distance from the root to the nearest node with a free slot. */
  function OpenDepth<T>(t: Tree<T>): nat {
    if |t.kids| < MAX_CHILDREN then 0 else 1 + OpenDepth(t.kids[Shallowest(t.kids)])
  }

  /** The leftmost tree of a forest with the least `OpenDepth`. */
  function Shallowest<T>(f: seq<Tree<T>>): (k: nat)
    requires f != []
    ensures k < |f|
    ensures forall i :: 0 <= i < |f| ==> OpenDepth(f[k]) <= OpenDepth(f[i])
    ensures forall i :: 0 <= i < k ==> OpenDepth(f[k]) < OpenDepth(f[i])
  {
    if |f| == 1 then 0
    else
      var j := Shallowest(f[1..]);
      assert forall i :: 1 <= i < |f| ==> f[i] == f[1..][i - 1];
      if OpenDepth(f[0]) <= OpenDepth(f[j + 1]) then 0 else j + 1
  }

  /** The label of the shallowest, then leftmost, node with a free slot. */
  function OpenLabel<T>(t: Tree<T>): T {
    if |t.kids| < MAX_CHILDREN then t.root else OpenLabel(t.kids[Shallowest(t.kids)])
  }

  /** A new leaf under that node. */
  function AddChild<T>(t: Tree<T>, x: T): (r: Tree<T>)
    ensures r.root == t.root
  {
    if |t.kids| < MAX_CHILDREN then Node(t.root, t.kids + [Leaf(x)])
    else var k := Shallowest(t.kids); Node(t.root, t.kids[k := AddChild(t.kids[k], x)])
  }

  /** Where labels are not repeated this is an insertion at `OpenLabel`. */
  lemma {:induction false} AddChildInserts<T>(t: Tree<T>, x: T)
    requires Unique(t)
    ensures OpenLabel(t) in Pre(t)
    ensures AddChild(t, x) == Insert(t, OpenLabel(t), x)
    decreases t
  {
    if |t.kids| >= MAX_CHILDREN {
      var k := Shallowest(t.kids);
      UniqueParts(t);
      AddChildInserts(t.kids[k], x);
      InSomeKid(t.kids, k, OpenLabel(t));
      InsertAllInto(t.kids, k, OpenLabel(t), x);
    }
  }

  // ------------------------------------------------------------- queue and tree

  function Enqueued<T>(q: seq<Tree<T>>): (r: seq<Tree<T>>)
    requires q != []
    ensures |PreAll(r)| < |PreAll(q)|
  {
    PreAllAppend(q[1..], q[0].kids);
    q[1..] + q[0].kids
  }

  /** The first node with a free slot that the queue `q` comes to. */
  function FirstOpen<T>(q: seq<Tree<T>>): T
    requires q != []
    decreases |PreAll(q)|
  {
    if |q[0].kids| < MAX_CHILDREN then q[0].root else FirstOpen(Enqueued(q))
  }

  /** A queue holds what is left of one level, `near`, then the part of the next
      level already found, `far`; in the tree `far` stands to the left. This is the
      position in `near + far` of the tree the next leaf goes to. */
  function Best<T>(near: seq<Tree<T>>, far: seq<Tree<T>>): (k: nat)
    requires near + far != []
    ensures k < |near + far|
  {
    if near == [] then Shallowest(far)
    else if far == [] then Shallowest(near)
    else
      var i, j := Shallowest(near), Shallowest(far);
      if 1 + OpenDepth(far[j]) <= OpenDepth(near[i]) then |near| + j else i
  }

  lemma ShallowestIs<T>(f: seq<Tree<T>>, k: nat)
    requires k < |f|
    requires forall i :: 0 <= i < |f| ==> OpenDepth(f[k]) <= OpenDepth(f[i])
    requires forall i :: 0 <= i < k ==> OpenDepth(f[k]) < OpenDepth(f[i])
    ensures Shallowest(f) == k
  {
    var j := Shallowest(f);
  }

  lemma ShallowestAppend<T>(f: seq<Tree<T>>, g: seq<Tree<T>>)
    requires f != [] && g != []
    ensures var (i, j) := (Shallowest(f), Shallowest(g));
            Shallowest(f + g) == if OpenDepth(f[i]) <= OpenDepth(g[j]) then i else |f| + j
  {
    var i, j := Shallowest(f), Shallowest(g);
    ShallowestIs(f + g, if OpenDepth(f[i]) <= OpenDepth(g[j]) then i else |f| + j);
  }

  /** How near the best tree of a forest is, and where it stands. */
  predicate BestIs<T>(f: seq<Tree<T>>, k: nat, depth: nat) {
    k < |f| && Shallowest(f) == k && OpenDepth(f[k]) == depth
  }

  lemma BestOfTwo<T>(f: seq<Tree<T>>, g: seq<Tree<T>>, i: nat, df: nat, j: nat, dg: nat)
    requires BestIs(f, i, df) && BestIs(g, j, dg)
    ensures if df <= dg then BestIs(f + g, i, df) else BestIs(f + g, |f| + j, dg)
  {
    ShallowestAppend(f, g);
  }

  /** Without its first, full, tree a queue has its best place in the same tree, or
      in the best child of that first tree. */
  lemma BestPop<T>(near: seq<Tree<T>>, far: seq<Tree<T>>)
    requires near != [] && |near[0].kids| >= MAX_CHILDREN
    ensures var u := near[0]; var k := Best(near, far);
            Best(near[1..], far + u.kids) ==
            if k == 0 then |near + far| - 1 + Shallowest(u.kids) else k - 1
  {
    var ks, rest := near[0].kids, near[1..];
    var k := Shallowest(ks);
    var d := OpenDepth(ks[k]);
    assert BestIs(ks, k, d) && BestIs([near[0]], 0, 1 + d);
    assert near == [near[0]] + rest;
    if far == [] {
      assert far + ks == ks;
      if rest != [] { BestOfTwo([near[0]], rest, 0, 1 + d, Shallowest(rest), OpenDepth(rest[Shallowest(rest)])); }
    } else {
      var j := Shallowest(far);
      BestOfTwo(far, ks, j, OpenDepth(far[j]), k, d);
      if rest == [] {
        BestPopLast(near, far, ks, j, k, d);
      } else {
        var i := Shallowest(rest);
        BestOfTwo([near[0]], rest, 0, 1 + d, i, OpenDepth(rest[i]));
        BestPopMiddle(near, far, ks, i, OpenDepth(rest[i]), j, OpenDepth(far[j]), k, d);
      }
    }
  }

  lemma BestPopLast<T>(near: seq<Tree<T>>, far: seq<Tree<T>>, ks: seq<Tree<T>>, j: nat, k: nat, d: nat)
    requires |near| == 1 && j < |far| && BestIs(near, 0, 1 + d) && BestIs(far, j, OpenDepth(far[j]))
    requires if OpenDepth(far[j]) <= d then BestIs(far + ks, j, OpenDepth(far[j])) else BestIs(far + ks, |far| + k, d)
    ensures Best([], far + ks) == if Best(near, far) == 0 then |near + far| - 1 + k else Best(near, far) - 1
  {
  }

  lemma BestPopMiddle<T>(near: seq<Tree<T>>, far: seq<Tree<T>>, ks: seq<Tree<T>>, i: nat, di: nat, j: nat, dj: nat,
                         k: nat, d: nat)
    requires |near| > 1 && far != [] && BestIs(near[1..], i, di) && BestIs(far, j, dj)
    requires if 1 + d <= di then BestIs(near, 0, 1 + d) else BestIs(near, 1 + i, di)
    requires if dj <= d then BestIs(far + ks, j, dj) else BestIs(far + ks, |far| + k, d)
    ensures Best(near[1..], far + ks) == if Best(near, far) == 0 then |near + far| - 1 + k else Best(near, far) - 1
  {
    if 1 + d <= di { BestBy(near, far, 0, 1 + d, j, dj); } else { BestBy(near, far, 1 + i, di, j, dj); }
    if dj <= d { BestBy(near[1..], far + ks, i, di, j, dj); } else { BestBy(near[1..], far + ks, i, di, |far| + k, d); }
  }

  lemma BestBy<T>(near: seq<Tree<T>>, far: seq<Tree<T>>, i: nat, di: nat, j: nat, dj: nat)
    requires BestIs(near, i, di) && BestIs(far, j, dj)
    ensures Best(near, far) == if 1 + dj <= di then |near| + j else i
  {
  }

  lemma {:induction false} FirstOpenIsBest<T>(near: seq<Tree<T>>, far: seq<Tree<T>>)
    requires near + far != []
    ensures FirstOpen(near + far) == OpenLabel((near + far)[Best(near, far)])
    decreases |PreAll(near + far)|, near == []
  {
    var q := near + far;
    if near == [] {
      assert q == far == far + [];
      FirstOpenIsBest(far, []);
    } else if |near[0].kids| >= MAX_CHILDREN {
      assert Enqueued(q) == near[1..] + (far + near[0].kids);
      FirstOpenIsBest(near[1..], far + near[0].kids);
      BestPop(near, far);
    } else {
      assert OpenDepth(near[0]) == 0;
    }
  }

  /** `add_child` finds its place by level order: the queue search and the
      shallowest-leftmost rule pick the same node. */
  lemma AddChildIsLevelOrder<T>(t: Tree<T>, x: T)
    requires Unique(t)
    ensures FirstOpen([t]) == OpenLabel(t)
    ensures AddChild(t, x) == Insert(t, FirstOpen([t]), x)
  {
    assert [t] + [] == [t];
    FirstOpenIsBest([t], []);
    AddChildInserts(t, x);
  }

  // --------------------------------------------------- trees built only this way

  /** Labels in level order, and beside each the labels of its children. */
  function Level<T>(q: seq<Tree<T>>): seq<T>
    decreases |PreAll(q)|
  {
    if q == [] then [] else [q[0].root] + Level(Enqueued(q))
  }

  function LevelKids<T>(q: seq<Tree<T>>): seq<seq<T>>
    decreases |PreAll(q)|
  {
    if q == [] then [] else [Labels(q[0].kids)] + LevelKids(Enqueued(q))
  }

  function Build<T>(xs: seq<T>): Tree<T>
    requires xs != []
  {
    if |xs| == 1 then Leaf(xs[0]) else AddChild(Build(xs[..|xs| - 1]), xs[|xs| - 1])
  }

  predicate AllLeaves<T>(f: seq<Tree<T>>) {
    forall i :: 0 <= i < |f| ==> f[i].kids == []
  }

  /** Nodes are full up to some point of the level order and bare after it. */
  predicate Packed<T>(q: seq<Tree<T>>)
    decreases |PreAll(q)|
  {
    q == [] ||
    if |q[0].kids| == MAX_CHILDREN then Packed(Enqueued(q))
    else |q[0].kids| < MAX_CHILDREN && AllLeaves(Enqueued(q))
  }

  lemma {:induction false} LeavesLevel<T>(q: seq<Tree<T>>)
    requires AllLeaves(q)
    ensures Level(q) == Labels(q) && Packed(q)
    ensures |LevelKids(q)| == |q| && forall i :: 0 <= i < |q| ==> LevelKids(q)[i] == []
  {
    if q != [] {
      assert Enqueued(q) == q[1..];
      LeavesLevel(q[1..]);
      assert Labels(q) == [q[0].root] + Labels(q[1..]);
    }
  }

  /** The queue with the next leaf added where it goes. */
  function Grown<T>(near: seq<Tree<T>>, far: seq<Tree<T>>, x: T): seq<Tree<T>>
    requires near + far != []
  {
    GrownAt(near + far, Best(near, far), x)
  }

  function GrownAt<T>(q: seq<Tree<T>>, k: nat, x: T): seq<Tree<T>>
    requires k < |q|
  {
    q[k := AddChild(q[k], x)]
  }

  /** Taking a full node off the queue and growing the queue commute. */
  lemma PopGrown<T>(near: seq<Tree<T>>, far: seq<Tree<T>>, x: T)
    requires near != [] && |near[0].kids| == MAX_CHILDREN
    ensures var g := Grown(near, far, x);
            && |g[0].kids| == MAX_CHILDREN && g[0].root == near[0].root
            && Enqueued(g) == Grown(near[1..], far + near[0].kids, x)
  {
    PopSplit(near, far);
    BestPop(near, far);
    PopAt(near + far, Best(near, far), near[1..] + (far + near[0].kids), Best(near[1..], far + near[0].kids), x);
  }

  lemma PopSplit<T>(near: seq<Tree<T>>, far: seq<Tree<T>>)
    requires near != []
    ensures (near + far)[0] == near[0]
    ensures Enqueued(near + far) == near[1..] + (far + near[0].kids)
  {
  }

  lemma PopAt<T>(q: seq<Tree<T>>, k: nat, r: seq<Tree<T>>, j: nat, x: T)
    requires k < |q| && |q[0].kids| == MAX_CHILDREN && r == Enqueued(q) && j < |r|
    requires j == if k == 0 then |q| - 1 + Shallowest(q[0].kids) else k - 1
    ensures var g := GrownAt(q, k, x);
            |g[0].kids| == MAX_CHILDREN && g[0].root == q[0].root && Enqueued(g) == GrownAt(r, j, x)
  {
    var g := GrownAt(q, k, x);
    if k == 0 {
      assert g[1..] == q[1..];
    } else {
      assert g[1..] == q[1..][k - 1 := g[k]];
    }
  }

  /** One more leaf keeps a packed queue packed and comes last in level order. */
  lemma {:induction false} PackedGrows<T>(near: seq<Tree<T>>, far: seq<Tree<T>>, x: T)
    requires near + far != [] && Packed(near + far)
    ensures var g := Grown(near, far, x); Packed(g) && Level(g) == Level(near + far) + [x]
    decreases |PreAll(near + far)|, near == []
  {
    var q := near + far;
    if near == [] {
      assert q == far == far + [];
      PackedGrows(far, [], x);
    } else if |near[0].kids| == MAX_CHILDREN {
      assert Enqueued(q) == near[1..] + (far + near[0].kids);
      PackedGrows(near[1..], far + near[0].kids, x);
      PopGrown(near, far, x);
    } else {
      PackedGrowsHere(near, far, x);
    }
  }

  lemma PackedGrowsHere<T>(near: seq<Tree<T>>, far: seq<Tree<T>>, x: T)
    requires near != [] && |near[0].kids| < MAX_CHILDREN && Packed(near + far)
    ensures var g := Grown(near, far, x); Packed(g) && Level(g) == Level(near + far) + [x]
  {
    assert OpenDepth(near[0]) == 0 && Best(near, far) == 0;
    LeavesGrow(near + far, x);
  }

  lemma LeavesGrow<T>(q: seq<Tree<T>>, x: T)
    requires q != [] && |q[0].kids| < MAX_CHILDREN && AllLeaves(Enqueued(q))
    ensures var g := q[0 := Node(q[0].root, q[0].kids + [Leaf(x)])]; Packed(g) && Level(g) == Level(q) + [x]
  {
    var g := q[0 := Node(q[0].root, q[0].kids + [Leaf(x)])];
    var r, r1 := Enqueued(q), Enqueued(g);
    assert r1 == r + [Leaf(x)];
    LeavesLevel(r);
    LeavesLevel(r1);
    assert Labels(r1) == Labels(r) + [x];
    assert Level(q) == [q[0].root] + Labels(r) && Level(g) == [q[0].root] + Labels(r1);
  }

  lemma {:induction false} KidsCount<T>(q: seq<Tree<T>>)
    ensures |LevelKids(q)| == |Level(q)|
    decreases |PreAll(q)|
  {
    if q != [] { KidsCount(Enqueued(q)); }
  }

  /** In a packed queue the children of position i are the positions
      |q| + 4i .. |q| + 4i + 3, as far as they exist. */
  lemma {:induction false} PackedKids<T>(q: seq<Tree<T>>, i: nat)
    requires Packed(q) && i < |Level(q)|
    ensures |LevelKids(q)| == |Level(q)|
    ensures LevelKids(q)[i] == Window(Level(q), |q| + MAX_CHILDREN * i)
    decreases |PreAll(q)|
  {
    KidsCount(q);
    if i == 0 {
      PackedFront(q);
      FirstKids(q);
      FirstWindow(Level(q), |q|, |q[0].kids|, Labels(q[0].kids));
    } else if |q[0].kids| == MAX_CHILDREN {
      PackedKids(Enqueued(q), i - 1);
      LaterOfPacked(q, i);
    } else {
      LeavesLevel(Enqueued(q));
    }
  }

  lemma PackedFront<T>(q: seq<Tree<T>>)
    requires Packed(q) && q != []
    ensures |q[0].kids| <= MAX_CHILDREN && LevelKids(q)[0] == Labels(q[0].kids)
    ensures |q[0].kids| < MAX_CHILDREN ==> |Level(q)| == |q| + |q[0].kids|
  {
    if |q[0].kids| < MAX_CHILDREN { LeavesSize(q); }
  }

  lemma LeavesSize<T>(q: seq<Tree<T>>)
    requires q != [] && AllLeaves(Enqueued(q))
    ensures |Level(q)| == |q| + |q[0].kids|
  {
    LeavesLevel(Enqueued(q));
  }

  lemma LaterOfPacked<T>(q: seq<Tree<T>>, i: nat)
    requires q != [] && |q[0].kids| == MAX_CHILDREN && 0 < i < |LevelKids(q)|
    requires LevelKids(Enqueued(q))[i - 1] == Window(Level(Enqueued(q)), |Enqueued(q)| + MAX_CHILDREN * (i - 1))
    ensures LevelKids(q)[i] == Window(Level(q), |q| + MAX_CHILDREN * i)
  {
    var k := |Enqueued(q)| + MAX_CHILDREN * (i - 1);
    assert |q| + MAX_CHILDREN * i == k + 1;
    LaterWindow(q[0].root, Level(Enqueued(q)), k);
  }

  lemma FirstWindow<T>(s: seq<T>, n: nat, m: nat, ks: seq<T>)
    requires n + m <= |s| && ks == s[n..n + m]
    requires m == MAX_CHILDREN || (m < MAX_CHILDREN && |s| == n + m)
    ensures Window(s, n) == ks
  {
  }

  lemma LaterWindow<T>(x: T, u: seq<T>, k: nat)
    ensures Window([x] + u, k + 1) == Window(u, k)
  {
    Sequences.Joined([x], u);
    if k < |u| {
      var j := if k + MAX_CHILDREN >= |u| then |u| else k + MAX_CHILDREN;
      Sequences.SliceOfSlice([x] + u, 1, 1 + |u|, k, j);
    }
  }

  /** The children of the front of the queue come right after the queue itself. */
  lemma FirstKids<T>(q: seq<Tree<T>>)
    requires q != []
    ensures |q| + |q[0].kids| <= |Level(q)|
    ensures Labels(q[0].kids) == Level(q)[|q|..|q| + |q[0].kids|]
  {
    var r := Enqueued(q);
    LevelPrefix(r);
    assert Labels(r) == Labels(q[1..]) + Labels(q[0].kids);
    Sequences.BehindFront(q[0].root, Labels(q[1..]), Labels(q[0].kids), Level(r));
  }

  function Window<T>(s: seq<T>, k: nat): seq<T> {
    if k >= |s| then [] else if k + MAX_CHILDREN >= |s| then s[k..] else s[k..k + MAX_CHILDREN]
  }

  lemma {:induction false} LevelPrefix<T>(q: seq<Tree<T>>)
    ensures Labels(q) <= Level(q)
    decreases |PreAll(q)|
  {
    if q != [] {
      LevelPrefix(Enqueued(q));
      assert Labels(Enqueued(q)) == Labels(q[1..]) + Labels(q[0].kids);
      assert Labels(q) == [q[0].root] + Labels(q[1..]);
    }
  }

  lemma {:induction false} BuildPacked<T>(xs: seq<T>)
    requires xs != []
    ensures Packed([Build(xs)]) && Level([Build(xs)]) == xs
  {
    if |xs| == 1 {
      LeavesLevel([Build(xs)]);
    } else {
      var t, x := Build(xs[..|xs| - 1]), xs[|xs| - 1];
      BuildPacked(xs[..|xs| - 1]);
      assert [t] + [] == [t];
      PackedGrows([t], [], x);
      assert Grown([t], [], x) == [AddChild(t, x)];
    }
  }

  /** A tree built with `add_child` alone is the complete 4-ary tree of its
      insertion order: level order is insertion order, and node i has exactly the
      children 4i + 1 .. 4i + 4, as far as they exist. */
  lemma BuildIsComplete<T>(xs: seq<T>, i: nat)
    requires i < |xs|
    ensures Level([Build(xs)]) == xs
    ensures |LevelKids([Build(xs)])| == |xs|
    ensures LevelKids([Build(xs)])[i] ==
            if 4 * i + 1 >= |xs| then [] else if 4 * i + 5 >= |xs| then xs[4 * i + 1..] else xs[4 * i + 1..4 * i + 5]
  {
    BuildPacked(xs);
    PackedKids([Build(xs)], i);
  }

  // --------------------------------------------------------------------- height

  function Height<T>(t: Tree<T>): nat {
    if t.kids == [] then 0 else 1 + HeightAll(t.kids)
  }

  function HeightAll<T>(f: seq<Tree<T>>): nat
    requires f != []
  {
    var h := Height(f[0]);
    if |f| == 1 || h >= HeightAll(f[1..]) then h else HeightAll(f[1..])
  }

  function Pow4(n: nat): nat {
    if n == 0 then 1 else 4 * Pow4(n - 1)
  }

  function NextLevel<T>(f: seq<Tree<T>>): seq<Tree<T>> {
    if f == [] then [] else f[0].kids + NextLevel(f[1..])
  }

  predicate AllFull<T>(f: seq<Tree<T>>) {
    forall i :: 0 <= i < |f| ==> |f[i].kids| == MAX_CHILDREN
  }

  lemma {:induction false} NextLevelCounts<T>(f: seq<Tree<T>>)
    ensures |PreAll(f)| == |f| + |PreAll(NextLevel(f))|
    ensures AllFull(f) ==> |NextLevel(f)| == MAX_CHILDREN * |f|
    ensures f != [] ==> HeightAll(f) == if NextLevel(f) == [] then 0 else 1 + HeightAll(NextLevel(f))
  {
    if f != [] {
      NextLevelCounts(f[1..]);
      PreAllAppend(f[0].kids, NextLevel(f[1..]));
      assert NextLevel(f[1..]) == [] ==> NextLevel(f) == f[0].kids;
      assert f[0].kids == [] ==> NextLevel(f) == NextLevel(f[1..]);
      if f[0].kids != [] && NextLevel(f[1..]) != [] {
        HeightAppend(f[0].kids, NextLevel(f[1..]));
      }
    }
  }

  lemma {:induction false} HeightAppend<T>(f: seq<Tree<T>>, g: seq<Tree<T>>)
    requires f != [] && g != []
    ensures HeightAll(f + g) == if HeightAll(f) >= HeightAll(g) then HeightAll(f) else HeightAll(g)
  {
    if |f| == 1 {
      assert (f + g)[1..] == g;
    } else {
      assert (f + g)[1..] == f[1..] + g;
      HeightAppend(f[1..], g);
    }
  }

  /** After a whole level has been taken off, the queue is the next level: either
      every node of the level was full, or what follows is bare. */
  lemma {:induction false} PackedLevel<T>(near: seq<Tree<T>>, far: seq<Tree<T>>)
    requires Packed(near + far)
    ensures Packed(far + NextLevel(near))
    ensures AllLeaves(far + NextLevel(near)) || AllFull(near)
    decreases |near|
  {
    var q := near + far;
    if near == [] {
      assert q == far + NextLevel(near);
    } else if |near[0].kids| == MAX_CHILDREN {
      assert Enqueued(q) == near[1..] + (far + near[0].kids);
      PackedLevel(near[1..], far + near[0].kids);
      LevelGoesOn(near, far);
      FullGoesOn(near);
    } else {
      assert Enqueued(q) == near[1..] + (far + near[0].kids);
      LeavesSplit(near[1..], far + near[0].kids);
      NextLevelOfLeaves(near[1..]);
      assert near[0].kids + [] == near[0].kids;
      LeavesLevel(far + near[0].kids);
    }
  }

  lemma LevelGoesOn<T>(near: seq<Tree<T>>, far: seq<Tree<T>>)
    requires near != []
    ensures (far + near[0].kids) + NextLevel(near[1..]) == far + NextLevel(near)
  {
    Sequences.JoinedInTurn(far, near[0].kids, NextLevel(near[1..]));
  }

  lemma FullGoesOn<T>(f: seq<Tree<T>>)
    requires f != []
    ensures AllFull(f[1..]) && |f[0].kids| == MAX_CHILDREN ==> AllFull(f)
  {
    forall i | 1 <= i < |f| ensures f[i] == f[1..][i - 1] {}
  }

  lemma LeavesSplit<T>(a: seq<Tree<T>>, b: seq<Tree<T>>)
    requires AllLeaves(a + b)
    ensures AllLeaves(a) && AllLeaves(b)
  {
    forall i | 0 <= i < |a| ensures a[i].kids == [] { assert (a + b)[i] == a[i]; }
    forall i | 0 <= i < |b| ensures b[i].kids == [] { assert (a + b)[|a| + i] == b[i]; }
  }

  lemma {:induction false} NextLevelOfLeaves<T>(f: seq<Tree<T>>)
    requires AllLeaves(f)
    ensures NextLevel(f) == []
  {
    if f != [] { NextLevelOfLeaves(f[1..]); }
  }

  lemma {:induction false} PackedSize<T>(f: seq<Tree<T>>)
    requires f != [] && Packed(f)
    ensures 3 * |PreAll(f)| >= |f| * (Pow4(HeightAll(f)) - 1) + 3
    decreases |PreAll(f)|
  {
    var g := NextLevel(f);
    NextLevelCounts(f);
    assert f + [] == f && [] + g == g;
    PackedLevel(f, []);
    if g == [] {
      FlatLevel(|f|, |PreAll(f)|, 0);
    } else if AllLeaves(g) {
      LeavesPre(g);
      NextLevelOfLeaves(g);
      NextLevelCounts(g);
      FlatLevel(|f|, |PreAll(f)|, 1);
    } else {
      PackedSize(g);
      FullLevel(|f|, |PreAll(g)|, Pow4(HeightAll(g)));
    }
  }

  lemma FlatLevel(n: int, size: int, h: nat)
    requires h <= 1 && size >= n + h && n >= 1
    ensures 3 * size >= n * (Pow4(h) - 1) + 3
  {
    assert Pow4(0) == 1 && Pow4(1) == 4;
  }

  lemma FullLevel(n: int, size: int, p: int)
    requires 3 * size >= 4 * n * (p - 1) + 3
    ensures 3 * (n + size) >= n * (4 * p - 1) + 3
  {
    assert n * (4 * p - 1) == 4 * n * (p - 1) + 3 * n;
  }

  /** Such a tree is shallow: 4^height <= 3n - 2 for n nodes. */
  lemma BuildHeight<T>(xs: seq<T>)
    requires xs != []
    ensures |Pre(Build(xs))| == |xs|
    ensures Pow4(Height(Build(xs))) <= 3 * |xs| - 2
  {
    var t := Build(xs);
    BuildPacked(xs);
    LevelSize([t]);
    PackedSize([t]);
    assert PreAll([t]) == Pre(t);
  }

  lemma {:induction false} LevelSize<T>(q: seq<Tree<T>>)
    ensures |Level(q)| == |PreAll(q)|
    decreases |PreAll(q)|
  {
    if q != [] {
      PreAllAppend(q[1..], q[0].kids);
      LevelSize(Enqueued(q));
    }
  }
}
