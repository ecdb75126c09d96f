/** What the parts of the invariant need when a tree, a queue or a station changes. */
module NetworkInvariant {
  import opened Trees
  import opened TreeOps
  import opened Mesh
  import opened Network

  // ------------------------------------------------------------- one tree grows

  /** A new true edge within depth two is accepted and keeps a tree in order. */
  lemma TreeAdd(top: Topology, n: Id, t: Tree<Id>, a: Id, b: Id)
    requires TopologyOk(top) && TreeOk(top, n, t) && n in top.depth
    requires Edge(top, a, b) && b !in Pre(t) && (a == n || a in KidsOf(t, n))
    ensures a in Pre(t) && AddAnyChild(t, a, b) == (Insert(t, a, b), true)
    ensures TreeOk(top, n, Insert(t, a, b))
    ensures forall x :: KidsOf(Insert(t, a, b), x) == if x == a then KidsOf(t, a) + [b] else KidsOf(t, x)
  {
    InsertDepthTwo(t, a, b);
    InsertLabels(t, a, b);
    forall x ensures KidsOf(Insert(t, a, b), x) == if x == a then KidsOf(t, a) + [b] else KidsOf(t, x) {
      InsertKids(t, a, b, x);
    }
    KidsNoDup(t, a);
    assert b !in KidsOf(t, a);
    assert Kids(top, a) == Kids(top, a) - {b} + {b};
    NoDupBound(KidsOf(t, a), Kids(top, a) - {b});
  }

  /** A true child of the root or of a known child is in the tree exactly when it is
      in that node's list. */
  lemma TreeHas(top: Topology, n: Id, t: Tree<Id>, c: Id, x: Id)
    requires TopologyOk(top) && TreeOk(top, n, t) && n in top.depth
    requires Edge(top, c, x) && (c == n || Edge(top, n, c))
    ensures x in Pre(t) <==> x in KidsOf(t, c)
  {
    KidsNoDup(t, c);
    if x in KidsOf(t, c) { assert x in PreAll(t.kids); }
    assert Placed(top, x) && (c != n ==> Placed(top, c));
    if x in Pre(t) { DepthTwoMember(t, x); }
  }

  // ------------------------------------------------------------------ UART queue

  lemma {:induction false} QueueAppend(top: Topology, n: Id, t: Tree<Id>, q: seq<Serial>, r: seq<Serial>)
    requires QueueOk(top, n, t, q) && QueueOk(top, n, After(t, q), r)
    ensures QueueOk(top, n, t, q + r) && After(t, q + r) == After(After(t, q), r)
    decreases |q|
  {
    if q == [] {
      assert q + r == r;
    } else {
      assert (q + r)[1..] == q[1..] + r;
      QueueAppend(top, n, if q[0].NodeAdd? then AddAnyChild(t, q[0].parent, q[0].child).0 else t, q[1..], r);
    }
  }

  /** Along the queue child lists only grow and routes stay. */
  lemma {:induction false} QueueGrows(top: Topology, n: Id, t: Tree<Id>, q: seq<Serial>, a: Id, d: Id)
    requires TopologyOk(top) && TreeOk(top, n, t) && n in top.depth && QueueOk(top, n, t, q)
    ensures KidsOf(t, a) <= KidsOf(After(t, q), a)
    ensures Path(t, d).Some? ==> Path(After(t, q), d) == Path(t, d)
    decreases |q|
  {
    if q != [] {
      if q[0].NodeAdd? {
        var p, c := q[0].parent, q[0].child;
        TreeAdd(top, n, t, p, c);
        InsertPath(t, p, c, d);
        QueueGrows(top, n, Insert(t, p, c), q[1..], a, d);
      } else {
        QueueGrows(top, n, t, q[1..], a, d);
      }
    }
  }

  // ------------------------------------------------------------------- TCP queue

  lemma {:induction false} ChainPrefix(top: Topology, c: Id, known: seq<Id>, q: seq<Msg>, last: seq<Id>)
    requires ChainOk(top, c, known, q, last)
    ensures known <= last
    decreases |q|
  {
    if q != [] {
      if q[0].Update? && q[0].source == c {
        ChainPrefix(top, c, q[0].children, q[1..], last);
      } else {
        ChainPrefix(top, c, known, q[1..], last);
      }
    }
  }

  /** A relayed message at the end changes nothing; an update with the STA's new
      list takes the chain there. */
  lemma {:induction false} ChainPush(top: Topology, c: Id, known: seq<Id>, q: seq<Msg>, last: seq<Id>,
                                    m: Msg, now: seq<Id>)
    requires ChainOk(top, c, known, q, last)
    requires IsRelay(m) || (m.Update? && TrueKids(top, m.source, m.children))
    requires if m.Update? && m.source == c then last <= now && m.children == now else now == last
    requires m.Update? && m.source != c ==> Edge(top, c, m.source) && m.source in last
    ensures ChainOk(top, c, known, q + [m], now)
    decreases |q|
  {
    if q == [] {
      assert q + [m] == [m] && [m][1..] == [];
    } else {
      assert (q + [m])[1..] == q[1..] + [m] && (q + [m])[0] == q[0];
      ChainPush(top, c, if q[0].Update? && q[0].source == c then q[0].children else known, q[1..], last, m, now);
    }
  }

  /** Sending up: a relayed message, or an update with what the STA now knows. */
  lemma LinkPush(top: Topology, c: Id, t: Tree<Id>, x: Station, y: Station, m: Msg)
    requires LinkOk(top, c, t, x) && y.up == x.up + [m] && y.down == x.down
    requires IsRelay(m) || (m.Update? && TrueKids(top, m.source, m.children))
    requires var last, now := KidsOf(x.sta.tree, c), KidsOf(y.sta.tree, c);
             if m.Update? && m.source == c then last <= now && m.children == now else now == last
    requires m.Update? && m.source != c ==> Edge(top, c, m.source) && m.source in KidsOf(x.sta.tree, c)
    ensures LinkOk(top, c, t, y)
  {
    var last, now := KidsOf(x.sta.tree, c), KidsOf(y.sta.tree, c);
    if c in KidsOf(t, t.root) {
      ChainPush(top, c, KidsOf(t, c), x.up, last, m, now);
    } else {
      assert y.up[1..] == x.up[1..] + [m];
      ChainPush(top, c, [], x.up[1..], last, m, now);
    }
  }

  // ------------------------------------------------------------ the topology grows

  predicate Wider(top: Topology, wide: Topology) {
    && top.root == wide.root
    && forall a, b :: Edge(top, a, b) ==> Edge(wide, a, b)
  }

  lemma {:induction false} QueueWider(top: Topology, wide: Topology, n: Id, t: Tree<Id>, q: seq<Serial>)
    requires Wider(top, wide) && QueueOk(top, n, t, q)
    ensures QueueOk(wide, n, t, q)
    decreases |q|
  {
    if q != [] {
      QueueWider(top, wide, n, if q[0].NodeAdd? then AddAnyChild(t, q[0].parent, q[0].child).0 else t, q[1..]);
    }
  }

  lemma {:induction false} ChainWider(top: Topology, wide: Topology, c: Id, known: seq<Id>, q: seq<Msg>, last: seq<Id>)
    requires Wider(top, wide) && ChainOk(top, c, known, q, last)
    ensures ChainOk(wide, c, known, q, last)
    decreases |q|
  {
    if q != [] {
      ChainWider(top, wide, c, if q[0].Update? && q[0].source == c then q[0].children else known, q[1..], last);
    }
  }

  lemma LinkWider(top: Topology, wide: Topology, c: Id, above: Tree<Id>, x: Station)
    requires Wider(top, wide) && LinkOk(top, c, above, x)
    ensures LinkOk(wide, c, above, x)
  {
    var last := KidsOf(x.sta.tree, c);
    if c in KidsOf(above, above.root) {
      ChainWider(top, wide, c, KidsOf(above, c), x.up, last);
    } else {
      ChainWider(top, wide, c, [], x.up[1..], last);
    }
  }

  // --------------------------------------------------------- one station changes

  ghost predicate LinkedUp(s: Net, n: Id, x: Station) {
    n in s.top.parent ==>
      s.top.parent[n] in s.nodes && LinkOk(s.top, n, s.nodes[s.top.parent[n]].ap.tree, x)
  }

  /** A change at one node that leaves its AP's tree alone touches no other node. */
  lemma OneStation(s: Net, n: Id, x: Station)
    requires Inv(s) && n in s.nodes && StationOk(s.top, n, x) && LinkedUp(s, n, x)
    requires x.ap.tree == s.nodes[n].ap.tree
    ensures Inv(With(s, n, x))
  {
    var s1 := With(s, n, x);
    forall k | k in s1.nodes ensures NodeOk(s1, k) {
      assert NodeOk(s, k);
      if k in s.top.parent {
        var p := s.top.parent[k];
        assert s1.nodes[p].ap.tree == s.nodes[p].ap.tree;
      }
    }
  }

  /** What one tree says about a node as a child. */
  predicate SameChild(t: Tree<Id>, u: Tree<Id>, k: Id) {
    && t.root == u.root && KidsOf(t, k) == KidsOf(u, k)
    && (k in KidsOf(t, t.root) <==> k in KidsOf(u, u.root))
  }

  lemma LinkSame(top: Topology, k: Id, t: Tree<Id>, u: Tree<Id>, x: Station, y: Station)
    requires SameChild(t, u, k) && LinkOk(top, k, u, x)
    requires y.sta.tree == x.sta.tree && y.up == x.up && y.down == x.down
    ensures LinkOk(top, k, t, y)
  {
  }

  /** A node and its parent change together; the parent's tree changes only in what
      it says about that child. */
  lemma TwoStations(s: Net, c: Id, p: Id, x: Station, y: Station)
    requires Inv(s) && Edge(s.top, p, c) && p in s.nodes && c in s.nodes && p != c
    requires StationOk(s.top, c, x) && StationOk(s.top, p, y)
    requires x.ap.tree == s.nodes[c].ap.tree && LinkOk(s.top, c, y.ap.tree, x)
    requires y.sta.tree == s.nodes[p].sta.tree && y.up == s.nodes[p].up && y.down == s.nodes[p].down
    requires forall k {:trigger SameChild(y.ap.tree, s.nodes[p].ap.tree, k)} ::
               Edge(s.top, p, k) && k != c ==> SameChild(y.ap.tree, s.nodes[p].ap.tree, k)
    ensures Inv(With(With(s, c, x), p, y))
  {
    var s1 := With(With(s, c, x), p, y);
    assert s1.nodes.Keys == s.nodes.Keys;
    forall k | k in s1.nodes ensures NodeOk(s1, k) {
      if k != c {
        OtherStation(s, s1, c, p, k);
      }
    }
  }

  lemma OtherStation(s: Net, s1: Net, c: Id, p: Id, k: Id)
    requires Inv(s) && p in s.nodes && c in s.nodes && c in s1.nodes && p in s1.nodes
    requires k in s.nodes && k != c && p != c
    requires s1.top == s.top && s1.nodes.Keys == s.nodes.Keys
    requires forall j :: j in s.nodes && j != c && j != p ==> s1.nodes[j] == s.nodes[j]
    requires s1.nodes[c].ap.tree == s.nodes[c].ap.tree && StationOk(s.top, p, s1.nodes[p])
    requires var x, y := s.nodes[p], s1.nodes[p]; y.sta.tree == x.sta.tree && y.up == x.up && y.down == x.down
    requires Edge(s.top, p, k) ==> SameChild(s1.nodes[p].ap.tree, s.nodes[p].ap.tree, k)
    ensures NodeOk(s1, k)
  {
    assert NodeOk(s, k);
    if k in s.top.parent {
      var q := s.top.parent[k];
      var t, u := s1.nodes[q].ap.tree, s.nodes[q].ap.tree;
      assert SameChild(t, u, k);
      LinkSame(s.top, k, t, u, s.nodes[k], s1.nodes[k]);
    }
  }
}
