/** Messages turn at the lowest common ancestor.

    In a network at rest the whole way of a data or ACK message is known: up to the
    lowest common ancestor of sender and destination, and from there down, if that
    ancestor knows the destination; otherwise up to the root, where it is dropped.
  */
module TurningPoint {
  import opened Trees
  import opened TreeOps
  import opened Mesh
  import opened Network
  import opened NetworkInvariant
  import opened NetworkSteps
  import opened NetworkTheorems
  import opened Routing

  // -------------------------------------------------------------------- ancestors

  ghost function Lca(top: Topology, x: Id, y: Id): (a: Id)
    requires TopologyOk(top) && x in top.depth && y in top.depth
    ensures a in top.depth
    decreases top.depth[x] + top.depth[y]
  {
    if x == y then x
    else if top.depth[x] >= top.depth[y] then
      assert x in top.parent by { NotRoot(top, x, y); }
      assert Placed(top, x);
      Lca(top, top.parent[x], y)
    else
      assert y in top.parent by { NotRoot(top, y, x); }
      assert Placed(top, y);
      Lca(top, x, top.parent[y])
  }

  lemma NotRoot(top: Topology, x: Id, y: Id)
    requires TopologyOk(top) && x in top.depth && y in top.depth && x != y && top.depth[x] >= top.depth[y]
    ensures x in top.parent
  {
    assert y in top.parent ==> Placed(top, y);
  }

  /** `a` is `x` or above it. */
  ghost predicate OnTheWayUp(top: Topology, a: Id, x: Id)
    requires TopologyOk(top) && x in top.depth
    decreases top.depth[x]
  {
    a == x || (x in top.parent && Placed(top, x) && OnTheWayUp(top, a, top.parent[x]))
  }

  lemma {:induction false} UpIsHigher(top: Topology, a: Id, x: Id)
    requires TopologyOk(top) && x in top.depth && OnTheWayUp(top, a, x)
    ensures a in top.depth && top.depth[a] <= top.depth[x] && (top.depth[a] == top.depth[x] ==> a == x)
    decreases top.depth[x]
  {
    if a != x { UpIsHigher(top, a, top.parent[x]); }
  }

  /** The definition is right: a common ancestor, with every other one above it. */
  lemma {:induction false} LcaIsLowest(top: Topology, x: Id, y: Id, b: Id)
    requires TopologyOk(top) && x in top.depth && y in top.depth
    ensures OnTheWayUp(top, Lca(top, x, y), x) && OnTheWayUp(top, Lca(top, x, y), y)
    ensures OnTheWayUp(top, b, x) && OnTheWayUp(top, b, y) ==> OnTheWayUp(top, b, Lca(top, x, y))
    decreases top.depth[x] + top.depth[y]
  {
    if x == y {
    } else if top.depth[x] >= top.depth[y] {
      NotRoot(top, x, y);
      assert Placed(top, x);
      LcaIsLowest(top, top.parent[x], y, b);
      if b == x && OnTheWayUp(top, x, y) { UpIsHigher(top, x, y); }
    } else {
      NotRoot(top, y, x);
      assert Placed(top, y);
      LcaIsLowest(top, x, top.parent[y], b);
      if b == y && OnTheWayUp(top, y, x) { UpIsHigher(top, y, x); }
    }
  }

  // ------------------------------------------------------------- where it turns

  /** The nearest proper ancestor of `x` that is `d` or knows it. */
  ghost function Stop(top: Topology, x: Id, d: Id): (r: Option<Id>)
    requires TopologyOk(top) && x in top.depth
    ensures r.Some? ==> r.value in top.depth
    decreases top.depth[x]
  {
    if x !in top.parent then None
    else
      assert Placed(top, x);
      var p := top.parent[x];
      if p == d || Near(top, p, d) then Some(p) else Stop(top, p, d)
  }

  lemma NearIsUp(top: Topology, a: Id, d: Id)
    requires TopologyOk(top) && d in top.depth && Near(top, a, d)
    ensures a in top.depth && OnTheWayUp(top, a, d) && top.depth[a] < top.depth[d] <= top.depth[a] + 2
  {
    assert Placed(top, d);
    var p := top.parent[d];
    assert OnTheWayUp(top, p, d);
    if !Edge(top, a, d) { assert Placed(top, p) && OnTheWayUp(top, a, p); }
  }

  lemma {:induction false} UpTrans(top: Topology, a: Id, b: Id, x: Id)
    requires TopologyOk(top) && x in top.depth && b in top.depth
    requires OnTheWayUp(top, a, b) && OnTheWayUp(top, b, x)
    ensures OnTheWayUp(top, a, x)
    decreases top.depth[x]
  {
    if b != x { UpTrans(top, a, b, top.parent[x]); }
  }

  /** Ancestors of one node lie on one line. */
  lemma {:induction false} UpLine(top: Topology, a: Id, b: Id, x: Id)
    requires TopologyOk(top) && x in top.depth && OnTheWayUp(top, a, x) && OnTheWayUp(top, b, x)
    requires a in top.depth && b in top.depth && top.depth[a] <= top.depth[b]
    ensures OnTheWayUp(top, a, b)
    decreases top.depth[x]
  {
    if b == x {
    } else if a == x {
      UpIsHigher(top, b, x);
    } else {
      UpLine(top, a, b, top.parent[x]);
    }
  }

  /** Above an ancestor that does not know `d` nobody does. */
  lemma {:induction false} NobodyHigher(top: Topology, a: Id, x: Id, d: Id)
    requires TopologyOk(top) && x in top.depth && d in top.depth && a in top.depth
    requires OnTheWayUp(top, a, d) && a != d && !Near(top, a, d) && OnTheWayUp(top, x, a)
    ensures Stop(top, x, d).None?
    decreases top.depth[x]
  {
    if x in top.parent {
      assert Placed(top, x);
      var p := top.parent[x];
      assert OnTheWayUp(top, p, x);
      UpTrans(top, p, x, a);
      UpIsHigher(top, x, a);
      UpIsHigher(top, a, d);
      assert p != d;
      if Near(top, p, d) {
        NearIsUp(top, p, d);
        ShortWay(top, a, d);
      }
      NobodyHigher(top, a, p, d);
    }
  }

  lemma ShortWay(top: Topology, a: Id, d: Id)
    requires TopologyOk(top) && d in top.depth && a in top.depth && OnTheWayUp(top, a, d) && a != d
    requires top.depth[d] <= top.depth[a] + 1
    ensures Edge(top, a, d)
  {
    assert Placed(top, d);
    UpIsHigher(top, a, top.parent[d]);
  }

  /** Climbing from below, the first node that is `d` or knows it is the lowest common
      ancestor, or there is none. */
  lemma {:induction false} StopIsLca(top: Topology, x: Id, d: Id)
    requires TopologyOk(top) && x in top.depth && d in top.depth && x != d
    ensures var a := Lca(top, x, d);
            Stop(top, x, d) == if x != a && (a == d || Near(top, a, d)) then Some(a)
                               else if x == a && Near(top, a, d) then Stop(top, x, d)
                               else None
    decreases top.depth[x]
  {
    var a := Lca(top, x, d);
    LcaIsLowest(top, x, d, x);
    if x == a {
      if !Near(top, x, d) { NobodyHigher(top, x, x, d); }
    } else {
      LcaOfParent(top, x, d);
      assert Placed(top, x);
      var p := top.parent[x];
      if p == a {
        if a != d && !Near(top, a, d) { NobodyHigher(top, a, a, d); }
      } else {
        if Near(top, p, d) { NearIsUp(top, p, d); }
        if OnTheWayUp(top, p, d) {
          assert OnTheWayUp(top, p, x);
          LcaIsLowest(top, x, d, p);
          LcaIsLowest(top, p, d, a);
          UpIsHigher(top, p, a);
          UpIsHigher(top, a, p);
        }
        StopIsLca(top, p, d);
      }
    }
  }

  lemma LcaOfParent(top: Topology, x: Id, d: Id)
    requires TopologyOk(top) && x in top.depth && d in top.depth && Lca(top, x, d) != x
    ensures x in top.parent && top.parent[x] in top.depth && Lca(top, top.parent[x], d) == Lca(top, x, d)
  {
    var a := Lca(top, x, d);
    LcaIsLowest(top, x, d, a);
    assert Placed(top, x);
    var p := top.parent[x];
    var b := Lca(top, p, d);
    LcaIsLowest(top, p, d, a);
    assert OnTheWayUp(top, b, x);
    LcaIsLowest(top, x, d, b);
    UpIsHigher(top, a, b);
    UpIsHigher(top, b, a);
  }

  // ---------------------------------------------------- one message in a quiet net

  /** The quiet state `s` with one message under way. */
  function Carrying(s: Net, at: Place, m: Msg): Net {
    match at
    case Gone => s
    case Up(n) => if n in s.nodes then With(s, n, s.nodes[n].(up := [m])) else s
    case Down(n) => if n in s.nodes then With(s, n, s.nodes[n].(down := [m])) else s
    case ToSta(n) => if n in s.nodes then With(s, n, s.nodes[n].(toSta := [Tunnel(m)])) else s
    case ToAp(n) => if n in s.nodes then With(s, n, s.nodes[n].(toAp := [Tunnel(m)])) else s
  }

  /** In a quiet net every queue is served at once: nothing happens in between. */
  function Waits(k: nat): (r: seq<seq<Step>>)
    ensures |r| == k && (k > 0 ==> r[0] == [] && r[1..] == Waits(k - 1))
  {
    if k == 0 then [] else [[]] + Waits(k - 1)
  }

  function Route(s: Net, at: Place, m: Msg, k: nat): seq<Place> {
    Follow(Carrying(s, at, m), at, m, Waits(k))
  }

  /** The message stands alone at a place it can come to. */
  ghost predicate Carried(s: Net, at: Place, m: Msg) {
    && Inv(s) && Quiet(s) && IsRelay(m)
    && !at.Gone? && at.node in s.nodes && Inv(Carrying(s, at, m))
  }

  /** Where a message goes in a net at rest, by the topology alone. */
  function QuietHop(top: Topology, at: Place, m: Msg): Place
    requires IsRelay(m)
  {
    match at
    case Gone => Gone
    case Down(n) => if m.dest == n then Gone else ToAp(n)
    case ToAp(n) => Down(FirstHop(top, n, m.dest))
    case ToSta(n) => if m.dest == n || n == top.root then Gone else Up(n)
    case Up(c) =>
      var p := ParentOf(top, c);
      if m.dest == p then (if m.Ack? then ToSta(p) else Gone)
      else if Near(top, p, m.dest) then Down(FirstHop(top, p, m.dest))
      else ToSta(p)
  }

  function FirstHop(top: Topology, n: Id, d: Id): Id {
    if Edge(top, n, d) then d else ParentOf(top, d)
  }

  /** One step of a lone message: the handler does what `QuietHop` says, and the
      message stands alone again. */
  ghost predicate Moves(s: Net, at: Place, m: Msg)
    requires IsRelay(m)
  {
    var c, h := Carrying(s, at, m), QuietHop(s.top, at, m);
    && !at.Gone? && AtHead(c, at, m) && Hop(c, at, m) == h
    && Enabled(c, StepAt(at))
    && (!h.Gone? ==> h.node in s.nodes && Next(c, StepAt(at)) == Carrying(s, h, m))
  }

  lemma MovesDown(s: Net, n: Id, m: Msg)
    requires Carried(s, Down(n), m)
    ensures Moves(s, Down(n), m)
  {
    var c := Carrying(s, Down(n), m);
    assert Idle(s.nodes[n]);
    HopDown(c, n, m);
    var x := c.nodes[n];
    assert x.(down := x.down[1..], toAp := x.toAp + [Tunnel(m)]) == s.nodes[n].(toAp := [Tunnel(m)]);
    if m.dest != n { WithTwice(s, n, c.nodes[n], s.nodes[n].(toAp := [Tunnel(m)])); }
  }

  lemma MovesToSta(s: Net, n: Id, m: Msg)
    requires Carried(s, ToSta(n), m)
    ensures Moves(s, ToSta(n), m)
  {
    var c := Carrying(s, ToSta(n), m);
    assert Idle(s.nodes[n]);
    HopToSta(c, n, m);
    var x := c.nodes[n];
    assert x.(toSta := x.toSta[1..], up := x.up + [m]) == s.nodes[n].(up := [m]);
    if m.dest != n && n != s.top.root { WithTwice(s, n, c.nodes[n], s.nodes[n].(up := [m])); }
  }

  lemma MovesToAp(s: Net, n: Id, m: Msg)
    requires Carried(s, ToAp(n), m)
    ensures Moves(s, ToAp(n), m)
  {
    var c := Carrying(s, ToAp(n), m);
    assert Idle(s.nodes[n]);
    var k := HopToAp(c, n, m);
    var x, y := c.nodes[n], s.nodes[k];
    assert Idle(y) && x.(toAp := x.toAp[1..]) == s.nodes[n] && y.(down := y.down + [m]) == y.(down := [m]);
    WithTwice(s, n, c.nodes[n], s.nodes[n]);
    WithSame(s, n);
  }

  lemma PutAlone(y: Station, m: Msg)
    requires Idle(y)
    ensures y.toSta + [Tunnel(m)] == [Tunnel(m)] && y.down + [m] == [m]
  {
  }

  /** At rest an AP turns a message from below when its node is the destination's
      parent or grandparent. */
  lemma MovesUp(s: Net, n: Id, m: Msg)
    requires Carried(s, Up(n), m)
    ensures Moves(s, Up(n), m) && n in s.top.parent
  {
    var c := Carrying(s, Up(n), m);
    assert Idle(s.nodes[n]);
    var p, k := HopUp(c, n, m);
    var x, y := c.nodes[n], s.nodes[p];
    assert x.(up := x.up[1..]) == s.nodes[n];
    assert Idle(y);
    PutAlone(y, m);
    if k in s.nodes {
      assert Idle(s.nodes[k]);
      PutAlone(s.nodes[k], m);
    }
    QuietKnows(s, p, m.dest);
    WithTwice(s, n, c.nodes[n], s.nodes[n]);
    WithSame(s, n);
  }

  lemma Moved(s: Net, at: Place, m: Msg)
    requires Carried(s, at, m)
    ensures Moves(s, at, m)
    ensures var h := QuietHop(s.top, at, m); !h.Gone? ==> Carried(s, h, m)
  {
    match at {
      case Down(n) => MovesDown(s, n, m);
      case ToSta(n) => MovesToSta(s, n, m);
      case ToAp(n) => MovesToAp(s, n, m);
      case Up(n) => MovesUp(s, n, m);
    }
    StepOk(Carrying(s, at, m), StepAt(at));
  }

  lemma FollowOne(c: Net, at: Place, m: Msg, k: nat)
    requires AtHead(c, at, m) && Enabled(c, StepAt(at)) && k > 0
    ensures Follow(c, at, m, Waits(k)) == [at] + Follow(Next(c, StepAt(at)), Hop(c, at, m), m, Waits(k - 1))
  {
    assert Run(Next(c, StepAt(at)), []) == Next(c, StepAt(at));
  }

  /** The places a lone message comes to in at most `k` hops, by the topology alone. */
  function QuietRoute(top: Topology, at: Place, m: Msg, k: nat): seq<Place>
    requires IsRelay(m)
    decreases k
  {
    if at.Gone? then [] else [at] + if k == 0 then [] else QuietRoute(top, QuietHop(top, at, m), m, k - 1)
  }

  lemma {:induction false} RouteIsQuiet(s: Net, at: Place, m: Msg, k: nat)
    requires Carried(s, at, m)
    ensures Route(s, at, m, k) == QuietRoute(s.top, at, m, k)
    decreases k
  {
    var h := QuietHop(s.top, at, m);
    if k > 0 && !h.Gone? {
      CarriedOn(s, at, m);
      RouteIsQuiet(s, h, m, k - 1);
    }
    RouteOn(s, at, m, k);
  }

  lemma RouteUnfolds(top: Topology, at: Place, m: Msg, k: nat)
    requires IsRelay(m) && !at.Gone?
    ensures var h := QuietHop(top, at, m);
            QuietRoute(top, at, m, k) == if k == 0 || h.Gone? then [at] else [at] + QuietRoute(top, h, m, k - 1)
  {
    assert [at] + [] == [at];
  }

  lemma CarriedOn(s: Net, at: Place, m: Msg)
    requires Carried(s, at, m)
    ensures var h := QuietHop(s.top, at, m); !h.Gone? ==> Carried(s, h, m)
  {
    Moved(s, at, m);
  }

  /** What the handlers do to a lone message, hop by hop. */
  lemma RouteOn(s: Net, at: Place, m: Msg, k: nat)
    requires Carried(s, at, m)
    requires var h := QuietHop(s.top, at, m);
             k > 0 && !h.Gone? ==> Route(s, h, m, k - 1) == QuietRoute(s.top, h, m, k - 1)
    ensures Route(s, at, m, k) == QuietRoute(s.top, at, m, k)
  {
    Moved(s, at, m);
    if k > 0 { FollowOne(Carrying(s, at, m), at, m, k); }
  }

  // -------------------------------------------------------------------- the route

  /** From the link above `x` to the AP of its ancestor `b`. */
  ghost function Climb(top: Topology, x: Id, b: Id): seq<Place>
    requires TopologyOk(top) && x in top.depth
    decreases top.depth[x]
  {
    if x !in top.parent then []
    else
      assert Placed(top, x);
      var p := top.parent[x];
      if p == b then [Up(x)] else [Up(x), ToSta(p)] + Climb(top, p, b)
  }

  /** From the AP of `n` to its child or grandchild `d`. */
  function Descend(top: Topology, n: Id, d: Id): seq<Place>
    requires d in top.parent
  {
    if Edge(top, n, d) then [Down(d)] else [Down(top.parent[d]), ToAp(top.parent[d]), Down(d)]
  }

  lemma LastTwo(top: Topology, f: Id, m: Msg, k: nat)
    requires IsRelay(m) && Edge(top, f, m.dest) && k >= 2
    ensures QuietRoute(top, ToAp(f), m, k) == [ToAp(f), Down(m.dest)]
  {
    assert QuietRoute(top, Down(m.dest), m, k - 1) == [Down(m.dest)];
  }

  lemma DescendRoute(top: Topology, n: Id, m: Msg, k: nat)
    requires TopologyOk(top) && IsRelay(m) && Near(top, n, m.dest) && k >= 3
    ensures QuietRoute(top, Down(FirstHop(top, n, m.dest)), m, k) == Descend(top, n, m.dest)
  {
    var f := FirstHop(top, n, m.dest);
    if f != m.dest { LastTwo(top, f, m, k - 1); }
    assert Placed(top, m.dest);
  }

  /** The end of the way after the climb has come to `b`. */
  function Ending(top: Topology, b: Id, m: Msg): seq<Place>
    requires IsRelay(m)
  {
    if b == m.dest then (if m.Ack? then [ToSta(b)] else [])
    else if m.dest in top.parent then Descend(top, b, m.dest) else []
  }

  /** The way of a lone message from the link above `x` on. */
  ghost function Way(top: Topology, x: Id, m: Msg): seq<Place>
    requires TopologyOk(top) && x in top.depth && x in top.parent && IsRelay(m)
    decreases top.depth[x]
  {
    assert Placed(top, x);
    var p, d := top.parent[x], m.dest;
    [Up(x)] +
    if d == p || Near(top, p, d) then Ending(top, p, m)
    else if p in top.parent then [ToSta(p)] + Way(top, p, m)
    else [ToSta(p)]
  }

  lemma {:induction false} WayIsRoute(top: Topology, x: Id, m: Msg, k: nat)
    requires TopologyOk(top) && x in top.depth && x in top.parent && IsRelay(m)
    requires k >= 2 * top.depth[x] + 4
    ensures QuietRoute(top, Up(x), m, k) == Way(top, x, m)
    decreases top.depth[x]
  {
    assert Placed(top, x);
    var p, d := top.parent[x], m.dest;
    if d == p {
      if m.Ack? { assert QuietRoute(top, ToSta(p), m, k - 1) == [ToSta(p)]; }
    } else if Near(top, p, d) {
      DescendRoute(top, p, m, k - 1);
    } else if p != top.root {
      WayIsRoute(top, p, m, k - 2);
    } else {
      assert QuietRoute(top, ToSta(p), m, k - 1) == [ToSta(p)];
    }
  }

  /** That way is a climb to where it stops, and what follows there. */
  lemma {:induction false} WaySplits(top: Topology, x: Id, m: Msg)
    requires TopologyOk(top) && x in top.depth && x in top.parent && IsRelay(m)
    ensures var b := Stop(top, x, m.dest);
            Way(top, x, m) ==
            if b.Some? then Climb(top, x, b.value) + Ending(top, b.value, m)
            else Climb(top, x, top.root) + [ToSta(top.root)]
    decreases top.depth[x]
  {
    assert Placed(top, x);
    var p, d := top.parent[x], m.dest;
    if d != p && !Near(top, p, d) && p in top.parent {
      assert Placed(top, p);
      WaySplits(top, p, m);
      if Stop(top, p, d).Some? { StopIsHigher(top, p, d); }
    }
  }

  lemma {:induction false} StopIsHigher(top: Topology, x: Id, d: Id)
    requires TopologyOk(top) && x in top.depth && Stop(top, x, d).Some?
    ensures top.depth[Stop(top, x, d).value] < top.depth[x]
    decreases top.depth[x]
  {
    assert Placed(top, x);
    if Stop(top, x, d) != Some(top.parent[x]) { StopIsHigher(top, top.parent[x], d); }
  }

  // ------------------------------------------------------------------ the theorem

  /** The route of a message from the STA of `x`: up to the lowest common ancestor of
      `x` and the destination, then down if that node's tree holds the destination;
      else to the root. */
  ghost function ExpectedRoute(top: Topology, x: Id, m: Msg, known: bool): seq<Place>
    requires TopologyOk(top) && x in top.depth && IsRelay(m) && m.dest in top.depth
  {
    var a, d := Lca(top, x, m.dest), m.dest;
    if !known then (if x == top.root then [] else Climb(top, x, top.root) + [ToSta(top.root)])
    else if x == a then [ToAp(x)] + (if d in top.parent then Descend(top, x, d) else [])
    else Climb(top, x, a) + Ending(top, a, m)
  }

  /** Where the STA of `x` puts a message at rest. */
  function FirstQuiet(top: Topology, x: Id, d: Id): Place {
    if d != x && Near(top, x, d) then ToAp(x) else if x == top.root then Gone else Up(x)
  }

  lemma FirstIsQuiet(s: Net, x: Id, m: Msg)
    requires Inv(s) && Quiet(s) && x in s.nodes && IsRelay(m)
    ensures FirstPlace(s, x, m) == FirstQuiet(s.top, x, m.dest)
    ensures var out := StaSend(s.nodes[x].sta, m);
            (out.serial == None && out.up == Some(m)) || (out.serial == Some(Tunnel(m)) && out.up == None)
    ensures Inv(AfterSta(s, x, StaSend(s.nodes[x].sta, m)))
    ensures x in s.top.depth && (x != s.top.root ==> x in s.top.parent)
  {
    QuietKnows(s, x, m.dest);
    QuietTrees(s, x);
    assert NodeOk(s, x);
    UniqueParts(s.nodes[x].ap.tree);
    AfterStaOk(s, x, StaSend(s.nodes[x].sta, m));
  }

  /** Sending with `send_msg` puts the message alone on the UART or on the link up. */
  lemma SentAlone(s: Net, x: Id, m: Msg)
    requires Inv(s) && Quiet(s) && x in s.nodes && IsRelay(m)
    ensures FirstPlace(s, x, m) == FirstQuiet(s.top, x, m.dest)
    ensures AfterSta(s, x, StaSend(s.nodes[x].sta, m)) == Carrying(s, FirstPlace(s, x, m), m)
    ensures !FirstPlace(s, x, m).Gone? ==> Carried(s, FirstPlace(s, x, m), m)
    ensures x in s.top.depth && (x != s.top.root ==> x in s.top.parent)
  {
    FirstIsQuiet(s, x, m);
    assert Idle(s.nodes[x]);
    SentStands(s, x, m, StaSend(s.nodes[x].sta, m));
  }

  lemma SentStands(s: Net, x: Id, m: Msg, out: StaOut)
    requires x in s.nodes && Idle(s.nodes[x]) && out.sta == s.nodes[x].sta
    requires (out.serial == None && out.up == Some(m)) || (out.serial == Some(Tunnel(m)) && out.up == None)
    ensures AfterSta(s, x, out) == Carrying(s, FromSta(s, x, out, m), m)
  {
    var y := s.nodes[x];
    assert y.toAp + [Tunnel(m)] == [Tunnel(m)] && y.up + [m] == [m] && y.toAp + [] == y.toAp && y.up + [] == y.up;
    WithSame(s, x);
  }

  /** What the handlers do to a message sent at rest is what the topology says. */
  lemma SentRoute(s: Net, x: Id, m: Msg, k: nat)
    requires Inv(s) && Quiet(s) && x in s.nodes && IsRelay(m)
    ensures x in s.top.depth && (x != s.top.root ==> x in s.top.parent)
    ensures Follow(AfterSta(s, x, StaSend(s.nodes[x].sta, m)), FirstPlace(s, x, m), m, Waits(k)) ==
            QuietRoute(s.top, FirstQuiet(s.top, x, m.dest), m, k)
  {
    SentAlone(s, x, m);
    var f := FirstPlace(s, x, m);
    if !f.Gone? { RouteIsQuiet(s, f, m, k); }
  }

  lemma NearMeansLca(top: Topology, x: Id, d: Id)
    requires TopologyOk(top) && x in top.depth && d in top.depth && Near(top, x, d)
    ensures Lca(top, x, d) == x
  {
    NearIsUp(top, x, d);
    LcaIsLowest(top, x, d, x);
    UpIsHigher(top, Lca(top, x, d), x);
    UpIsHigher(top, x, Lca(top, x, d));
  }

  lemma {:induction false} LinksAppend(a: seq<Place>, b: seq<Place>)
    ensures Links(a + b) == Links(a) + Links(b)
  {
    if a == [] {
      assert a + b == b;
    } else {
      assert (a + b)[1..] == a[1..] + b;
      LinksAppend(a[1..], b);
    }
  }

  lemma {:induction false} ClimbLinks(top: Topology, x: Id, b: Id)
    requires TopologyOk(top) && x in top.depth && b in top.depth && OnTheWayUp(top, b, x) && b != x
    ensures Links(Climb(top, x, b)) + top.depth[b] == top.depth[x]
    decreases top.depth[x]
  {
    assert Placed(top, x);
    var p := top.parent[x];
    assert Links([Up(x), ToSta(p)]) == 1 + Links([ToSta(p)]) == 1;
    assert Links([Up(x)]) == 1 + Links([]) == 1;
    if p != b {
      ClimbLinks(top, p, b);
      LinksAppend([Up(x), ToSta(p)], Climb(top, p, b));
    }
  }

  lemma {:induction false} RootOnTop(top: Topology, x: Id)
    requires TopologyOk(top) && x in top.depth
    ensures OnTheWayUp(top, top.root, x)
    decreases top.depth[x]
  {
    if x != top.root {
      assert Placed(top, x);
      RootOnTop(top, top.parent[x]);
    }
  }

  lemma DescendLinks(top: Topology, n: Id, d: Id)
    requires TopologyOk(top) && Near(top, n, d)
    ensures d in top.depth && n in top.depth && Links(Descend(top, n, d)) + top.depth[n] == top.depth[d]
  {
    assert Placed(top, d);
    if Edge(top, n, d) {
      assert Links([Down(d)]) == 1 + Links([]);
    } else {
      var c := top.parent[d];
      assert Placed(top, c);
      LinksAppend([Down(c), ToAp(c)], [Down(d)]);
      assert [Down(c), ToAp(c)] + [Down(d)] == Descend(top, n, d);
      assert Links([Down(c), ToAp(c)]) == 1 + Links([ToAp(c)]) == 1;
      assert Links([Down(d)]) == 1 + Links([]);
    }
  }

  lemma ExpectedLinks(top: Topology, x: Id, m: Msg, known: bool)
    requires TopologyOk(top) && x in top.depth && IsRelay(m) && m.dest in top.depth && m.dest != x
    requires var a := Lca(top, x, m.dest); known <==> m.dest == a || Near(top, a, m.dest)
    ensures var a, n := Lca(top, x, m.dest), Links(ExpectedRoute(top, x, m, known));
            if known then n + 2 * top.depth[a] == top.depth[x] + top.depth[m.dest] else n == top.depth[x]
  {
    var a, d := Lca(top, x, m.dest), m.dest;
    LcaIsLowest(top, x, d, x);
    if known {
      if a != d { DescendLinks(top, a, d); }
      if x == a {
        assert Links([ToAp(x)]) == 0 + Links([]);
        LinksAppend([ToAp(x)], Descend(top, x, d));
      } else {
        ClimbLinks(top, x, a);
        LinksAppend(Climb(top, x, a), Ending(top, a, m));
        assert Links([ToSta(a)]) == Links([]);
        assert d in top.parent ==> Placed(top, d);
      }
    } else if x != top.root {
      RootOnTop(top, x);
      ClimbLinks(top, x, top.root);
      assert Links([ToSta(top.root)]) == Links([]);
      LinksAppend(Climb(top, x, top.root), [ToSta(top.root)]);
    }
  }

  lemma RouteIsExpected(top: Topology, x: Id, m: Msg, known: bool, k: nat)
    requires TopologyOk(top) && x in top.depth && IsRelay(m) && m.dest in top.depth && m.dest != x
    requires var a := Lca(top, x, m.dest); known <==> m.dest == a || Near(top, a, m.dest)
    requires k >= 2 * top.depth[x] + 4
    ensures QuietRoute(top, FirstQuiet(top, x, m.dest), m, k) == ExpectedRoute(top, x, m, known)
  {
    var a, d := Lca(top, x, m.dest), m.dest;
    LcaIsLowest(top, x, d, x);
    if Near(top, x, d) {
      NearMeansLca(top, x, d);
      DescendRoute(top, x, m, k - 1);
    } else if x != top.root {
      WayIsRoute(top, x, m, k);
      WaySplits(top, x, m);
      StopIsLca(top, x, d);
    } else {
      RootOnTop(top, d);
      UpIsHigher(top, a, x);
    }
  }

  /** In a network at rest, a data or ACK message that the STA of `x` sends with
      `send_msg` to another node takes exactly that route. It crosses as many links as
      the tree distance of the two if their lowest common ancestor is the destination
      or knows it, and leaves at the root otherwise. */
  lemma TurnsAtLowestCommonAncestor(s: Net, x: Id, m: Msg, k: nat)
    requires Reachable(s) && Quiet(s) && x in s.nodes && IsRelay(m) && m.dest in s.nodes && m.dest != x
    requires k >= 2 * DepthOf(s.top, x) + 4
    ensures TopologyOk(s.top) && s.nodes.Keys == s.top.depth.Keys
    ensures var sent := AfterSta(s, x, StaSend(s.nodes[x].sta, m));
            var r := Follow(sent, FirstPlace(s, x, m), m, Waits(k));
            var a := Lca(s.top, x, m.dest);
            var known := m.dest in Pre(s.nodes[a].ap.tree);
            && r == ExpectedRoute(s.top, x, m, known)
            && if known
               then Links(r) + 2 * s.top.depth[a] == s.top.depth[x] + s.top.depth[m.dest]
               else Links(r) == s.top.depth[x]
  {
    ReachableInv(s);
    SentRoute(s, x, m, k);
    var a := Lca(s.top, x, m.dest);
    QuietKnows(s, a, m.dest);
    RouteIsExpected(s.top, x, m, m.dest in Pre(s.nodes[a].ap.tree), k);
    ExpectedLinks(s.top, x, m, m.dest in Pre(s.nodes[a].ap.tree));
  }

  /** A destination that is not in the network is looked for up to the root. */
  lemma StrangerLeavesAtTheRoot(s: Net, x: Id, m: Msg, k: nat)
    requires Reachable(s) && Quiet(s) && x in s.nodes && IsRelay(m) && m.dest !in s.nodes
    requires k >= 2 * DepthOf(s.top, x) + 4
    ensures TopologyOk(s.top) && x in s.top.depth
    ensures var sent := AfterSta(s, x, StaSend(s.nodes[x].sta, m));
            Follow(sent, FirstPlace(s, x, m), m, Waits(k)) ==
            if x == s.top.root then [] else Climb(s.top, x, s.top.root) + [ToSta(s.top.root)]
  {
    ReachableInv(s);
    SentRoute(s, x, m, k);
    if x != s.top.root { StrangerRoute(s.top, x, m, k); }
  }

  lemma StrangerRoute(top: Topology, x: Id, m: Msg, k: nat)
    requires TopologyOk(top) && x in top.depth && x in top.parent && IsRelay(m) && m.dest !in top.depth
    requires k >= 2 * top.depth[x] + 4
    ensures QuietRoute(top, Up(x), m, k) == Climb(top, x, top.root) + [ToSta(top.root)]
  {
    WayIsRoute(top, x, m, k);
    WaySplits(top, x, m);
    StopsNowhere(top, x, m.dest);
  }

  lemma {:induction false} StopsNowhere(top: Topology, x: Id, d: Id)
    requires TopologyOk(top) && x in top.depth && d !in top.depth
    ensures Stop(top, x, d).None?
    decreases top.depth[x]
  {
    if x in top.parent {
      assert Placed(top, x);
      StopsNowhere(top, top.parent[x], d);
    }
  }

  /** To itself a node does not send in place: the message goes up to the parent and
      comes back, and at the root it is dropped. */
  lemma SentToSelf(s: Net, x: Id, m: Msg, k: nat)
    requires Reachable(s) && Quiet(s) && x in s.nodes && IsRelay(m) && m.dest == x
    requires k >= 2 * DepthOf(s.top, x) + 4
    ensures var sent := AfterSta(s, x, StaSend(s.nodes[x].sta, m));
            Follow(sent, FirstPlace(s, x, m), m, Waits(k)) == if x == s.top.root then [] else [Up(x), Down(x)]
  {
    ReachableInv(s);
    SentRoute(s, x, m, k);
    if x != s.top.root { SelfRoute(s.top, x, m, k); }
  }

  lemma SelfRoute(top: Topology, x: Id, m: Msg, k: nat)
    requires TopologyOk(top) && x in top.depth && x in top.parent && IsRelay(m) && m.dest == x
    requires k >= 2 * top.depth[x] + 4
    ensures QuietRoute(top, Up(x), m, k) == [Up(x), Down(x)]
  {
    assert Placed(top, x);
    WayIsRoute(top, x, m, k);
    assert Edge(top, top.parent[x], x);
  }
}
