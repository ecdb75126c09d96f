/** What becomes of a data message: which application gets it, and who acknowledges it. */
module Delivery {
  import opened Bytes
  import opened Trees
  import opened Mesh
  import opened Network
  import opened NetworkInvariant
  import opened NetworkSteps
  import opened NetworkTheorems
  import opened Routing
  import opened TurningPoint
  import opened Drain

  // -------------------------------------------------------------- the end of a way

  /** The steps that a message makes along its places. */
  function OwnSteps(r: seq<Place>): seq<Step> {
    if r == [] || r[0].Gone? then [] else [StepAt(r[0])] + OwnSteps(r[1..])
  }

  /** The state after the STA of `x` has sent `m` with `send_msg` to a network at rest and
      the message has made its own steps, at most `k` and one of them. */
  function AfterJourney(s: Net, x: Id, m: Msg, k: nat): Net
    requires x in s.nodes
  {
    var sent := AfterSta(s, x, StaSend(s.nodes[x].sta, m));
    Run(sent, OwnSteps(Follow(sent, FirstPlace(s, x, m), m, Waits(k))))
  }

  function Last(r: seq<Place>): Place
    requires r != []
  {
    r[|r| - 1]
  }

  /** The way `r` of the message in `c` is done with one last step, from its last place. */
  ghost predicate Ends(s: Net, c: Net, r: seq<Place>, m: Msg) {
    && r != [] && Carried(s, Last(r), m) && Moves(s, Last(r), m)
    && Run(c, OwnSteps(r)) == Next(Carrying(s, Last(r), m), StepAt(Last(r)))
  }

  lemma {:induction false} JourneyEnds(s: Net, at: Place, m: Msg, k: nat, c: Net, r: seq<Place>)
    requires Carried(s, at, m) && c == Carrying(s, at, m) && r == QuietRoute(s.top, at, m, k)
    ensures Ends(s, c, r, m)
    decreases k
  {
    var h := QuietHop(s.top, at, m);
    RouteUnfolds(s.top, at, m, k);
    if k > 0 && !h.Gone? {
      var c1, r1 := Carrying(s, h, m), QuietRoute(s.top, h, m, k - 1);
      CarriedOn(s, at, m);
      JourneyEnds(s, h, m, k - 1, c1, r1);
      OneMore(s, at, c, c1, r1, m);
    } else {
      OneOnly(s, at, c, m);
    }
  }

  lemma OneMore(s: Net, at: Place, c: Net, c1: Net, r: seq<Place>, m: Msg)
    requires Carried(s, at, m) && !QuietHop(s.top, at, m).Gone?
    requires c == Carrying(s, at, m) && c1 == Carrying(s, QuietHop(s.top, at, m), m)
    requires Ends(s, c1, r, m)
    ensures Ends(s, c, [at] + r, m)
  {
    Moved(s, at, m);
    OwnStepsOf(at, r);
    RunOne(c, StepAt(at), OwnSteps(r));
  }

  lemma OneOnly(s: Net, at: Place, c: Net, m: Msg)
    requires Carried(s, at, m) && c == Carrying(s, at, m)
    ensures Ends(s, c, [at], m)
  {
    Moved(s, at, m);
    OwnStepsOf(at, []);
    assert [at] + [] == [at] && [StepAt(at)] + [] == [StepAt(at)];
    RunOne(c, StepAt(at), []);
  }

  lemma OwnStepsOf(at: Place, r: seq<Place>)
    requires !at.Gone?
    ensures OwnSteps([at] + r) == [StepAt(at)] + OwnSteps(r) && Last([at] + r) == if r == [] then at else Last(r)
  {
    assert ([at] + r)[1..] == r;
  }

  lemma RunOne(s: Net, step: Step, more: seq<Step>)
    requires Enabled(s, step)
    ensures Run(s, [step] + more) == Run(Next(s, step), more)
  {
    assert ([step] + more)[1..] == more;
  }

  // ---------------------------------------------------------- the three last places

  /** For its node from above: into the ring buffer, and the STA sends an ACK up. */
  lemma EndsAtSta(s: Net, d: Id, m: Msg)
    requires Carried(s, Down(d), m) && Moves(s, Down(d), m) && m.Data? && m.dest == d
    ensures Next(Carrying(s, Down(d), m), DeliverDown(d)) == With(s, d, Delivered(s.nodes[d], d, m))
  {
    var c := Carrying(s, Down(d), m);
    assert Idle(s.nodes[d]);
    HopDown(c, d, m);
    var x, ack := c.nodes[d], Ack(d, m.source, Length(m));
    assert x.down[1..] == [] && x.up + [ack] == [ack];
    WithTwice(s, d, x, Delivered(s.nodes[d], d, m));
  }

  /** A node at rest that has been given `m` by its parent. */
  function Delivered(x: Station, d: Id, m: Msg): Station
    requires m.Data?
  {
    x.(sta := x.sta.(delivered := x.sta.delivered + [m]), up := [Ack(d, m.source, Length(m))])
  }

  /** For its node from below: the AP answers, if its tree has a path to the sender, and
      that is all. */
  lemma EndsAtAp(s: Net, c: Id, m: Msg)
    requires Carried(s, Up(c), m) && Moves(s, Up(c), m) && m.Data? && m.dest == ParentOf(s.top, c)
    ensures m.dest in s.nodes
    ensures Next(Carrying(s, Up(c), m), DeliverUp(c)) ==
            Post(s, ApSend(s.nodes[m.dest].ap, Ack(m.dest, m.source, Length(m))))
  {
    var n := Carrying(s, Up(c), m);
    assert Idle(s.nodes[c]);
    var p, k := HopUp(n, c, m);
    var x := n.nodes[c];
    assert x.(up := x.up[1..]) == s.nodes[c];
    WithTwice(s, c, x, s.nodes[c]);
    WithSame(s, c);
  }

  /** For nobody: the root's STA has nowhere to send it. */
  lemma EndsAtRoot(s: Net, m: Msg)
    requires Carried(s, ToSta(s.top.root), m) && Moves(s, ToSta(s.top.root), m) && m.Data? && m.dest != s.top.root
    ensures Next(Carrying(s, ToSta(s.top.root), m), SerialUp(s.top.root)) == s
  {
    var n := s.top.root;
    var c := Carrying(s, ToSta(n), m);
    assert Idle(s.nodes[n]);
    HopToSta(c, n, m);
    var x := c.nodes[n];
    assert x.(toSta := x.toSta[1..]) == s.nodes[n];
    WithTwice(s, n, x, s.nodes[n]);
    WithSame(s, n);
  }

  // ------------------------------------------------------------- where a way ends

  /** The last place of a data message from `x` at rest, if it has any. */
  ghost predicate EndsAt(top: Topology, x: Id, d: Id, last: Place)
    requires TopologyOk(top) && x in top.depth
  {
    if d == x then last == Down(x)
    else if d !in top.depth then last == ToSta(top.root)
    else
      var a := Lca(top, x, d);
      if a == d then last.Up? && last.node in top.depth && ParentOf(top, last.node) == d
      else if Near(top, a, d) then last == Down(d)
      else last == ToSta(top.root)
  }

  lemma {:induction false} ClimbEnds(top: Topology, x: Id, b: Id)
    requires TopologyOk(top) && x in top.depth && OnTheWayUp(top, b, x) && b != x
    ensures var r := Climb(top, x, b);
            r != [] && Last(r).Up? && Last(r).node in top.depth && ParentOf(top, Last(r).node) == b
    decreases top.depth[x]
  {
    assert Placed(top, x);
    var p := top.parent[x];
    if p != b {
      ClimbEnds(top, p, b);
      LastOf([Up(x), ToSta(p)], Climb(top, p, b));
    }
  }

  lemma LastOf(a: seq<Place>, b: seq<Place>)
    requires b != []
    ensures a + b != [] && Last(a + b) == Last(b)
  {
  }

  lemma ExpectedEnds(top: Topology, x: Id, m: Msg, known: bool)
    requires TopologyOk(top) && x in top.depth && m.Data? && m.dest in top.depth && m.dest != x
    requires var a := Lca(top, x, m.dest); known <==> m.dest == a || Near(top, a, m.dest)
    ensures var r := ExpectedRoute(top, x, m, known);
            if r == [] then x == top.root && !known else EndsAt(top, x, m.dest, Last(r))
  {
    var a, d := Lca(top, x, m.dest), m.dest;
    LcaIsLowest(top, x, d, x);
    if known && a == d {
      ClimbEnds(top, x, a);
      assert Climb(top, x, a) + [] == Climb(top, x, a);
    } else if known && x == a {
      LastOf([ToAp(x)], Descend(top, x, d));
    } else if known {
      LastOf(Climb(top, x, a), Descend(top, a, d));
    } else if x != top.root {
      LastOf(Climb(top, x, top.root), [ToSta(top.root)]);
    }
  }

  lemma WayEnds(top: Topology, x: Id, m: Msg, k: nat)
    requires TopologyOk(top) && x in top.depth && m.Data? && k >= 2 * top.depth[x] + 4
    ensures var first := FirstQuiet(top, x, m.dest);
            var r := QuietRoute(top, first, m, k);
            if r == [] then first.Gone? else !first.Gone? && EndsAt(top, x, m.dest, Last(r))
  {
    var d := m.dest;
    if d == x {
      if x != top.root { SelfRoute(top, x, m, k); }
    } else if d !in top.depth {
      assert !Near(top, x, d);
      if x != top.root {
        StrangerRoute(top, x, m, k);
        LastOf(Climb(top, x, top.root), [ToSta(top.root)]);
      }
    } else {
      var a := Lca(top, x, d);
      var known := d == a || Near(top, a, d);
      RouteIsExpected(top, x, m, known, k);
      ExpectedEnds(top, x, m, known);
    }
  }

  // ------------------------------------------------------------------ the theorem

  /** The destination is reached from above: it is another node, below the lowest common
      ancestor, and that ancestor's tree holds it; or it is the sender, which is not the
      root. */
  ghost predicate ComesFromAbove(s: Net, x: Id, d: Id)
    requires TopologyOk(s.top) && s.nodes.Keys == s.top.depth.Keys && x in s.nodes
  {
    if d == x then x != s.top.root
    else d in s.nodes && var a := Lca(s.top, x, d); a != d && d in Pre(s.nodes[a].ap.tree)
  }

  /** The destination is reached from below: it is an ancestor of the sender. */
  ghost predicate ComesFromBelow(s: Net, x: Id, d: Id)
    requires TopologyOk(s.top) && s.nodes.Keys == s.top.depth.Keys && x in s.nodes
  {
    d != x && d in s.nodes && Lca(s.top, x, d) == d
  }

  /** A node at rest to whose STA `m` is on its way. */
  function Addressed(x: Station, m: Msg): Station {
    x.(down := [m])
  }

  /** What becomes of data `m` from `x`, when its own steps have ended in `e`. Coming from
      above it is in the ring buffer of its destination, whose STA has an ACK on its way
      up. Coming from below it is in no ring buffer; the AP of the destination has an ACK
      on its way down if the sender is a child or grandchild, and otherwise nothing is left
      of it. In all other cases too the network is as it was. */
  ghost predicate Outcome(s: Net, x: Id, m: Msg, e: Net)
    requires TopologyOk(s.top) && s.nodes.Keys == s.top.depth.Keys && x in s.nodes && m.Data?
  {
    var d, ack := m.dest, Ack(m.dest, x, Length(m));
    if ComesFromAbove(s, x, d) then e == With(s, d, Delivered(s.nodes[d], d, m))
    else if ComesFromBelow(s, x, d) && Near(s.top, d, x) then
      var c := FirstHop(s.top, d, x);
      c in s.nodes && Edge(s.top, d, c) && e == With(s, c, Addressed(s.nodes[c], ack))
    else e == s
  }

  /** So it is for all data that a STA sends with `send_msg` in a network at rest. */
  lemma WhatBecomesOfData(s: Net, x: Id, m: Msg, k: nat)
    requires Reachable(s) && Quiet(s) && x in s.nodes && m.Data? && m.source == x
    requires k >= 2 * DepthOf(s.top, x) + 4
    ensures TopologyOk(s.top) && s.nodes.Keys == s.top.depth.Keys
    ensures Outcome(s, x, m, AfterJourney(s, x, m, k))
  {
    ReachableInv(s);
    var first := FirstPlace(s, x, m);
    SentAlone(s, x, m);
    if first.Gone? {
      NeverLeaves(s, x, m, k);
    } else {
      var c, r := Carrying(s, first, m), QuietRoute(s.top, first, m, k);
      RouteIsQuiet(s, first, m, k);
      JourneyEnds(s, first, m, k, c, r);
      WayEnds(s.top, x, m, k);
      EndOfData(s, x, m, Last(r), Next(Carrying(s, Last(r), m), StepAt(Last(r))));
    }
  }

  lemma NeverLeaves(s: Net, x: Id, m: Msg, k: nat)
    requires Inv(s) && Quiet(s) && x in s.nodes && m.Data? && FirstPlace(s, x, m).Gone?
    ensures Outcome(s, x, m, AfterJourney(s, x, m, k))
  {
    SentAlone(s, x, m);
    assert OwnSteps([]) == [];
    var d := m.dest;
    if d != x && d in s.nodes {
      GoneAtRoot(s.top, x, d);
      QuietKnows(s, Lca(s.top, x, d), d);
    }
  }

  /** What the root does not know goes nowhere. */
  lemma GoneAtRoot(top: Topology, x: Id, d: Id)
    requires TopologyOk(top) && x in top.depth && FirstQuiet(top, x, d).Gone? && d != x && d in top.depth
    ensures var a := Lca(top, x, d); a != d && !Near(top, a, d)
  {
    LcaIsLowest(top, x, d, x);
    RootOnTop(top, d);
    UpIsHigher(top, Lca(top, x, d), x);
  }

  lemma RootMeets(top: Topology, x: Id)
    requires TopologyOk(top) && x in top.depth
    ensures Lca(top, x, top.root) == top.root
  {
    LcaIsLowest(top, x, top.root, x);
  }

  lemma EndOfData(s: Net, x: Id, m: Msg, last: Place, e: Net)
    requires Inv(s) && Quiet(s) && x in s.nodes && m.Data? && m.source == x
    requires Carried(s, last, m) && Moves(s, last, m) && EndsAt(s.top, x, m.dest, last)
    requires !FirstQuiet(s.top, x, m.dest).Gone? && e == Next(Carrying(s, last, m), StepAt(last))
    ensures Outcome(s, x, m, e)
  {
    if m.dest in s.nodes { QuietKnows(s, Lca(s.top, x, m.dest), m.dest); }
    match last
    case Down(d) => EndsAtSta(s, d, m);
    case Up(c) =>
      EndsAtAp(s, c, m);
      AckAtRest(s, m.dest, Ack(m.dest, x, Length(m)));
    case ToSta(n) =>
      RootMeets(s.top, x);
      EndsAtRoot(s, m);
    case _ =>
  }

  /** At rest an AP answers a child or grandchild, and nobody else. */
  lemma AckAtRest(s: Net, p: Id, ack: Msg)
    requires Inv(s) && Quiet(s) && p in s.nodes && IsRelay(ack) && ack.dest != p
    ensures var e := Post(s, ApSend(s.nodes[p].ap, ack));
            if Near(s.top, p, ack.dest) then
              var c := FirstHop(s.top, p, ack.dest);
              c in s.nodes && Edge(s.top, p, c) && e == With(s, c, Addressed(s.nodes[c], ack))
            else e == s
  {
    QuietKnows(s, p, ack.dest);
    PostGoes(s, p, ack);
    if Near(s.top, p, ack.dest) {
      var c := FirstHop(s.top, p, ack.dest);
      assert Idle(s.nodes[c]) && s.nodes[c].down + [ack] == [ack];
    }
  }

  /** Data is handed to an application exactly if it comes to its node from above: then that
      application gets it, once, and no other gets anything. */
  lemma DeliveredExactly(s: Net, x: Id, m: Msg, k: nat, n: Id)
    requires Reachable(s) && Quiet(s) && x in s.nodes && m.Data? && m.source == x && n in s.nodes
    requires k >= 2 * DepthOf(s.top, x) + 4
    ensures TopologyOk(s.top) && s.nodes.Keys == s.top.depth.Keys
    ensures var e := AfterJourney(s, x, m, k);
            n in e.nodes &&
            e.nodes[n].sta.delivered ==
            if n == m.dest && ComesFromAbove(s, x, m.dest) then s.nodes[n].sta.delivered + [m]
            else s.nodes[n].sta.delivered
  {
    WhatBecomesOfData(s, x, m, k);
  }

  // -------------------------------------------------------------------- an example

  const CHAIN: Topology := Topology(0, map[1 := 0, 2 := 1, 3 := 2], map[0 := 0, 1 := 1, 2 := 2, 3 := 3])

  /** Nodes 1, 2 and 3 join, each under the one before, and the network comes to rest. */
  lemma ChainAtRest() returns (steps: seq<Step>)
    ensures var s := Run(Start(0, true), steps); Reachable(s) && Quiet(s) && s.top == CHAIN
  {
    var s0 := Start(0, true);
    assert Run(s0, []) == s0 && Reachable(s0);
    ChainJoins();
    ReachableRun(s0, JOINS);
    var more := RestIsReached(Run(s0, JOINS));
    RunAppend(s0, JOINS, more);
    steps := JOINS + more;
    ReachableRun(s0, steps);
  }

  const JOINS: seq<Step> := [Join(1, 0, false), Join(2, 1, false), Join(3, 2, false)]

  lemma ChainJoins()
    ensures Run(Start(0, true), JOINS).top == CHAIN
  {
    var a := Join(1, 0, false);
    var b := Join(2, 1, false);
    var c := Join(3, 2, false);
    var s0 := Start(0, true);
    assert Kids(s0.top, 0) == {};
    var s1 := Next(s0, a);
    assert Kids(s1.top, 1) == {};
    var s2 := Next(s1, b);
    assert Kids(s2.top, 2) == {};
    var s3 := Next(s2, c);
    assert [a, b, c][1..] == [b, c] && [b, c][1..] == [c] && [c][1..] == [];
    assert Run(s0, JOINS) == Run(s1, [b, c]) == Run(s2, [c]) == Run(s3, []) == s3;
  }

  /** What node 3 sends to the root is lost there: no application gets it and no ACK is
      sent. What node 1 sends to the root is acknowledged, but no application gets it
      either. */
  lemma LostAtTheRoot(payload: seq<Byte>) returns (steps: seq<Step>)
    ensures var s := Run(Start(0, true), steps);
            && Quiet(s) && 1 in s.nodes && 3 in s.nodes
            && AfterJourney(s, 3, Data(3, 0, payload), 10) == s
            && AfterJourney(s, 1, Data(1, 0, payload), 10) ==
               With(s, 1, Addressed(s.nodes[1], Ack(0, 1, Length(Data(1, 0, payload)))))
  {
    steps := ChainAtRest();
    var s := Run(Start(0, true), steps);
    ReachableInv(s);
    RootMeets(s.top, 3);
    RootMeets(s.top, 1);
    WhatBecomesOfData(s, 3, Data(3, 0, payload), 10);
    WhatBecomesOfData(s, 1, Data(1, 0, payload), 10);
  }
}
