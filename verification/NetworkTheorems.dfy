/** What holds in every state the network can reach. */
module NetworkTheorems {
  import opened Trees
  import opened TreeOps
  import opened Mesh
  import opened Network
  import opened NetworkInvariant
  import opened NetworkSteps

  ghost predicate Reachable(s: Net) {
    exists root, isRoot, steps :: root != NO_ID && s == Run(Start(root, isRoot), steps)
  }

  lemma ReachableInv(s: Net)
    requires Reachable(s)
    ensures Inv(s)
  {
    var root, isRoot, steps :| root != NO_ID && s == Run(Start(root, isRoot), steps);
    ReachableOk(root, isRoot, steps);
  }

  lemma {:induction false} RunAppend(s: Net, a: seq<Step>, b: seq<Step>)
    ensures Run(s, a + b) == Run(Run(s, a), b)
    decreases |a|
  {
    if a == [] {
      assert a + b == b;
    } else {
      assert (a + b)[1..] == a[1..] + b;
      RunAppend(if Enabled(s, a[0]) then Next(s, a[0]) else s, a[1..], b);
    }
  }

  lemma ReachableRun(s: Net, steps: seq<Step>)
    requires Reachable(s)
    ensures Reachable(Run(s, steps))
  {
    var root, isRoot, before :| root != NO_ID && s == Run(Start(root, isRoot), before);
    RunAppend(Start(root, isRoot), before, steps);
  }

  lemma ReachableNext(s: Net, step: Step)
    requires Reachable(s) && Enabled(s, step)
    ensures Reachable(Next(s, step))
  {
    ReachableRun(s, [step]);
    assert [step][1..] == [] && Run(Next(s, step), []) == Next(s, step);
  }

  // --------------------------------------------------------- knowledge is nested

  predicate NewsOf(m: Msg, c: Id) {
    m.Update? && m.source == c
  }

  lemma {:induction false} ChainBetween(top: Topology, c: Id, known: seq<Id>, q: seq<Msg>, last: seq<Id>,
                                       i: nat, j: nat)
    requires ChainOk(top, c, known, q, last) && i <= j < |q| && NewsOf(q[i], c) && NewsOf(q[j], c)
    ensures known <= q[i].children <= q[j].children <= last
    decreases |q|
  {
    var next := if NewsOf(q[0], c) then q[0].children else known;
    if i > 0 {
      ChainBetween(top, c, next, q[1..], last, i - 1, j - 1);
    } else if j > 0 {
      ChainBetween(top, c, next, q[1..], last, FirstNews(q[1..], c), j - 1);
    } else {
      ChainPrefix(top, c, next, q[1..], last);
    }
  }

  function FirstNews(q: seq<Msg>, c: Id): (i: nat)
    requires exists j :: 0 <= j < |q| && NewsOf(q[j], c)
    ensures i < |q| && NewsOf(q[i], c) && forall j :: 0 <= j < |q| && NewsOf(q[j], c) ==> i <= j
  {
    if NewsOf(q[0], c) then 0
    else
      assert exists j :: 0 <= j < |q[1..]| && NewsOf(q[1..][j], c) by {
        var j :| 0 <= j < |q| && NewsOf(q[j], c);
        assert q[1..][j - 1] == q[j];
      }
      var i := FirstNews(q[1..], c);
      assert forall j :: 1 <= j < |q| ==> q[j] == q[1..][j - 1];
      i + 1
  }

  /** What a parent knows of a child's children is a prefix of what the child's STA
      knows, which is a prefix of what the child's AP knows. */
  lemma KnowledgeNests(s: Net, c: Id)
    requires Reachable(s) && c in s.top.parent
    ensures c in s.nodes && s.top.parent[c] in s.nodes
    ensures KidsOf(s.nodes[s.top.parent[c]].ap.tree, c) <= KidsOf(s.nodes[c].sta.tree, c)
    ensures KidsOf(s.nodes[c].sta.tree, c) <= KidsOf(s.nodes[c].ap.tree, c)
  {
    ReachableInv(s);
    var x, p := s.nodes[c], s.top.parent[c];
    assert NodeOk(s, c) && NodeOk(s, p);
    QueueGrows(s.top, c, x.sta.tree, x.toSta, c, c);
    var t := s.nodes[p].ap.tree;
    if c in KidsOf(t, p) {
      ChainPrefix(s.top, c, KidsOf(t, c), x.up, KidsOf(x.sta.tree, c));
    } else {
      TreeHas(s.top, p, t, p, c);
    }
  }

  /** The child lists in flight lie in between, the later the longer. */
  lemma NewsLiesBetween(s: Net, c: Id, i: nat, j: nat)
    requires Reachable(s) && c in s.top.parent && c in s.nodes && s.top.parent[c] in s.nodes
    requires var up := s.nodes[c].up; i <= j < |up| && NewsOf(up[i], c) && NewsOf(up[j], c)
    ensures var up := s.nodes[c].up;
            KidsOf(s.nodes[s.top.parent[c]].ap.tree, c) <= up[i].children <= up[j].children
            <= KidsOf(s.nodes[c].sta.tree, c)
  {
    ReachableInv(s);
    var x, p := s.nodes[c], s.top.parent[c];
    assert NodeOk(s, c) && NodeOk(s, p);
    TreeHas(s.top, p, s.nodes[p].ap.tree, p, c);
    LinkNews(s.top, c, s.nodes[p].ap.tree, x, i, j);
  }

  lemma LinkNews(top: Topology, c: Id, above: Tree<Id>, x: Station, i: nat, j: nat)
    requires LinkOk(top, c, above, x) && (c in Pre(above) ==> c in KidsOf(above, above.root))
    requires i <= j < |x.up| && NewsOf(x.up[i], c) && NewsOf(x.up[j], c)
    ensures KidsOf(above, c) <= x.up[i].children <= x.up[j].children <= KidsOf(x.sta.tree, c)
  {
    if c in KidsOf(above, above.root) {
      ChainBetween(top, c, KidsOf(above, c), x.up, KidsOf(x.sta.tree, c), i, j);
    } else {
      assert KidsOf(above, c) == [];
      LaterNews(top, c, x.up, KidsOf(x.sta.tree, c), i, j);
    }
  }

  lemma LaterNews(top: Topology, c: Id, q: seq<Msg>, last: seq<Id>, i: nat, j: nat)
    requires q != [] && q[0].Init? && ChainOk(top, c, [], q[1..], last)
    requires i <= j < |q| && NewsOf(q[i], c) && NewsOf(q[j], c)
    ensures q[i].children <= q[j].children <= last
  {
    NewsAfterInit(q, c, i);
    NewsAfterInit(q, c, j);
    ChainBetween(top, c, [], q[1..], last, i - 1, j - 1);
  }

  lemma NewsAfterInit(q: seq<Msg>, c: Id, i: nat)
    requires i < |q| && q[0].Init? && NewsOf(q[i], c)
    ensures i > 0 && q[1..][i - 1] == q[i]
  {
  }

  // ------------------------------------------------------------------ replication

  lemma {:induction false} QueueAt(top: Topology, n: Id, t: Tree<Id>, q: seq<Serial>, i: nat)
    requires QueueOk(top, n, t, q) && i < |q|
    ensures match q[i]
            case NodeAdd(a, b) => Edge(top, a, b) && b !in Pre(After(t, q[..i]))
            case Tunnel(m) => ToStaOk(n, After(t, q[..i]), m)
            case _ => false
    decreases |q|
  {
    if i > 0 {
      assert q[..i][1..] == q[1..][..i - 1];
      QueueAt(top, n, if q[0].NodeAdd? then AddAnyChild(t, q[0].parent, q[0].child).0 else t, q[1..], i - 1);
    }
  }

  /** The STA's tree is the AP's, less the node-adds still on the UART. With the first `i`
      messages put in, it has not yet the child of the next if that is a node-add, and no
      path to its destination if that is a message. */
  lemma StaFollowsAp(s: Net, n: Id, i: nat)
    requires Reachable(s) && n in s.nodes
    ensures var x := s.nodes[n];
            && After(x.sta.tree, x.toSta) == x.ap.tree
            && (i < |x.toSta| ==>
                  match x.toSta[i]
                  case NodeAdd(a, b) => Edge(s.top, a, b) && b !in Pre(After(x.sta.tree, x.toSta[..i]))
                  case Tunnel(m) => ToStaOk(n, After(x.sta.tree, x.toSta[..i]), m)
                  case _ => false)
  {
    ReachableInv(s);
    assert NodeOk(s, n);
    if i < |s.nodes[n].toSta| {
      QueueAt(s.top, n, s.nodes[n].sta.tree, s.nodes[n].toSta, i);
    }
  }

  /** A STA's tree changes in one way only: by a node-add from its own AP. */
  lemma OnlyNodeAddsReachTheSta(s: Net, step: Step, n: Id)
    requires Reachable(s) && Enabled(s, step) && n in s.nodes
    ensures n in Next(s, step).nodes
    ensures Next(s, step).nodes[n].sta.tree != s.nodes[n].sta.tree ==>
              && step == SerialUp(n) && s.nodes[n].toSta[0].NodeAdd?
              && Next(s, step).nodes[n].sta.tree ==
                 AddAnyChild(s.nodes[n].sta.tree, s.nodes[n].toSta[0].parent, s.nodes[n].toSta[0].child).0
  {
    if step == DeliverDown(n) || step == SerialUp(n) {
      OwnStepsOnTree(s, step, n);
    } else if step.DeliverDown? || step.SerialUp? || step.StaSends? || step.StaSendsUp? {
      StaStepsKeepTree(s, step, n);
    } else {
      ApStepsKeepSta(s, step, n);
    }
  }

  /** The STA halves have no part in what an AP does. */
  lemma ApStepsKeepSta(s: Net, step: Step, n: Id)
    requires Enabled(s, step) && n in s.nodes
    requires step.Join? || step.DeliverUp? || step.SerialDown? || step.ApSends?
    ensures n in Next(s, step).nodes && Next(s, step).nodes[n].sta == s.nodes[n].sta
  {
  }

  lemma OwnStepsOnTree(s: Net, step: Step, n: Id)
    requires Reachable(s) && Enabled(s, step) && n in s.nodes
    requires step == DeliverDown(n) || step == SerialUp(n)
    ensures n in Next(s, step).nodes
    ensures var x := s.nodes[n];
            Next(s, step).nodes[n].sta.tree ==
            if step == SerialUp(n) && x.toSta[0].NodeAdd? then
              AddAnyChild(x.sta.tree, x.toSta[0].parent, x.toSta[0].child).0
            else x.sta.tree
  {
    ReachableInv(s);
    assert NodeOk(s, n);
    if step == DeliverDown(n) {
      NoInitNoUpdateComes(s, n, 0);
      DownKeepsTree(s, n);
    }
  }

  lemma DownKeepsTree(s: Net, n: Id)
    requires Enabled(s, DeliverDown(n)) && IsRelay(s.nodes[n].down[0])
    ensures n in Next(s, DeliverDown(n)).nodes
    ensures Next(s, DeliverDown(n)).nodes[n].sta.tree == s.nodes[n].sta.tree
  {
  }

  lemma StaStepsKeepTree(s: Net, step: Step, n: Id)
    requires Enabled(s, step) && n in s.nodes
    requires step.StaSends? || step.StaSendsUp? || ((step.DeliverDown? || step.SerialUp?) && step.node != n)
    ensures n in Next(s, step).nodes && Next(s, step).nodes[n].sta == s.nodes[n].sta
  {
  }

  /** No init and no update ever comes to a STA from above, and none out of the UART: what
      it handles is data, ACKs and node-adds. */
  lemma NoInitNoUpdateComes(s: Net, n: Id, i: nat)
    requires Reachable(s) && n in s.nodes
    ensures i < |s.nodes[n].down| ==> IsRelay(s.nodes[n].down[i])
    ensures i < |s.nodes[n].toSta| ==>
              s.nodes[n].toSta[i].NodeAdd? || (s.nodes[n].toSta[i].Tunnel? && IsRelay(s.nodes[n].toSta[i].msg))
  {
    ReachableInv(s);
    assert NodeOk(s, n);
    var x := s.nodes[n];
    if i < |x.down| {
      assert n in s.top.parent;
      assert DownOk(n, KidsOf(x.sta.tree, n), x.down[i]);
    }
    if i < |x.toSta| { QueueAt(s.top, n, x.sta.tree, x.toSta, i); }
  }

  // -------------------------------------------------------------------- delivery

  /** The application of a node gets a data message exactly when the message arrives for
      it from above, and the sender is sent an ACK then. Nothing that arrives from below
      or over the UART is ever put in its ring buffer. */
  lemma DeliveredFromAboveOnly(s: Net, step: Step, n: Id)
    requires Reachable(s) && Enabled(s, step) && n in s.nodes
    ensures n in Next(s, step).nodes
    ensures var x, y := s.nodes[n], Next(s, step).nodes[n];
            if step == DeliverDown(n) && x.down[0].Data? && x.down[0].dest == n then
              && y.sta.delivered == x.sta.delivered + [x.down[0]]
              && y.up == x.up + [Ack(n, x.down[0].source, Length(x.down[0]))]
            else y.sta.delivered == x.sta.delivered
  {
    ReachableInv(s);
    assert NodeOk(s, n);
    if step == DeliverDown(n) {
      NoInitNoUpdateComes(s, n, 0);
      OwnDelivery(s, n);
    } else if step == SerialUp(n) {
      UartDeliversNothing(s, n);
    } else if step.DeliverDown? || step.SerialUp? || step.StaSends? || step.StaSendsUp? {
      StaStepsKeepTree(s, step, n);
    } else {
      ApStepsKeepSta(s, step, n);
    }
  }

  lemma OwnDelivery(s: Net, n: Id)
    requires Enabled(s, DeliverDown(n)) && n != s.top.root && s.nodes[n].sta.id == n && IsRelay(s.nodes[n].down[0])
    ensures n in Next(s, DeliverDown(n)).nodes
    ensures var x, y := s.nodes[n], Next(s, DeliverDown(n)).nodes[n];
            if x.down[0].Data? && x.down[0].dest == n then
              && y.sta.delivered == x.sta.delivered + [x.down[0]]
              && y.up == x.up + [Ack(n, x.down[0].source, Length(x.down[0]))]
            else y.sta.delivered == x.sta.delivered
  {
  }

  lemma UartDeliversNothing(s: Net, n: Id)
    requires Enabled(s, SerialUp(n)) && StationOk(s.top, n, s.nodes[n])
    ensures n in Next(s, SerialUp(n)).nodes
    ensures Next(s, SerialUp(n)).nodes[n].sta.delivered == s.nodes[n].sta.delivered
  {
  }

  // --------------------------------------------------------- soundness, convergence

  /** No tree holds an id twice, and every edge in a tree, in a node-add or in an
      update is a true parent-child edge. */
  lemma EdgesAreTrue(s: Net, n: Id, a: Id, b: Id, i: nat)
    requires Reachable(s) && n in s.nodes
    ensures var x := s.nodes[n];
            && Unique(x.ap.tree) && Unique(x.sta.tree)
            && (b in KidsOf(x.ap.tree, a) || b in KidsOf(x.sta.tree, a) ==> Edge(s.top, a, b))
            && (i < |x.toSta| && x.toSta[i] == NodeAdd(a, b) ==> Edge(s.top, a, b))
            && (i < |x.up| && x.up[i].Update? ==> TrueKids(s.top, x.up[i].source, x.up[i].children))
  {
    ReachableInv(s);
    assert NodeOk(s, n);
    var x := s.nodes[n];
    if i < |x.toSta| { QueueAt(s.top, n, x.sta.tree, x.toSta, i); }
    if i < |x.up| && x.up[i].Update? {
      var t, last := s.nodes[s.top.parent[n]].ap.tree, KidsOf(x.sta.tree, n);
      if n in KidsOf(t, t.root) {
        ChainTrue(s.top, n, KidsOf(t, n), x.up, last, i);
      } else {
        ChainTrue(s.top, n, [], x.up[1..], last, i - 1);
      }
    }
  }

  lemma {:induction false} ChainTrue(top: Topology, c: Id, known: seq<Id>, q: seq<Msg>, last: seq<Id>, i: nat)
    requires ChainOk(top, c, known, q, last) && i < |q| && q[i].Update?
    ensures TrueKids(top, q[i].source, q[i].children)
    decreases |q|
  {
    if i > 0 {
      ChainTrue(top, c, if NewsOf(q[0], c) then q[0].children else known, q[1..], last, i - 1);
    }
  }

  predicate Idle(x: Station) {
    x.toSta == [] && x.toAp == [] && x.up == [] && x.down == []
  }

  ghost predicate Quiet(s: Net) {
    forall n :: n in s.nodes ==> Idle(s.nodes[n])
  }

  /** Once all queues are empty every tree is the true subtree cut at depth two: the
      halves agree, the children are the true children, and under each child stands
      the list the child itself has. */
  lemma QuietTrees(s: Net, n: Id)
    requires Inv(s) && Quiet(s) && n in s.nodes
    ensures s.nodes[n].sta.tree == s.nodes[n].ap.tree
    ensures forall x :: x in KidsOf(s.nodes[n].ap.tree, n) <==> Edge(s.top, n, x)
    ensures forall c :: Edge(s.top, n, c) ==>
              c in s.nodes && KidsOf(s.nodes[n].ap.tree, c) == KidsOf(s.nodes[c].ap.tree, c)
  {
    assert NodeOk(s, n);
    var t := s.nodes[n].ap.tree;
    forall x | Edge(s.top, n, x)
      ensures x in KidsOf(t, n) && x in s.nodes && KidsOf(t, x) == KidsOf(s.nodes[x].ap.tree, x)
    {
      assert NodeOk(s, x);
    }
  }

  /** What a node knows is the true subtree cut at depth two: both trees hold just the
      node, its children and its grandchildren; the lists of the node and its children are
      complete, all others are empty. */
  ghost predicate Knows(s: Net, n: Id, d: Id)
    requires n in s.nodes
  {
    var t := s.nodes[n].ap.tree;
    && s.nodes[n].sta.tree == t
    && (d in Pre(t) <==> d == n || Near(s.top, n, d))
    && if d == n || Edge(s.top, n, d) then forall x :: x in KidsOf(t, d) <==> Edge(s.top, d, x) else KidsOf(t, d) == []
  }

  lemma Converged(s: Net, n: Id, d: Id)
    requires Reachable(s) && Quiet(s) && n in s.nodes
    ensures Knows(s, n, d)
  {
    ReachableInv(s);
    QuietKnowsAll(s, n, d);
  }

  lemma QuietKnowsAll(s: Net, n: Id, d: Id)
    requires Inv(s) && Quiet(s) && n in s.nodes
    ensures Knows(s, n, d)
  {
    QuietKnows(s, n, d);
    QuietTrees(s, n);
    if Edge(s.top, n, d) { QuietTrees(s, d); }
    if d != n && !Edge(s.top, n, d) {
      assert NodeOk(s, n);
      NoDeeper(s.top, n, s.nodes[n].ap.tree, d);
    }
  }

  lemma NoDeeper(top: Topology, n: Id, t: Tree<Id>, d: Id)
    requires TreeOk(top, n, t) && d != n && !Edge(top, n, d)
    ensures KidsOf(t, d) == []
  {
    if KidsOf(t, d) != [] {
      var x := KidsOf(t, d)[0];
      UniqueParts(t);
      KidsNoDup(t, d);
      DepthTwoMember(t, x);
      assert false;
    }
  }

  /** Child or grandchild. */
  predicate Near(top: Topology, n: Id, d: Id) {
    Edge(top, n, d) || (d in top.parent && Edge(top, n, top.parent[d]))
  }

  lemma QuietKnows(s: Net, n: Id, d: Id)
    requires Inv(s) && Quiet(s) && n in s.nodes
    ensures d in Pre(s.nodes[n].ap.tree) <==> d == n || Near(s.top, n, d)
    ensures d != n ==> (Path(s.nodes[n].ap.tree, d).Some? <==> Near(s.top, n, d))
    ensures Near(s.top, n, d) ==>
              Path(s.nodes[n].ap.tree, d) == Some(if Edge(s.top, n, d) then d else s.top.parent[d])
  {
    assert NodeOk(s, n);
    var t := s.nodes[n].ap.tree;
    QuietTrees(s, n);
    DepthTwoPath(t, d);
    if d in Pre(t) { DepthTwoMember(t, d); }
    if d in s.top.parent && Edge(s.top, n, s.top.parent[d]) {
      QuietTrees(s, s.top.parent[d]);
    }
    PathFindsMember(t, d);
    if Near(s.top, n, d) { assert Placed(s.top, d) && (!Edge(s.top, n, d) ==> Placed(s.top, s.top.parent[d])); }
  }

  lemma PathFindsMember(t: Tree<Id>, d: Id)
    ensures d != t.root ==> (d in Pre(t) <==> Path(t, d).Some?)
  {
  }

  // ------------------------------------------------------------- next-hop table

  /** The connections of an AP are those of the direct children in its tree, so a
      message with a path always has a connection; and the endless loop of the update
      handler is never entered. */
  lemma NextHopTable(s: Net, n: Id, x: Id, m: Msg)
    requires Reachable(s) && n in s.nodes
    ensures var ap := s.nodes[n].ap;
            && (x in ap.clients <==> x in KidsOf(ap.tree, n))
            && (x in ap.clients ==> ap.clients[x] == Conn(x))
            && (Target(m).Some? ==> (ApSend(ap, m).Some? <==> Path(ap.tree, Target(m).value).Some?))
    ensures n in s.top.parent && s.nodes[n].up != [] ==>
              && Enabled(s, DeliverUp(n))
              && !ApIncoming(s.nodes[s.top.parent[n]].ap, Conn(n), s.nodes[n].up[0], Length(s.nodes[n].up[0])).stuck
  {
    ReachableInv(s);
    assert NodeOk(s, n);
    if Target(m).Some? { DepthTwoPath(s.nodes[n].ap.tree, Target(m).value); }
    if n in s.top.parent && s.nodes[n].up != [] { DeliverUpOk(s, n); }
  }
}
