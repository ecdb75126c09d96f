/** Left alone the network comes to rest: every schedule of deliveries ends, and where it
    ends the trees are right.
  */
module Drain {
  import opened Trees
  import opened TreeOps
  import opened Mesh
  import opened Network
  import opened NetworkInvariant
  import opened NetworkSteps
  import opened NetworkTheorems
  import opened Routing

  // --------------------------------------------------------------------- weights

  /** What a message at a place can still set off. `cap` is above every rank, and an ACK
      can come of anything but an ACK. */
  function Weight(top: Topology, cap: nat, at: Place, m: Msg): nat {
    match m
    case Ack(_, dest, _) => Rank(top, at, dest)
    case Data(_, dest, _) => Rank(top, at, dest) + cap
    case _ => cap + 1
  }

  function Load(top: Topology, cap: nat, at: Place, q: seq<Msg>): nat {
    if q == [] then 0 else Weight(top, cap, at, q[0]) + Load(top, cap, at, q[1..])
  }

  /** A node-add weighs nothing: the STA's tree lacks the node it adds. */
  function SerialLoad(top: Topology, cap: nat, at: Place, q: seq<Serial>): nat {
    if q == [] then 0
    else (if q[0].Tunnel? then Weight(top, cap, at, q[0].msg) else 0) + SerialLoad(top, cap, at, q[1..])
  }

  function Missing(top: Topology, t: Tree<Id>): nat {
    if |Pre(t)| <= |top.depth| then |top.depth| - |Pre(t)| else 0
  }

  function Debt(top: Topology, cap: nat, t: Tree<Id>): nat {
    (cap + 2) * Missing(top, t)
  }

  function StationLoad(top: Topology, cap: nat, n: Id, x: Station): nat {
    Debt(top, cap, x.sta.tree)
    + SerialLoad(top, cap, ToSta(n), x.toSta) + SerialLoad(top, cap, ToAp(n), x.toAp)
    + Load(top, cap, Up(n), x.up) + Load(top, cap, Down(n), x.down)
  }

  /** The whole network, along a listing of its nodes. */
  function NetLoad(s: Net, cap: nat, all: seq<Id>): nat
    requires forall i :: 0 <= i < |all| ==> all[i] in s.nodes
  {
    if all == [] then 0 else StationLoad(s.top, cap, all[0], s.nodes[all[0]]) + NetLoad(s, cap, all[1..])
  }

  ghost predicate Lists(s: Net, cap: nat, all: seq<Id>) {
    && NoDup(all) && (forall i :: 0 <= i < |all| ==> all[i] in s.nodes) && (forall n :: n in s.nodes ==> n in all)
    && forall n :: n in s.nodes ==> 5 + 2 * DepthOf(s.top, n) <= cap
  }

  lemma {:induction false} LoadAppend(top: Topology, cap: nat, at: Place, q: seq<Msg>, m: Msg)
    ensures Load(top, cap, at, q + [m]) == Load(top, cap, at, q) + Weight(top, cap, at, m)
  {
    if q == [] {
      assert q + [m] == [m] && [m][1..] == [];
    } else {
      assert (q + [m])[1..] == q[1..] + [m];
      LoadAppend(top, cap, at, q[1..], m);
    }
  }

  lemma {:induction false} SerialLoadAppend(top: Topology, cap: nat, at: Place, q: seq<Serial>, r: seq<Serial>)
    ensures SerialLoad(top, cap, at, q + r) == SerialLoad(top, cap, at, q) + SerialLoad(top, cap, at, r)
  {
    if q == [] {
      assert q + r == r;
    } else {
      assert (q + r)[1..] == q[1..] + r;
      SerialLoadAppend(top, cap, at, q[1..], r);
    }
  }

  /** A change at one node changes its share. */
  lemma {:induction false} LoadWith(s: Net, cap: nat, all: seq<Id>, n: Id, x: Station)
    requires NoDup(all) && (forall i :: 0 <= i < |all| ==> all[i] in s.nodes) && n in s.nodes
    ensures var s1 := With(s, n, x);
            NetLoad(s1, cap, all) == if n in all
              then NetLoad(s, cap, all) - StationLoad(s.top, cap, n, s.nodes[n]) + StationLoad(s.top, cap, n, x)
              else NetLoad(s, cap, all)
    decreases |all|
  {
    if all != [] {
      LoadWith(s, cap, all[1..], n, x);
      assert all == [all[0]] + all[1..];
      NoDupParts([all[0]], all[1..]);
    }
  }

  // --------------------------------------------------------------- what is sent

  function PacketLoad(top: Topology, cap: nat, p: Option<Packet>): nat {
    if p.None? then 0 else Weight(top, cap, Down(p.value.conn.peer), p.value.msg)
  }

  lemma PostLoad(s: Net, cap: nat, all: seq<Id>, p: Option<Packet>)
    requires Lists(s, cap, all)
    ensures Lists(Post(s, p), cap, all)
    ensures NetLoad(Post(s, p), cap, all) <= NetLoad(s, cap, all) + PacketLoad(s.top, cap, p)
  {
    if p.Some? && p.value.conn.peer in s.nodes {
      var k, m := p.value.conn.peer, p.value.msg;
      var x := s.nodes[k];
      LoadAppend(s.top, cap, Down(k), x.down, m);
      LoadWith(s, cap, all, k, x.(down := x.down + [m]));
    }
  }

  lemma AfterApLoad(s: Net, cap: nat, all: seq<Id>, n: Id, out: ApOut)
    requires Lists(s, cap, all) && n in s.nodes
    ensures NetLoad(AfterAp(s, n, out), cap, all) <=
            NetLoad(s, cap, all) + SerialLoad(s.top, cap, ToSta(n), out.serial) + PacketLoad(s.top, cap, out.tcp)
    ensures Lists(AfterAp(s, n, out), cap, all)
  {
    var x := s.nodes[n];
    var y := x.(ap := out.ap, toSta := x.toSta + out.serial);
    SerialLoadAppend(s.top, cap, ToSta(n), x.toSta, out.serial);
    LoadWith(s, cap, all, n, y);
    PostLoad(With(s, n, y), cap, all, out.tcp);
  }

  function UpLoad(top: Topology, cap: nat, n: Id, m: Option<Msg>): nat {
    if m.None? || n == top.root then 0 else Weight(top, cap, Up(n), m.value)
  }

  lemma AfterStaLoad(s: Net, cap: nat, all: seq<Id>, n: Id, out: StaOut)
    requires Lists(s, cap, all) && n in s.nodes
    ensures Lists(AfterSta(s, n, out), cap, all)
    ensures NetLoad(AfterSta(s, n, out), cap, all) + Debt(s.top, cap, s.nodes[n].sta.tree) ==
            NetLoad(s, cap, all) + Debt(s.top, cap, out.sta.tree)
            + SerialLoad(s.top, cap, ToAp(n), Opt(out.serial)) + UpLoad(s.top, cap, n, out.up)
  {
    var x := s.nodes[n];
    SerialLoadAppend(s.top, cap, ToAp(n), x.toAp, Opt(out.serial));
    if out.up.Some? { LoadAppend(s.top, cap, Up(n), x.up, out.up.value); } else { assert x.up + [] == x.up; }
    LoadWith(s, cap, all, n, AfterSta(s, n, out).nodes[n]);
  }

  // ------------------------------------------------------------- every delivery

  lemma {:induction false} LearnWeighsNothing(top: Topology, cap: nat, at: Place, t: Tree<Id>,
                                              source: Id, children: seq<Id>)
    ensures SerialLoad(top, cap, at, Learn(t, source, children).1) == 0
    decreases |children|
  {
    if children != [] {
      if children[0] in Pre(t) {
        LearnWeighsNothing(top, cap, at, t, source, children[1..]);
      } else {
        var r := Learn(AddAnyChild(t, source, children[0]).0, source, children[1..]);
        LearnWeighsNothing(top, cap, at, AddAnyChild(t, source, children[0]).0, source, children[1..]);
        assert ([NodeAdd(source, children[0])] + r.1)[1..] == r.1;
      }
    }
  }

  lemma SingleLoad(top: Topology, cap: nat, at: Place, x: Serial)
    ensures SerialLoad(top, cap, at, [x]) == if x.Tunnel? then Weight(top, cap, at, x.msg) else 0
  {
    assert [x][1..] == [];
  }

  /** What the AP sends for a message from below weighs less than the message did. */
  lemma ApIncomingLighter(top: Topology, cap: nat, ap: Ap, p: Id, c: Id, m: Msg, total: nat)
    requires ap.id == p && Conn(c) in ap.conns && 5 <= cap && DepthOf(top, c) == DepthOf(top, p) + 1
    ensures var out := ApIncoming(ap, Conn(c), m, total);
            SerialLoad(top, cap, ToSta(p), out.serial) + PacketLoad(top, cap, out.tcp) < Weight(top, cap, Up(c), m)
  {
    SingleLoad(top, cap, ToSta(p), Tunnel(m));
    if m.Init? { SingleLoad(top, cap, ToSta(p), NodeAdd(p, m.source)); }
    if m.Update? { LearnWeighsNothing(top, cap, ToSta(p), ap.tree, m.source, m.children); }
  }

  lemma DeliverUpLighter(s: Net, cap: nat, all: seq<Id>, c: Id)
    requires Inv(s) && Lists(s, cap, all) && Enabled(s, DeliverUp(c))
    ensures Lists(Next(s, DeliverUp(c)), cap, all)
    ensures NetLoad(Next(s, DeliverUp(c)), cap, all) < NetLoad(s, cap, all)
  {
    var x, p := s.nodes[c], s.top.parent[c];
    var m := x.up[0];
    var s1 := With(s, c, x.(up := x.up[1..]));
    assert NodeOk(s, p) && Placed(s.top, c);
    LoadWith(s, cap, all, c, x.(up := x.up[1..]));
    ApIncomingLighter(s.top, cap, s.nodes[p].ap, p, c, m, Length(m));
    AfterApLoad(s1, cap, all, p, ApIncoming(s.nodes[p].ap, Conn(c), m, Length(m)));
  }

  lemma DownLighter(top: Topology, cap: nat, n: Id, k: Id, m: Msg)
    requires IsRelay(m) && (Edge(top, n, m.dest) ==> k == m.dest)
    ensures Weight(top, cap, Down(k), m) < Weight(top, cap, ToAp(n), m)
  {
  }

  lemma MoveDownLoad(s: Net, cap: nat, all: seq<Id>, n: Id, k: Id, m: Msg)
    requires Lists(s, cap, all) && n in s.nodes && k in s.nodes && k != n
    requires s.nodes[n].toAp != [] && s.nodes[n].toAp[0] == Tunnel(m)
    ensures var x, y := s.nodes[n], s.nodes[k];
            var s2 := With(With(s, n, x.(toAp := x.toAp[1..])), k, y.(down := y.down + [m]));
            && Lists(s2, cap, all)
            && NetLoad(s2, cap, all) + Weight(s.top, cap, ToAp(n), m) ==
               NetLoad(s, cap, all) + Weight(s.top, cap, Down(k), m)
  {
    var x, y := s.nodes[n], s.nodes[k];
    LoadWith(s, cap, all, n, x.(toAp := x.toAp[1..]));
    LoadAppend(s.top, cap, Down(k), y.down, m);
    LoadWith(With(s, n, x.(toAp := x.toAp[1..])), cap, all, k, y.(down := y.down + [m]));
  }

  lemma SerialDownLighter(s: Net, cap: nat, all: seq<Id>, n: Id)
    requires Inv(s) && Lists(s, cap, all) && Enabled(s, SerialDown(n))
    ensures Lists(Next(s, SerialDown(n)), cap, all)
    ensures NetLoad(Next(s, SerialDown(n)), cap, all) < NetLoad(s, cap, all)
  {
    assert NodeOk(s, n);
    assert ToApOk(s.nodes[n].sta.tree, s.nodes[n].toAp[0]);
    var m := s.nodes[n].toAp[0].msg;
    var k := HopToAp(s, n, m);
    DownLighter(s.top, cap, n, k, m);
    MoveDownLoad(s, cap, all, n, k, m);
  }

  /** What the STA sends for a relayed message weighs less than the message did. */
  lemma StaIncomingLighter(s: Net, cap: nat, sta: Sta, n: Id, at: Place, m: Msg, total: nat)
    requires sta.id == n && IsRelay(m) && 5 + 2 * DepthOf(s.top, n) <= cap
    requires || at == ToSta(n)
             || (at == Down(n) && (m.dest == n || (Edge(s.top, n, m.dest) && Path(sta.tree, m.dest).Some?)))
    ensures var out := StaIncoming(sta, m, total);
            && out.sta.tree == sta.tree
            && SerialLoad(s.top, cap, ToAp(n), Opt(out.serial)) + UpLoad(s.top, cap, n, out.up) <
               Weight(s.top, cap, at, m)
  {
    SingleLoad(s.top, cap, ToAp(n), Tunnel(m));
  }

  lemma DeliverDownLighter(s: Net, cap: nat, all: seq<Id>, n: Id)
    requires Inv(s) && Lists(s, cap, all) && Enabled(s, DeliverDown(n))
    ensures Lists(Next(s, DeliverDown(n)), cap, all)
    ensures NetLoad(Next(s, DeliverDown(n)), cap, all) < NetLoad(s, cap, all)
  {
    assert NodeOk(s, n);
    var x := s.nodes[n];
    var m := x.down[0];
    assert n in s.top.parent && DownOk(n, KidsOf(x.sta.tree, n), m);
    DepthTwoPath(x.sta.tree, m.dest);
    LoadWith(s, cap, all, n, x.(down := x.down[1..]));
    StaIncomingLighter(s, cap, x.sta, n, Down(n), m, Length(m));
    AfterStaLoad(With(s, n, x.(down := x.down[1..])), cap, all, n, StaIncoming(x.sta, m, Length(m)));
  }

  lemma TunnelUpLighter(s: Net, cap: nat, all: seq<Id>, n: Id)
    requires Inv(s) && Lists(s, cap, all) && Enabled(s, SerialUp(n)) && s.nodes[n].toSta[0].Tunnel?
    ensures Lists(Next(s, SerialUp(n)), cap, all)
    ensures NetLoad(Next(s, SerialUp(n)), cap, all) < NetLoad(s, cap, all)
  {
    assert NodeOk(s, n);
    var x := s.nodes[n];
    var m := x.toSta[0].msg;
    LoadWith(s, cap, all, n, x.(toSta := x.toSta[1..]));
    StaIncomingLighter(s, cap, x.sta, n, ToSta(n), m, TunnelLength(m));
    AfterStaLoad(With(s, n, x.(toSta := x.toSta[1..])), cap, all, n, StaSerial(x.sta, x.toSta[0]));
  }

  /** The ids in a tree are nodes, so it is no larger than the network. */
  lemma TreeFits(top: Topology, n: Id, t: Tree<Id>)
    requires TopologyOk(top) && TreeOk(top, n, t) && n in top.depth
    ensures |Pre(t)| <= |top.depth|
  {
    forall d | d in Pre(t) ensures d in top.depth.Keys {
      DepthTwoMember(t, d);
    }
    NoDupBound(Pre(t), top.depth.Keys);
    assert |top.depth.Keys| == |top.depth|;
  }

  lemma NodeAddFills(top: Topology, cap: nat, n: Id, x: Station)
    requires TopologyOk(top) && n in top.depth && StationOk(top, n, x)
    requires x.toSta != [] && x.toSta[0].NodeAdd?
    ensures Debt(top, cap, x.sta.tree) == Debt(top, cap, StaSerial(x.sta, x.toSta[0]).sta.tree) + cap + 2
  {
    var a, b, t := x.toSta[0].parent, x.toSta[0].child, x.sta.tree;
    NodeAddTells(top, n, x);
    OneLess(top, n, t, a, b);
    DebtFalls(top, cap, t, Insert(t, a, b));
  }

  lemma OneLess(top: Topology, n: Id, t: Tree<Id>, a: Id, b: Id)
    requires TopologyOk(top) && n in top.depth && TreeOk(top, n, t)
    requires Edge(top, a, b) && b !in Pre(t) && (a == n || a in KidsOf(t, n))
    ensures Missing(top, t) == Missing(top, Insert(t, a, b)) + 1
  {
    TreeAdd(top, n, t, a, b);
    InsertLabels(t, a, b);
    TreeFits(top, n, Insert(t, a, b));
  }

  lemma DebtFalls(top: Topology, cap: nat, t: Tree<Id>, u: Tree<Id>)
    requires Missing(top, t) == Missing(top, u) + 1
    ensures Debt(top, cap, t) == Debt(top, cap, u) + cap + 2
  {
    assert (cap + 2) * (Missing(top, u) + 1) == (cap + 2) * Missing(top, u) + (cap + 2);
  }

  lemma UpdateLoad(top: Topology, cap: nat, n: Id, sta: Sta, x: Serial)
    requires x.NodeAdd?
    ensures var out := StaSerial(sta, x);
            SerialLoad(top, cap, ToAp(n), Opt(out.serial)) + UpLoad(top, cap, n, out.up) <= cap + 1
  {
    var out := StaSerial(sta, x);
    if out.serial.Some? { SingleLoad(top, cap, ToAp(n), out.serial.value); }
  }

  /** A node-add brings the tree one node nearer, which pays for the update it causes. */
  lemma NodeAddLighter(s: Net, cap: nat, all: seq<Id>, n: Id)
    requires Inv(s) && Lists(s, cap, all) && Enabled(s, SerialUp(n)) && s.nodes[n].toSta[0].NodeAdd?
    ensures Lists(Next(s, SerialUp(n)), cap, all)
    ensures NetLoad(Next(s, SerialUp(n)), cap, all) < NetLoad(s, cap, all)
  {
    assert NodeOk(s, n);
    var x := s.nodes[n];
    var out := StaSerial(x.sta, x.toSta[0]);
    NodeAddFills(s.top, cap, n, x);
    UpdateLoad(s.top, cap, n, x.sta, x.toSta[0]);
    LoadWith(s, cap, all, n, x.(toSta := x.toSta[1..]));
    AfterStaLoad(With(s, n, x.(toSta := x.toSta[1..])), cap, all, n, out);
  }

  // -------------------------------------------------------------------- schedules

  predicate Delivers(step: Step) {
    step.DeliverUp? || step.DeliverDown? || step.SerialUp? || step.SerialDown?
  }

  /** Every delivery makes the network lighter. */
  lemma DeliveryLighter(s: Net, cap: nat, all: seq<Id>, step: Step)
    requires Inv(s) && Lists(s, cap, all) && Delivers(step) && Enabled(s, step)
    ensures Lists(Next(s, step), cap, all)
    ensures NetLoad(Next(s, step), cap, all) < NetLoad(s, cap, all)
  {
    match step
    case DeliverUp(c) => DeliverUpLighter(s, cap, all, c);
    case DeliverDown(n) => DeliverDownLighter(s, cap, all, n);
    case SerialUp(n) =>
      assert NodeOk(s, n);
      if s.nodes[n].toSta[0].NodeAdd? { NodeAddLighter(s, cap, all, n); } else { TunnelUpLighter(s, cap, all, n); }
    case SerialDown(n) => SerialDownLighter(s, cap, all, n);
  }

  /** Deliveries only, each one enabled when its turn comes. */
  predicate Schedule(s: Net, steps: seq<Step>)
    decreases |steps|
  {
    steps == [] || (Delivers(steps[0]) && Enabled(s, steps[0]) && Schedule(Next(s, steps[0]), steps[1..]))
  }

  lemma {:induction false} ScheduleIsShort(s: Net, cap: nat, all: seq<Id>, steps: seq<Step>)
    requires Inv(s) && Lists(s, cap, all) && Schedule(s, steps)
    ensures |steps| <= NetLoad(s, cap, all)
    decreases |steps|
  {
    if steps != [] {
      StepOk(s, steps[0]);
      DeliveryLighter(s, cap, all, steps[0]);
      ScheduleIsShort(Next(s, steps[0]), cap, all, steps[1..]);
    }
  }

  /** The nodes in some order, and a cap on their ranks. */
  lemma {:induction false} Listing(top: Topology, nodes: set<Id>) returns (all: seq<Id>, cap: nat)
    ensures NoDup(all) && (forall n :: n in all <==> n in nodes)
    ensures forall n :: n in nodes ==> 5 + 2 * DepthOf(top, n) <= cap
    decreases |nodes|
  {
    if nodes == {} {
      all, cap := [], 5;
    } else {
      var n :| n in nodes;
      all, cap := Listing(top, nodes - {n});
      all := [n] + all;
      cap := if cap < 5 + 2 * DepthOf(top, n) then 5 + 2 * DepthOf(top, n) else cap;
    }
  }

  /** Nothing can be delivered exactly when all queues are empty. */
  lemma AtRest(s: Net)
    requires Inv(s)
    ensures Quiet(s) <==> forall step: Step :: Delivers(step) ==> !Enabled(s, step)
  {
    forall n | n in s.nodes && (forall step: Step :: Delivers(step) ==> !Enabled(s, step)) ensures Idle(s.nodes[n]) {
      assert !Enabled(s, DeliverDown(n)) && !Enabled(s, SerialUp(n)) && !Enabled(s, SerialDown(n));
      if s.nodes[n].up != [] { DeliverUpOk(s, n); }
    }
  }

  ghost predicate EndsWithin(s: Net, bound: nat) {
    forall steps :: Schedule(s, steps) ==> |steps| <= bound
  }

  /** From any reachable state every schedule of deliveries comes to an end within a
      bound, and it ends nowhere but in a state where all queues are empty and every tree
      is the true subtree cut at depth two. */
  lemma ComesToRest(s: Net)
    requires Reachable(s)
    ensures exists bound: nat :: EndsWithin(s, bound)
    ensures forall steps ::
              Schedule(s, steps) && (forall step: Step :: Delivers(step) ==> !Enabled(Run(s, steps), step)) ==>
                Settled(Run(s, steps))
  {
    ReachableInv(s);
    var all, cap := Listing(s.top, s.nodes.Keys);
    assert Lists(s, cap, all);
    forall steps | Schedule(s, steps) ensures |steps| <= NetLoad(s, cap, all) {
      ScheduleIsShort(s, cap, all, steps);
    }
    assert EndsWithin(s, NetLoad(s, cap, all));
    forall steps | Schedule(s, steps) && (forall step: Step :: Delivers(step) ==> !Enabled(Run(s, steps), step))
      ensures Settled(Run(s, steps))
    {
      var e := Run(s, steps);
      RunOk(s, steps);
      AtRest(e);
      forall n, d | n in e.nodes ensures Knows(e, n, d) {
        QuietKnowsAll(e, n, d);
      }
    }
  }

  ghost predicate Settled(s: Net) {
    Quiet(s) && forall n, d :: n in s.nodes ==> Knows(s, n, d)
  }

  /** A schedule that comes to rest can be had from every state. */
  lemma {:induction false} RestSchedule(s: Net, cap: nat, all: seq<Id>) returns (steps: seq<Step>)
    requires Inv(s) && Lists(s, cap, all)
    ensures Schedule(s, steps) && Quiet(Run(s, steps)) && Run(s, steps).top == s.top
    decreases NetLoad(s, cap, all)
  {
    AtRest(s);
    if Quiet(s) {
      steps := [];
    } else {
      var step: Step :| Delivers(step) && Enabled(s, step);
      StepOk(s, step);
      DeliveryLighter(s, cap, all, step);
      var more := RestSchedule(Next(s, step), cap, all);
      steps := [step] + more;
      ScheduleCons(s, step, more);
    }
  }

  lemma ScheduleCons(s: Net, step: Step, more: seq<Step>)
    requires Delivers(step) && Enabled(s, step)
    ensures Schedule(s, [step] + more) == Schedule(Next(s, step), more)
    ensures Run(s, [step] + more) == Run(Next(s, step), more) && Next(s, step).top == s.top
  {
    assert ([step] + more)[1..] == more;
  }

  lemma RestIsReached(s: Net) returns (steps: seq<Step>)
    requires Reachable(s)
    ensures Schedule(s, steps) && Quiet(Run(s, steps)) && Run(s, steps).top == s.top
  {
    ReachableInv(s);
    var all, cap := Listing(s.top, s.nodes.Keys);
    steps := RestSchedule(s, cap, all);
  }
}
