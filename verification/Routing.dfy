/** Where a data or ACK message goes: it climbs, it may turn down once, and it stops.
  */
module Routing {
  import opened Trees
  import opened TreeOps
  import opened Mesh
  import opened Network
  import opened NetworkInvariant
  import opened NetworkSteps
  import opened NetworkTheorems

  /** The queue a message stands in: to the parent's AP, from an AP to its STA, back,
      or down to a STA. */
  datatype Place = Up(node: Id) | ToSta(node: Id) | ToAp(node: Id) | Down(node: Id) | Gone

  predicate Downward(at: Place) {
    at.ToAp? || at.Down?
  }

  function StepAt(at: Place): Step
    requires !at.Gone?
  {
    match at
    case Up(c) => DeliverUp(c)
    case ToSta(n) => SerialUp(n)
    case ToAp(n) => SerialDown(n)
    case Down(n) => DeliverDown(n)
  }

  // ------------------------------------------------------------------- one handler

  function FromAp(n: Id, out: ApOut, m: Msg): Place {
    if Tunnel(m) in out.serial then ToSta(n)
    else if out.tcp.Some? && out.tcp.value.msg == m then Down(out.tcp.value.conn.peer)
    else Gone
  }

  function FromSta(s: Net, n: Id, out: StaOut, m: Msg): Place {
    if out.serial == Some(Tunnel(m)) then ToAp(n)
    else if out.up == Some(m) && n != s.top.root then Up(n)
    else Gone
  }

  /** Where the handler that reads the queue `at` puts the message `m` it finds. */
  function Hop(s: Net, at: Place, m: Msg): Place {
    match at
    case Gone => Gone
    case Up(c) =>
      var p := ParentOf(s.top, c);
      if p in s.nodes && Conn(c) in s.nodes[p].ap.conns then
        FromAp(p, ApIncoming(s.nodes[p].ap, Conn(c), m, Length(m)), m)
      else Gone
    case ToAp(n) => if n in s.nodes then FromAp(n, ApSerial(s.nodes[n].ap, Tunnel(m)), m) else Gone
    case ToSta(n) => if n in s.nodes then FromSta(s, n, StaSerial(s.nodes[n].sta, Tunnel(m)), m) else Gone
    case Down(n) => if n in s.nodes then FromSta(s, n, StaIncoming(s.nodes[n].sta, m, Length(m)), m) else Gone
  }

  /** Where `send_msg` of the STA of `x` puts a message. */
  function FirstPlace(s: Net, x: Id, m: Msg): Place
    requires x in s.nodes
  {
    FromSta(s, x, StaSend(s.nodes[x].sta, m), m)
  }

  // ------------------------------------------------- the four queues, one at a time

  /** What came down stops at its destination or goes over to the AP. Data that stops is
      handed to the application and answered; of an ACK nothing is left. */
  lemma HopDown(s: Net, n: Id, m: Msg)
    requires Inv(s) && IsRelay(m) && n in s.nodes && s.nodes[n].down != [] && s.nodes[n].down[0] == m
    ensures n in s.top.parent && (m.dest != n ==> Edge(s.top, n, m.dest))
    ensures Hop(s, Down(n), m) == if m.dest == n then Gone else ToAp(n)
    ensures var x := s.nodes[n];
            var y := x.(down := x.down[1..]);
            Next(s, DeliverDown(n)) ==
            With(s, n, if m.dest != n then y.(toAp := x.toAp + [Tunnel(m)])
                       else if m.Ack? then y
                       else y.(sta := x.sta.(delivered := x.sta.delivered + [m]),
                               up := x.up + [Ack(n, m.source, Length(m))]))
  {
    assert NodeOk(s, n);
    var x := s.nodes[n];
    assert DownOk(n, KidsOf(x.sta.tree, n), m);
    DepthTwoPath(x.sta.tree, m.dest);
    if m.dest != n { DeliverDownEffect(s, n, m); } else { DownStops(s, n, m); }
  }

  lemma DownStops(s: Net, n: Id, m: Msg)
    requires IsRelay(m) && n in s.nodes && s.nodes[n].down != [] && s.nodes[n].down[0] == m
    requires s.nodes[n].sta.id == n && m.dest == n && n != s.top.root
    ensures Hop(s, Down(n), m) == Gone
    ensures var x := s.nodes[n];
            var y := x.(down := x.down[1..]);
            Next(s, DeliverDown(n)) ==
            With(s, n, if m.Ack? then y
                       else y.(sta := x.sta.(delivered := x.sta.delivered + [m]),
                               up := x.up + [Ack(n, m.source, Length(m))]))
  {
    var x := s.nodes[n];
    assert x.toAp + [] == x.toAp && x.up + [] == x.up;
    WithTwice(s, n, x.(down := x.down[1..]), Next(s, DeliverDown(n)).nodes[n]);
  }

  lemma DeliverDownEffect(s: Net, n: Id, m: Msg)
    requires IsRelay(m) && n in s.nodes && s.nodes[n].down != [] && s.nodes[n].down[0] == m
    requires s.nodes[n].sta.id == n && m.dest != n && Path(s.nodes[n].sta.tree, m.dest).Some?
    ensures Hop(s, Down(n), m) == ToAp(n)
    ensures var x := s.nodes[n];
            Next(s, DeliverDown(n)) == With(s, n, x.(down := x.down[1..], toAp := x.toAp + [Tunnel(m)]))
  {
    var x := s.nodes[n];
    assert x.up + [] == x.up;
    WithTwice(s, n, x.(down := x.down[1..]), x.(down := x.down[1..], toAp := x.toAp + [Tunnel(m)]));
  }

  /** What a STA gives its AP goes down to a child, straight to its destination if that
      is a child. */
  lemma HopToAp(s: Net, n: Id, m: Msg) returns (k: Id)
    requires Inv(s) && IsRelay(m) && n in s.nodes && s.nodes[n].toAp != [] && s.nodes[n].toAp[0] == Tunnel(m)
    ensures Hop(s, ToAp(n), m) == Down(k) && Edge(s.top, n, k) && k in s.nodes && k != n
    ensures Edge(s.top, n, m.dest) ==> k == m.dest
    ensures k != m.dest ==> Edge(s.top, k, m.dest)
    ensures var x, y := s.nodes[n], s.nodes[k];
            Next(s, SerialDown(n)) == With(With(s, n, x.(toAp := x.toAp[1..])), k, y.(down := y.down + [m]))
  {
    assert NodeOk(s, n);
    var x := s.nodes[n];
    assert ToApOk(x.sta.tree, x.toAp[0]);
    QueueGrows(s.top, n, x.sta.tree, x.toSta, n, m.dest);
    k := ApDown(s, n, m);
    assert Placed(s.top, k);
    SerialDownEffect(s, n, m, k);
  }

  lemma SerialDownEffect(s: Net, n: Id, m: Msg, k: Id)
    requires IsRelay(m) && n in s.nodes && s.nodes[n].toAp != [] && s.nodes[n].toAp[0] == Tunnel(m)
    requires ApSend(s.nodes[n].ap, m) == Some(Packet(Conn(k), m)) && k in s.nodes && k != n
    ensures Hop(s, ToAp(n), m) == Down(k)
    ensures var x, y := s.nodes[n], s.nodes[k];
            Next(s, SerialDown(n)) == With(With(s, n, x.(toAp := x.toAp[1..])), k, y.(down := y.down + [m]))
  {
    var x := s.nodes[n];
    assert x.toSta + [] == x.toSta;
    WithTwice(s, n, x.(toAp := x.toAp[1..]), x.(toAp := x.toAp[1..]));
  }

  /** A message the AP's tree has a path for goes to the first hop. */
  lemma ApDown(s: Net, p: Id, m: Msg) returns (k: Id)
    requires Inv(s) && IsRelay(m) && p in s.nodes && Path(s.nodes[p].ap.tree, m.dest).Some?
    ensures ApSend(s.nodes[p].ap, m) == Some(Packet(Conn(k), m))
    ensures Edge(s.top, p, k) && k in s.nodes && (k != m.dest ==> Edge(s.top, k, m.dest))
    ensures Edge(s.top, p, m.dest) ==> k == m.dest
  {
    assert NodeOk(s, p);
    var ap := s.nodes[p].ap;
    SendTarget(s.top, p, ap, m);
    k := Path(ap.tree, m.dest).value;
    assert Placed(s.top, k);
  }

  /** What an AP gives its STA goes up, unless it is for this node or at the root: then it
      is an ACK for this node or nobody's, and nothing is left of it. */
  lemma HopToSta(s: Net, n: Id, m: Msg)
    requires Inv(s) && IsRelay(m) && n in s.nodes && s.nodes[n].toSta != [] && s.nodes[n].toSta[0] == Tunnel(m)
    ensures Hop(s, ToSta(n), m) == if m.dest == n || n == s.top.root then Gone else Up(n)
    ensures m.dest == n ==> m.Ack?
    ensures var x := s.nodes[n];
            Next(s, SerialUp(n)) ==
            With(s, n, x.(toSta := x.toSta[1..], up := if m.dest == n || n == s.top.root then x.up else x.up + [m]))
  {
    assert NodeOk(s, n);
    var x := s.nodes[n];
    assert x.toAp + [] == x.toAp && x.up + [] == x.up;
    WithTwice(s, n, x.(toSta := x.toSta[1..]), Next(s, SerialUp(n)).nodes[n]);
  }

  /** What comes up to an AP stops there, with an ACK if its tree has a path to the sender,
      turns down to a child, or goes over to the STA. */
  lemma HopUp(s: Net, c: Id, m: Msg) returns (p: Id, k: Id)
    requires Inv(s) && IsRelay(m) && c in s.nodes && s.nodes[c].up != [] && s.nodes[c].up[0] == m
    ensures Edge(s.top, p, c) && p in s.nodes && p != c
    ensures m.dest == p ==> Hop(s, Up(c), m) == if m.Ack? then ToSta(p) else Gone
    ensures m.dest != p && Path(s.nodes[p].ap.tree, m.dest).None? ==> Hop(s, Up(c), m) == ToSta(p)
    ensures m.dest != p && Path(s.nodes[p].ap.tree, m.dest).Some? ==>
              && Hop(s, Up(c), m) == Down(k) && Edge(s.top, p, k) && k in s.nodes
              && (Edge(s.top, p, m.dest) ==> k == m.dest) && (k != m.dest ==> Edge(s.top, k, m.dest))
    ensures Enabled(s, DeliverUp(c))
    ensures var x := s.nodes[c]; var s1 := With(s, c, x.(up := x.up[1..]));
            match Hop(s, Up(c), m)
            case ToSta(_) =>
              Next(s, DeliverUp(c)) == With(s1, p, s1.nodes[p].(toSta := s1.nodes[p].toSta + [Tunnel(m)]))
            case Down(_) => Next(s, DeliverUp(c)) == With(s1, k, s1.nodes[k].(down := s1.nodes[k].down + [m]))
            case _ => Next(s, DeliverUp(c)) == Post(s1, ApSend(s.nodes[p].ap, Ack(p, m.source, Length(m))))
  {
    assert NodeOk(s, c);
    DeliverUpOk(s, c);
    p, k := s.top.parent[c], c;
    assert NodeOk(s, p) && Placed(s.top, c);
    UniqueParts(s.nodes[p].ap.tree);
    if m.dest != p && Path(s.nodes[p].ap.tree, m.dest).Some? {
      k := ApDown(s, p, m);
      UpTurns(s, c, p, k, m);
    } else if m.dest == p && m.Data? {
      UpStops(s, c, p, m);
    } else {
      UpGoesOver(s, c, p, m);
    }
  }

  lemma UpTurns(s: Net, c: Id, p: Id, k: Id, m: Msg)
    requires IsRelay(m) && Enabled(s, DeliverUp(c)) && s.nodes[c].up[0] == m && p == s.top.parent[c]
    requires s.nodes[p].ap.id == p && m.dest != p && k in s.nodes
    requires ApSend(s.nodes[p].ap, m) == Some(Packet(Conn(k), m))
    ensures Hop(s, Up(c), m) == Down(k)
    ensures var x := s.nodes[c]; var s1 := With(s, c, x.(up := x.up[1..]));
            Next(s, DeliverUp(c)) == With(s1, k, s1.nodes[k].(down := s1.nodes[k].down + [m]))
  {
    var x := s.nodes[c];
    var s1 := With(s, c, x.(up := x.up[1..]));
    assert s1.nodes[p].toSta + [] == s1.nodes[p].toSta;
    WithSame(s1, p);
  }

  lemma UpGoesOver(s: Net, c: Id, p: Id, m: Msg)
    requires IsRelay(m) && Enabled(s, DeliverUp(c)) && s.nodes[c].up[0] == m && p == s.top.parent[c]
    requires s.nodes[p].ap.id == p && (if m.dest == p then m.Ack? else Path(s.nodes[p].ap.tree, m.dest).None?)
    ensures Hop(s, Up(c), m) == ToSta(p)
    ensures var x := s.nodes[c]; var s1 := With(s, c, x.(up := x.up[1..]));
            Next(s, DeliverUp(c)) == With(s1, p, s1.nodes[p].(toSta := s1.nodes[p].toSta + [Tunnel(m)]))
  {
  }

  lemma UpStops(s: Net, c: Id, p: Id, m: Msg)
    requires m.Data? && Enabled(s, DeliverUp(c)) && s.nodes[c].up[0] == m && p == s.top.parent[c]
    requires s.nodes[p].ap.id == p && m.dest == p
    ensures Hop(s, Up(c), m) == Gone
    ensures var x := s.nodes[c]; var s1 := With(s, c, x.(up := x.up[1..]));
            Next(s, DeliverUp(c)) == Post(s1, ApSend(s.nodes[p].ap, Ack(p, m.source, Length(m))))
  {
    var x := s.nodes[c];
    var s1 := With(s, c, x.(up := x.up[1..]));
    assert s1.nodes[p].toSta + [] == s1.nodes[p].toSta;
    WithSame(s1, p);
  }

  lemma WithSame(s: Net, n: Id)
    requires n in s.nodes
    ensures With(s, n, s.nodes[n]) == s
  {
    assert With(s, n, s.nodes[n]).nodes == s.nodes;
  }

  // ------------------------------------------------------------------ whole journeys

  /** The queue at a place has the message at its head. */
  predicate AtHead(s: Net, at: Place, m: Msg) {
    match at
    case Gone => false
    case Up(n) => n in s.nodes && s.nodes[n].up != [] && s.nodes[n].up[0] == m
    case Down(n) => n in s.nodes && s.nodes[n].down != [] && s.nodes[n].down[0] == m
    case ToSta(n) => n in s.nodes && s.nodes[n].toSta != [] && s.nodes[n].toSta[0] == Tunnel(m)
    case ToAp(n) => n in s.nodes && s.nodes[n].toAp != [] && s.nodes[n].toAp[0] == Tunnel(m)
  }

  /** The places a message comes to, starting at the head of a queue. After each of
      its own steps any other steps may happen, `waits[0]`, `waits[1]`, .., until it is
      at the head of the next queue; where it is not, the account ends. */
  function Follow(s: Net, at: Place, m: Msg, waits: seq<seq<Step>>): seq<Place>
    decreases |waits|
  {
    if !AtHead(s, at, m) then []
    else if waits == [] || !Enabled(s, StepAt(at)) then [at]
    else [at] + Follow(Run(Next(s, StepAt(at)), waits[0]), Hop(s, at, m), m, waits[1..])
  }

  /** Hops a message can still make. Turned down, it has at most two links before it. */
  function Rank(top: Topology, at: Place, dest: Id): nat {
    match at
    case Gone => 0
    case Down(n) => if n == dest then 1 else 3
    case ToAp(n) => if Edge(top, n, dest) then 2 else 4
    case Up(n) => 4 + 2 * DepthOf(top, n)
    case ToSta(n) => 5 + 2 * DepthOf(top, n)
  }

  /** TCP links a message can still take. */
  function LinkRank(top: Topology, at: Place, dest: Id): nat {
    match at
    case Gone => 0
    case Down(n) => if n == dest then 1 else 2
    case ToAp(n) => if Edge(top, n, dest) then 1 else 2
    case Up(n) => 2 + DepthOf(top, n)
    case ToSta(n) => 2 + DepthOf(top, n)
  }

  function DepthOf(top: Topology, n: Id): nat {
    if n in top.depth then top.depth[n] else 0
  }

  /** One hop brings a message nearer to its end, and never from down to up. */
  lemma HopDescends(s: Net, at: Place, m: Msg)
    requires Inv(s) && IsRelay(m) && AtHead(s, at, m)
    ensures Enabled(s, StepAt(at))
    ensures Rank(s.top, Hop(s, at, m), m.dest) < Rank(s.top, at, m.dest)
    ensures (if at.Up? || at.Down? then 1 else 0) + LinkRank(s.top, Hop(s, at, m), m.dest) <=
            LinkRank(s.top, at, m.dest)
    ensures Downward(at) ==> Downward(Hop(s, at, m)) || Hop(s, at, m).Gone?
    ensures !Hop(s, at, m).Gone? ==> Hop(s, at, m).node in s.top.depth
    ensures at.node in s.top.depth
  {
    match at
    case Down(n) => HopDown(s, n, m);
    case ToAp(n) =>
      var k := HopToAp(s, n, m);
    case ToSta(n) => HopToSta(s, n, m);
    case Up(c) =>
      var p, k := HopUp(s, c, m);
      assert Placed(s.top, c);
  }

  /** Steps leave the topology in place and may add to it. */
  lemma NextKeeps(s: Net, step: Step, at: Place, d: Id)
    requires Inv(s) && Enabled(s, step)
    ensures at.Gone? || at.node in s.top.depth ==>
              && Rank(Next(s, step).top, at, d) <= Rank(s.top, at, d)
              && LinkRank(Next(s, step).top, at, d) <= LinkRank(s.top, at, d)
    ensures at.Gone? || at.node in s.top.depth ==> at.Gone? || at.node in Next(s, step).top.depth
    ensures !step.Join? ==> Next(s, step).top == s.top
  {
  }

  lemma {:induction false} RunKeeps(s: Net, steps: seq<Step>, at: Place, d: Id)
    requires Inv(s)
    ensures at.Gone? || at.node in s.top.depth ==>
              && Rank(Run(s, steps).top, at, d) <= Rank(s.top, at, d)
              && LinkRank(Run(s, steps).top, at, d) <= LinkRank(s.top, at, d)
    decreases |steps|
  {
    if steps != [] {
      var s1 := s;
      if Enabled(s, steps[0]) {
        StepOk(s, steps[0]);
        NextKeeps(s, steps[0], at, d);
        s1 := Next(s, steps[0]);
      }
      RunKeeps(s1, steps[1..], at, d);
    }
  }

  /** TCP links among the places. */
  function Links(r: seq<Place>): nat {
    if r == [] then 0 else (if r[0].Up? || r[0].Down? then 1 else 0) + Links(r[1..])
  }

  /** No U-turn: from any reachable state, with joins and other traffic going on in
      between, a message that has gone down never goes up again; it stops after at most
      as many links as its depth, and two. */
  lemma NoUTurn(s: Net, at: Place, m: Msg, waits: seq<seq<Step>>)
    requires Reachable(s) && IsRelay(m)
    ensures var r := Follow(s, at, m, waits);
            && (forall i, j :: 0 <= i < j < |r| && Downward(r[i]) ==> Downward(r[j]))
            && |r| <= Rank(s.top, at, m.dest)
            && Links(r) <= LinkRank(s.top, at, m.dest)
  {
    ReachableInv(s);
    FollowDescends(s, at, m, waits);
  }

  lemma {:induction false} FollowDescends(s: Net, at: Place, m: Msg, waits: seq<seq<Step>>)
    requires Inv(s) && IsRelay(m)
    ensures var r := Follow(s, at, m, waits);
            && (forall i, j :: 0 <= i < j < |r| && Downward(r[i]) ==> Downward(r[j]))
            && |r| <= Rank(s.top, at, m.dest)
            && Links(r) <= LinkRank(s.top, at, m.dest)
            && (r != [] ==> r[0] == at)
    decreases |waits|
  {
    if AtHead(s, at, m) {
      HopDescends(s, at, m);
      if waits == [] {
        assert Links([at]) == (if at.Up? || at.Down? then 1 else 0) + Links([at][1..]);
      } else {
        var h, s1 := Hop(s, at, m), Next(s, StepAt(at));
        var s2 := Run(s1, waits[0]);
        StepOk(s, StepAt(at));
        NextKeeps(s, StepAt(at), h, m.dest);
        RunOk(s1, waits[0]);
        RunKeeps(s1, waits[0], h, m.dest);
        FollowDescends(s2, h, m, waits[1..]);
        var rest := Follow(s2, h, m, waits[1..]);
        assert ([at] + rest)[1..] == rest;
        DownStaysDown(at, h, rest);
      }
    }
  }

  lemma DownStaysDown(at: Place, h: Place, rest: seq<Place>)
    requires Downward(at) ==> Downward(h) || rest == []
    requires rest != [] ==> rest[0] == h
    requires forall i, j :: 0 <= i < j < |rest| && Downward(rest[i]) ==> Downward(rest[j])
    ensures var r := [at] + rest; forall i, j :: 0 <= i < j < |r| && Downward(r[i]) ==> Downward(r[j])
  {
    var r := [at] + rest;
    forall i, j | 0 <= i < j < |r| && Downward(r[i]) ensures Downward(r[j]) {
      assert r[j] == rest[j - 1];
      if i > 0 { assert r[i] == rest[i - 1]; }
      else if j > 1 { assert Downward(rest[0]); }
    }
  }
}
