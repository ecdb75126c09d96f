/** The invariant along every run, step by step. */
module NetworkSteps {
  import opened Trees
  import opened TreeOps
  import opened Mesh
  import opened Network
  import opened NetworkInvariant

  // -------------------------------------------------------- what handlers send

  /** A message the AP sends down goes to a child that can pass it on. */
  lemma SendTarget(top: Topology, p: Id, ap: Ap, m: Msg)
    requires TreeOk(top, p, ap.tree) && ap.id == p && ClientsOk(top, ap) && IsRelay(m)
    ensures ApSend(ap, m).None? <==> Path(ap.tree, m.dest).None?
    ensures ApSend(ap, m).Some? ==>
              var x := Path(ap.tree, m.dest).value;
              && ApSend(ap, m) == Some(Packet(Conn(x), m))
              && x in KidsOf(ap.tree, p) && Edge(top, p, x)
              && (m.dest == x || m.dest in KidsOf(ap.tree, x))
  {
    DepthTwoPath(ap.tree, m.dest);
  }

  /** What an AP sends goes to the child that is the destination or has it as child; a
      destination its tree has no path to is not sent to. */
  lemma PostGoes(s: Net, p: Id, m: Msg)
    requires Inv(s) && p in s.nodes && IsRelay(m)
    ensures var t, s1 := s.nodes[p].ap.tree, Post(s, ApSend(s.nodes[p].ap, m));
            if Path(t, m.dest).None? then s1 == s
            else
              var x := Path(t, m.dest).value;
              && Edge(s.top, p, x) && x in s.nodes && x in KidsOf(t, p) && (m.dest == x || m.dest in KidsOf(t, x))
              && s1 == With(s, x, s.nodes[x].(down := s.nodes[x].down + [m]))
  {
    assert NodeOk(s, p);
    SendTarget(s.top, p, s.nodes[p].ap, m);
  }

  lemma PostOk(s: Net, p: Id, m: Msg)
    requires Inv(s) && p in s.nodes && IsRelay(m)
    ensures Inv(Post(s, ApSend(s.nodes[p].ap, m)))
  {
    PostGoes(s, p, m);
    var t := s.nodes[p].ap.tree;
    if Path(t, m.dest).Some? { ChildGets(s, p, Path(t, m.dest).value, m); }
  }

  lemma ChildGets(s: Net, p: Id, x: Id, m: Msg)
    requires Inv(s) && p in s.nodes && x in s.nodes && Edge(s.top, p, x) && IsRelay(m)
    requires x in KidsOf(s.nodes[p].ap.tree, p) && (m.dest == x || m.dest in KidsOf(s.nodes[p].ap.tree, x))
    ensures Inv(With(s, x, s.nodes[x].(down := s.nodes[x].down + [m])))
  {
    assert NodeOk(s, p) && NodeOk(s, x);
    var t, y := s.nodes[p].ap.tree, s.nodes[x].(down := s.nodes[x].down + [m]);
    ChainPrefix(s.top, x, KidsOf(t, x), y.up, KidsOf(y.sta.tree, x));
    assert LinkedUp(s, x, y);
    OneStation(s, x, y);
  }

  /** The AP passes on or answers, without touching its tree. */
  lemma AfterApOk(s: Net, n: Id, out: ApOut, m: Msg)
    requires Inv(s) && n in s.nodes && IsRelay(m)
    requires out.ap == s.nodes[n].ap
    requires out.serial == [] ||
             (out.serial == [Tunnel(m)] && ToStaOk(n, out.ap.tree, m) && out.tcp == None)
    requires out.tcp == None || out.tcp == ApSend(out.ap, m)
    ensures Inv(AfterAp(s, n, out))
  {
    assert NodeOk(s, n);
    var x := s.nodes[n];
    var y := x.(toSta := x.toSta + out.serial);
    if out.serial != [] {
      QueueAppend(s.top, n, x.sta.tree, x.toSta, out.serial);
    } else {
      assert y == x;
    }
    assert LinkedUp(s, n, y);
    OneStation(s, n, y);
    if out.tcp.Some? {
      PostOk(With(s, n, y), n, m);
    }
  }

  /** The STA passes on, answers or delivers, without touching its tree. */
  lemma AfterStaOk(s: Net, n: Id, out: StaOut)
    requires Inv(s) && n in s.nodes
    requires out.sta == s.nodes[n].sta.(delivered := out.sta.delivered)
    requires out.serial.Some? ==> ToApOk(out.sta.tree, out.serial.value)
    requires out.up.Some? ==> IsRelay(out.up.value)
    ensures Inv(AfterSta(s, n, out))
  {
    assert NodeOk(s, n);
    var x, y := s.nodes[n], AfterSta(s, n, out).nodes[n];
    if n in s.top.parent && out.up.Some? {
      assert n != s.top.root && y.up == x.up + [out.up.value];
      LinkPush(s.top, n, s.nodes[s.top.parent[n]].ap.tree, x, y, out.up.value);
    } else {
      assert y.up == x.up;
    }
    assert LinkedUp(s, n, y);
    OneStation(s, n, y);
  }

  // -------------------------------------------------------- TCP, towards the root

  /** Taking anything but news about `c` off its queue. */
  lemma PopUp(s: Net, c: Id)
    requires Inv(s) && c in s.nodes && s.nodes[c].up != []
    requires var m := s.nodes[c].up[0]; IsRelay(m) || (m.Update? && m.source != c)
    ensures Inv(With(s, c, s.nodes[c].(up := s.nodes[c].up[1..])))
  {
    assert NodeOk(s, c);
    var y := s.nodes[c].(up := s.nodes[c].up[1..]);
    assert LinkedUp(s, c, y);
    OneStation(s, c, y);
  }

  /** Ids that are there already are passed over. */
  lemma {:induction false} LearnSkips(t: Tree<Id>, c: Id, seen: seq<Id>, more: seq<Id>)
    requires forall x :: x in seen ==> x in Pre(t)
    ensures Learn(t, c, seen + more) == Learn(t, c, more)
    decreases |seen|
  {
    if seen == [] {
      assert seen + more == more;
    } else {
      assert (seen + more)[1..] == seen[1..] + more && (seen + more)[0] == seen[0];
      LearnSkips(t, c, seen[1..], more);
    }
  }

  /** Learning new children of a child: the tree takes on exactly those ids, and each
      is reported once. */
  lemma {:induction false} LearnOk(top: Topology, n: Id, t: Tree<Id>, c: Id, more: seq<Id>)
    requires TopologyOk(top) && TreeOk(top, n, t) && n in top.depth && c in KidsOf(t, n)
    requires TrueKids(top, c, more) && NoDup(KidsOf(t, c) + more)
    ensures var (u, adds) := Learn(t, c, more);
            && TreeOk(top, n, u) && QueueOk(top, n, t, adds) && After(t, adds) == u
            && KidsOf(u, c) == KidsOf(t, c) + more
            && forall k :: k != c ==> KidsOf(u, k) == KidsOf(t, k)
    decreases |more|
  {
    if more == [] {
      assert KidsOf(t, c) + more == KidsOf(t, c);
    } else {
      HeadNew(KidsOf(t, c), more);
      LearnHead(top, n, t, c, more[0]);
      LearnOk(top, n, Insert(t, c, more[0]), c, more[1..]);
      var r := Learn(Insert(t, c, more[0]), c, more[1..]);
      assert ([NodeAdd(c, more[0])] + r.1)[1..] == r.1;
    }
  }

  lemma LearnHead(top: Topology, n: Id, t: Tree<Id>, c: Id, x: Id)
    requires TopologyOk(top) && TreeOk(top, n, t) && n in top.depth && c in KidsOf(t, n)
    requires Edge(top, c, x) && x !in KidsOf(t, c)
    ensures var u := Insert(t, c, x);
            && x !in Pre(t) && AddAnyChild(t, c, x) == (u, true) && TreeOk(top, n, u)
            && (forall k :: KidsOf(u, k) == if k == c then KidsOf(t, c) + [x] else KidsOf(t, k))
            && c != n
  {
    assert Edge(top, n, c) && Placed(top, c);
    TreeHas(top, n, t, c, x);
    TreeAdd(top, n, t, c, x);
  }

  lemma HeadNew<T>(ks: seq<T>, more: seq<T>)
    requires NoDup(ks + more) && more != []
    ensures more[0] !in ks && (ks + [more[0]]) + more[1..] == ks + more
  {
    NoDupParts(ks, more);
    assert more[0] in more;
  }

  /** A child's init at its parent's AP: the child becomes the newest direct child,
      with a connection. */
  lemma RegisterOk(top: Topology, p: Id, ap: Ap, c: Id)
    requires TopologyOk(top) && p in top.depth && TreeOk(top, p, ap.tree) && ap.id == p && ClientsOk(top, ap)
    requires Edge(top, p, c) && c !in KidsOf(ap.tree, p)
    ensures Conn(c) in ap.conns
    ensures var ap1 := Register(ap, Conn(c), c);
            && ap1.id == p && TreeOk(top, p, ap1.tree) && ClientsOk(top, ap1)
            && c !in Pre(ap.tree) && AddAnyChild(ap.tree, p, c) == (ap1.tree, true)
            && KidsOf(ap1.tree, p) == KidsOf(ap.tree, p) + [c] && KidsOf(ap1.tree, c) == []
            && c in ap1.clients && ap1.clients[c] == Conn(c)
            && forall k {:trigger SameChild(ap1.tree, ap.tree, k)} ::
                 Edge(top, p, k) && k != c ==> SameChild(ap1.tree, ap.tree, k)
  {
    TreeHas(top, p, ap.tree, p, c);
    TreeAdd(top, p, ap.tree, p, c);
    assert KidsOf(ap.tree, c) == [];
    forall k | Edge(top, p, k) && k != c
      ensures SameChild(Register(ap, Conn(c), c).tree, ap.tree, k)
    {
      assert Placed(top, k);
    }
    assert Placed(top, c);
  }

  /** Delivering the head of `c`'s queue with this outcome keeps the invariant. */
  ghost predicate Delivers(s: Net, c: Id, p: Id, out: ApOut) {
    && c in s.nodes && p in s.nodes && s.nodes[c].up != []
    && !out.stuck && Inv(AfterAp(With(s, c, s.nodes[c].(up := s.nodes[c].up[1..])), p, out))
  }

  /** A station whose AP has learnt something and told its STA. */
  lemma ApLearns(top: Topology, p: Id, x: Station, ap: Ap, adds: seq<Serial>)
    requires StationOk(top, p, x) && ap.id == p && TreeOk(top, p, ap.tree) && ClientsOk(top, ap)
    requires QueueOk(top, p, x.ap.tree, adds) && After(x.ap.tree, adds) == ap.tree
    ensures StationOk(top, p, x.(ap := ap, toSta := x.toSta + adds))
  {
    QueueAppend(top, p, x.sta.tree, x.toSta, adds);
  }

  /** The link once its first message has told the parent what it says. */
  lemma LinkPop(top: Topology, c: Id, above: Tree<Id>, x: Station, u: Tree<Id>)
    requires LinkOk(top, c, above, x) && x.up != [] && u.root == above.root && c in KidsOf(u, u.root)
    requires if x.up[0].Init? then KidsOf(u, c) == []
             else x.up[0].Update? && x.up[0].source == c && KidsOf(u, c) == x.up[0].children
    ensures LinkOk(top, c, u, x.(up := x.up[1..]))
  {
  }

  /** What a child's news makes of its parent's AP. */
  ghost predicate News(s: Net, c: Id, p: Id, ap: Ap, adds: seq<Serial>)
    requires c in s.nodes && p in s.nodes && s.nodes[c].up != []
  {
    var t, m := s.nodes[p].ap.tree, s.nodes[c].up[0];
    && ap.id == p && TreeOk(s.top, p, ap.tree) && ClientsOk(s.top, ap) && c in KidsOf(ap.tree, p)
    && (if m.Init? then KidsOf(ap.tree, c) == [] else m.Update? && m.source == c && KidsOf(ap.tree, c) == m.children)
    && QueueOk(s.top, p, t, adds) && After(t, adds) == ap.tree
    && forall k {:trigger SameChild(ap.tree, t, k)} :: Edge(s.top, p, k) && k != c ==> SameChild(ap.tree, t, k)
  }

  lemma NewsOk(s: Net, c: Id, p: Id, ap: Ap, adds: seq<Serial>)
    requires Inv(s) && Edge(s.top, p, c) && c in s.nodes && p in s.nodes && p != c && s.nodes[c].up != []
    requires News(s, c, p, ap, adds)
    ensures var x, y := s.nodes[c], s.nodes[p];
            Inv(With(With(s, c, x.(up := x.up[1..])), p, y.(ap := ap, toSta := y.toSta + adds)))
  {
    assert NodeOk(s, c) && NodeOk(s, p);
    var x, y := s.nodes[c], s.nodes[p];
    ApLearns(s.top, p, y, ap, adds);
    LinkPop(s.top, c, y.ap.tree, x, ap.tree);
    TwoStations(s, c, p, x.(up := x.up[1..]), y.(ap := ap, toSta := y.toSta + adds));
  }

  /** A child's news taken off its queue and into its parent's AP, which answers. */
  lemma ChildTells(s: Net, c: Id, p: Id, ap: Ap, adds: seq<Serial>, answer: Msg)
    requires Inv(s) && Edge(s.top, p, c) && c in s.nodes && p in s.nodes && p != c && s.nodes[c].up != []
    requires News(s, c, p, ap, adds) && IsRelay(answer)
    ensures Delivers(s, c, p, ApOut(ap, adds, ApSend(ap, answer), false))
  {
    NewsOk(s, c, p, ap, adds);
    var s1 := With(s, c, s.nodes[c].(up := s.nodes[c].up[1..]));
    PostOk(With(s1, p, s.nodes[p].(ap := ap, toSta := s.nodes[p].toSta + adds)), p, answer);
  }

  /** An init: the child becomes the newest direct child, with a connection; the STA is
      told of it and the child gets an ACK. */
  lemma InitOk(s: Net, c: Id, p: Id)
    requires Inv(s) && Edge(s.top, p, c) && c in s.nodes && p in s.nodes && p != c
    requires s.nodes[c].up != [] && s.nodes[c].up[0].Init?
    ensures Conn(c) in s.nodes[p].ap.conns
    ensures var ap, m := s.nodes[p].ap, s.nodes[c].up[0];
            var out := ApIncoming(ap, Conn(c), m, Length(m));
            && Delivers(s, c, p, out)
            && KidsOf(out.ap.tree, p) == KidsOf(ap.tree, p) + [c] && c !in Pre(ap.tree)
            && c in out.ap.clients && out.ap.clients[c] == Conn(c)
            && out.serial == [NodeAdd(p, c)] && out.tcp == Some(Packet(Conn(c), Ack(p, c, Length(m))))
  {
    assert NodeOk(s, c) && NodeOk(s, p);
    InitOut(s.top, p, s.nodes[p].ap, c, s.nodes[c].up[0], Length(s.nodes[c].up[0]));
    var out := ApIncoming(s.nodes[p].ap, Conn(c), s.nodes[c].up[0], Length(s.nodes[c].up[0]));
    ChildTells(s, c, p, out.ap, out.serial, Ack(p, c, Length(s.nodes[c].up[0])));
  }

  lemma InitOut(top: Topology, p: Id, ap: Ap, c: Id, m: Msg, total: nat)
    requires TopologyOk(top) && p in top.depth && TreeOk(top, p, ap.tree) && ap.id == p && ClientsOk(top, ap)
    requires Edge(top, p, c) && c !in KidsOf(ap.tree, p) && m == Init(c, p)
    ensures Conn(c) in ap.conns
    ensures var out, ap1 := ApIncoming(ap, Conn(c), m, total), Register(ap, Conn(c), c);
            && out == ApOut(ap1, [NodeAdd(p, c)], ApSend(ap1, Ack(p, c, total)), false)
            && out.tcp == Some(Packet(Conn(c), Ack(p, c, total)))
            && QueueOk(top, p, ap.tree, [NodeAdd(p, c)]) && After(ap.tree, [NodeAdd(p, c)]) == ap1.tree
            && ap1.id == p && TreeOk(top, p, ap1.tree) && ClientsOk(top, ap1) && c !in Pre(ap.tree)
            && KidsOf(ap1.tree, p) == KidsOf(ap.tree, p) + [c] && KidsOf(ap1.tree, c) == []
            && c in ap1.clients && ap1.clients[c] == Conn(c)
            && forall k {:trigger SameChild(ap1.tree, ap.tree, k)} ::
                 Edge(top, p, k) && k != c ==> SameChild(ap1.tree, ap.tree, k)
  {
    RegisterOk(top, p, ap, c);
    assert [NodeAdd(p, c)][1..] == [];
    AckToChild(top, p, Register(ap, Conn(c), c), c, Ack(p, c, total));
  }

  /** A direct child is reached over its own connection, and so is what it has as child. */
  lemma AckToChild(top: Topology, p: Id, ap: Ap, c: Id, m: Msg)
    requires TreeOk(top, p, ap.tree) && ap.id == p && ClientsOk(top, ap) && IsRelay(m)
    requires c in KidsOf(ap.tree, p) && (m.dest == c || m.dest in KidsOf(ap.tree, c))
    ensures ApSend(ap, m) == Some(Packet(Conn(c), m))
  {
    DepthTwoPath(ap.tree, m.dest);
  }

  /** An update about the child itself: the parent's list of it becomes the list in
      the message. */
  lemma UpdateTree(top: Topology, p: Id, ap: Ap, c: Id, kids: seq<Id>)
    requires TopologyOk(top) && p in top.depth && TreeOk(top, p, ap.tree) && ap.id == p && ClientsOk(top, ap)
    requires c in KidsOf(ap.tree, p) && KidsOf(ap.tree, c) <= kids && TrueKids(top, c, kids) && NoDup(kids)
    ensures var (u, adds) := Learn(ap.tree, c, kids);
            && TreeOk(top, p, u) && QueueOk(top, p, ap.tree, adds) && After(ap.tree, adds) == u
            && KidsOf(u, c) == kids && c in KidsOf(u, p) && ClientsOk(top, ap.(tree := u))
            && forall k {:trigger SameChild(u, ap.tree, k)} :: k != c ==> SameChild(u, ap.tree, k)
  {
    var more := kids[|KidsOf(ap.tree, c)|..];
    assert Edge(top, p, c) && Placed(top, c);
    LearnKnown(ap.tree, c, kids);
    TrueKidsTail(top, c, kids, |KidsOf(ap.tree, c)|);
    LearnOk(top, p, ap.tree, c, more);
  }

  lemma LearnKnown(t: Tree<Id>, c: Id, kids: seq<Id>)
    requires Unique(t) && KidsOf(t, c) <= kids
    ensures var more := kids[|KidsOf(t, c)|..];
            Learn(t, c, kids) == Learn(t, c, more) && kids == KidsOf(t, c) + more
  {
    var known := KidsOf(t, c);
    assert kids == known + kids[|known|..];
    KidsNoDup(t, c);
    LearnSkips(t, c, known, kids[|known|..]);
  }

  lemma TrueKidsTail(top: Topology, a: Id, kids: seq<Id>, k: nat)
    requires TrueKids(top, a, kids) && k <= |kids|
    ensures TrueKids(top, a, kids[k..])
  {
  }

  /** What the AP makes of it. */
  lemma UpdateOut(top: Topology, p: Id, ap: Ap, c: Id, m: Msg, total: nat)
    requires TopologyOk(top) && p in top.depth && TreeOk(top, p, ap.tree) && ap.id == p && ClientsOk(top, ap)
    requires c in KidsOf(ap.tree, p) && Conn(c) in ap.conns && m.Update? && m.source == c
    requires KidsOf(ap.tree, c) <= m.children && TrueKids(top, c, m.children) && NoDup(m.children)
    ensures var out, r := ApIncoming(ap, Conn(c), m, total), Learn(ap.tree, c, m.children);
            && out == ApOut(ap.(tree := r.0), r.1, ApSend(ap.(tree := r.0), Ack(p, c, total)), false)
            && out.tcp == Some(Packet(Conn(c), Ack(p, c, total)))
            && KidsOf(r.0, c) == m.children
            && forall k :: k != c ==> KidsOf(r.0, k) == KidsOf(ap.tree, k)
  {
    var u := Learn(ap.tree, c, m.children).0;
    UpdateTree(top, p, ap, c, m.children);
    KidIsThere(ap.tree, p, c);
    UpdateTaken(ap, Conn(c), m, total);
    AckToChild(top, p, ap.(tree := u), c, Ack(p, c, total));
    forall k | k != c ensures KidsOf(u, k) == KidsOf(ap.tree, k) {
      assert SameChild(u, ap.tree, k);
    }
  }

  lemma KidIsThere(t: Tree<Id>, p: Id, c: Id)
    requires t.root == p && c in KidsOf(t, p)
    ensures c in Pre(t)
  {
    var i :| 0 <= i < |t.kids| && t.kids[i].root == c;
    InSomeKid(t.kids, i, c);
  }

  lemma UpdateTaken(ap: Ap, conn: Conn, m: Msg, total: nat)
    requires conn in ap.conns && m.Update? && m.source in ap.clients && m.source in Pre(ap.tree)
    ensures var out, r := ApIncoming(ap, conn, m, total), Learn(ap.tree, m.source, m.children);
            out == ApOut(ap.(tree := r.0), r.1, ApSend(ap.(tree := r.0), Ack(ap.id, m.source, total)), false)
  {
  }

  /** Its list is longer than what the parent has, true and without repeats. */
  lemma UpdateIsNews(s: Net, c: Id, p: Id)
    requires Inv(s) && Edge(s.top, p, c) && c in s.nodes && p in s.nodes
    requires s.nodes[c].up != [] && s.nodes[c].up[0].Update? && s.nodes[c].up[0].source == c
    ensures var t, m := s.nodes[p].ap.tree, s.nodes[c].up[0];
            c in KidsOf(t, p) && KidsOf(t, c) <= m.children && TrueKids(s.top, c, m.children) && NoDup(m.children)
  {
    assert NodeOk(s, c) && NodeOk(s, p);
    ChainPrefix(s.top, c, s.nodes[c].up[0].children, s.nodes[c].up[1..], KidsOf(s.nodes[c].sta.tree, c));
    KidsNoDup(s.nodes[c].sta.tree, c);
  }

  /** An update of a child: its list at the parent becomes the list in the message, every
      other list stays, and the child gets an ACK. */
  lemma UpdateOk(s: Net, c: Id, p: Id)
    requires Inv(s) && Edge(s.top, p, c) && c in s.nodes && p in s.nodes && p != c
    requires s.nodes[c].up != [] && s.nodes[c].up[0].Update? && s.nodes[c].up[0].source == c
    requires Conn(c) in s.nodes[p].ap.conns
    ensures var ap, m := s.nodes[p].ap, s.nodes[c].up[0];
            var out := ApIncoming(ap, Conn(c), m, Length(m));
            && Delivers(s, c, p, out)
            && KidsOf(out.ap.tree, c) == m.children
            && (forall k :: k != c ==> KidsOf(out.ap.tree, k) == KidsOf(ap.tree, k))
            && out.tcp == Some(Packet(Conn(c), Ack(p, c, Length(m))))
  {
    assert NodeOk(s, p);
    var ap, m := s.nodes[p].ap, s.nodes[c].up[0];
    UpdateIsNews(s, c, p);
    UpdateTree(s.top, p, ap, c, m.children);
    UpdateOut(s.top, p, ap, c, m, Length(m));
    var r := Learn(ap.tree, c, m.children);
    ChildTells(s, c, p, ap.(tree := r.0), r.1, Ack(p, c, Length(m)));
  }

  /** News about a grandchild: the AP stays as it is, nothing goes over the UART, and an ACK
      to the grandchild goes down. */
  lemma FarUpdateOk(s: Net, c: Id, p: Id)
    requires Inv(s) && Edge(s.top, p, c) && c in s.nodes && p in s.nodes && p != c
    requires s.nodes[c].up != [] && s.nodes[c].up[0].Update? && s.nodes[c].up[0].source != c
    requires Conn(c) in s.nodes[p].ap.conns
    ensures var ap, m := s.nodes[p].ap, s.nodes[c].up[0];
            var out := ApIncoming(ap, Conn(c), m, Length(m));
            && Delivers(s, c, p, out)
            && out == ApOut(ap, [], Some(Packet(Conn(c), Ack(p, m.source, Length(m)))), false)
  {
    assert NodeOk(s, c) && NodeOk(s, p);
    var m, ap := s.nodes[c].up[0], s.nodes[p].ap;
    assert Edge(s.top, c, m.source) && !Edge(s.top, p, m.source);
    assert m.source !in ap.clients;
    PopUp(s, c);
    var s1 := With(s, c, s.nodes[c].(up := s.nodes[c].up[1..]));
    AfterApOk(s1, p, ApIncoming(ap, Conn(c), m, Length(m)), Ack(p, m.source, Length(m)));
    AckToChild(s.top, p, ap, c, Ack(p, m.source, Length(m)));
  }

  lemma RelayUpOk(s: Net, c: Id, p: Id)
    requires Inv(s) && Edge(s.top, p, c) && c in s.nodes && p in s.nodes && p != c
    requires s.nodes[c].up != [] && IsRelay(s.nodes[c].up[0])
    requires Conn(c) in s.nodes[p].ap.conns
    ensures var m := s.nodes[c].up[0]; Delivers(s, c, p, ApIncoming(s.nodes[p].ap, Conn(c), m, Length(m)))
  {
    assert NodeOk(s, p);
    var m, ap := s.nodes[c].up[0], s.nodes[p].ap;
    UniqueParts(ap.tree);
    PopUp(s, c);
    var s1 := With(s, c, s.nodes[c].(up := s.nodes[c].up[1..]));
    var out := ApIncoming(ap, Conn(c), m, Length(m));
    AfterApOk(s1, p, out, if m.Data? && m.dest == p then Ack(p, m.source, Length(m)) else m);
  }

  /** Every delivery to an AP keeps the invariant and never runs into its endless
      loop. */
  lemma DeliverUpOk(s: Net, c: Id)
    requires Inv(s) && c in s.nodes && s.nodes[c].up != []
    ensures Enabled(s, DeliverUp(c)) && Inv(Next(s, DeliverUp(c)))
    ensures var m, p := s.nodes[c].up[0], s.top.parent[c];
            !ApIncoming(s.nodes[p].ap, Conn(c), m, Length(m)).stuck
  {
    assert NodeOk(s, c);
    assert c in s.top.parent;
    assert Placed(s.top, c);
    var p := s.top.parent[c];
    assert NodeOk(s, p);
    assert Edge(s.top, p, c) && Conn(c) in s.nodes[p].ap.conns;
    var m := s.nodes[c].up[0];
    if m.Init? { InitOk(s, c, p); }
    else if IsRelay(m) { RelayUpOk(s, c, p); }
    else if m.Update? && m.source == c { UpdateOk(s, c, p); }
    else { FarUpdateOk(s, c, p); }
  }

  // -------------------------------------------------------------- the other queues

  lemma DeliverDownOk(s: Net, n: Id)
    requires Inv(s) && Enabled(s, DeliverDown(n))
    ensures Inv(Next(s, DeliverDown(n)))
  {
    assert NodeOk(s, n);
    var x := s.nodes[n];
    var m, y := x.down[0], x.(down := x.down[1..]);
    assert n in s.top.parent;
    assert LinkedUp(s, n, y);
    OneStation(s, n, y);
    assert DownOk(n, KidsOf(x.sta.tree, n), m);
    DepthTwoPath(x.sta.tree, m.dest);
    StaRelays(x.sta, n, m, Length(m));
    AfterStaOk(With(s, n, y), n, StaIncoming(x.sta, m, Length(m)));
  }

  lemma StaRelays(sta: Sta, n: Id, m: Msg, total: nat)
    requires IsRelay(m) && sta.id == n && (m.dest == n || Path(sta.tree, m.dest).Some?)
    ensures var out := StaIncoming(sta, m, total);
            && out.sta == sta.(delivered := out.sta.delivered)
            && (out.serial.Some? ==> ToApOk(out.sta.tree, out.serial.value))
            && (out.up.Some? ==> IsRelay(out.up.value))
  {
  }

  lemma SerialDownOk(s: Net, n: Id)
    requires Inv(s) && Enabled(s, SerialDown(n))
    ensures Inv(Next(s, SerialDown(n)))
  {
    assert NodeOk(s, n);
    var x := s.nodes[n];
    var y := x.(toAp := x.toAp[1..]);
    assert LinkedUp(s, n, y);
    OneStation(s, n, y);
    assert ToApOk(x.sta.tree, x.toAp[0]);
    AfterApOk(With(s, n, y), n, ApSerial(x.ap, x.toAp[0]), x.toAp[0].msg);
  }

  /** A tunnelled message at the STA: delivered, or on up. */
  lemma TunnelUpOk(s: Net, n: Id)
    requires Inv(s) && Enabled(s, SerialUp(n)) && s.nodes[n].toSta[0].Tunnel?
    ensures Inv(Next(s, SerialUp(n)))
  {
    assert NodeOk(s, n);
    var x := s.nodes[n];
    var y := x.(toSta := x.toSta[1..]);
    assert LinkedUp(s, n, y);
    OneStation(s, n, y);
    AfterStaOk(With(s, n, y), n, StaSerial(x.sta, x.toSta[0]));
  }

  /** The parent of a node is not in the node's own tree. */
  lemma ParentOutside(top: Topology, n: Id, t: Tree<Id>)
    requires TopologyOk(top) && n in top.depth && TreeOk(top, n, t)
    ensures Path(t, ParentOf(top, n)).None?
  {
    var d := ParentOf(top, n);
    DepthTwoPath(t, d);
    var c := if Path(t, d).Some? then Path(t, d).value else n;
    assert forall k :: k == c || k == d || k == n ==> k in top.parent ==> Placed(top, k);
  }

  /** A node-add at the STA: the tree grows, and the parent is told the new list. */
  lemma NodeAddTells(top: Topology, n: Id, x: Station)
    requires TopologyOk(top) && n in top.depth && StationOk(top, n, x)
    requires x.toSta != [] && x.toSta[0].NodeAdd?
    ensures var a, b := x.toSta[0].parent, x.toSta[0].child;
            var u := Insert(x.sta.tree, a, b);
            && StaSerial(x.sta, x.toSta[0]) ==
               StaOut(x.sta.(tree := u), None, Some(Update(a, x.sta.parent, KidsOf(u, a))))
            && KidsOf(u, n) == (if a == n then KidsOf(x.sta.tree, n) + [b] else KidsOf(x.sta.tree, n))
            && KidsOf(u, a) == KidsOf(x.sta.tree, a) + [b]
            && TrueKids(top, a, KidsOf(u, a)) && (a != n ==> Edge(top, n, a) && a in KidsOf(x.sta.tree, n))
  {
    var a, b, t := x.toSta[0].parent, x.toSta[0].child, x.sta.tree;
    var u := Insert(t, a, b);
    TreeAdd(top, n, t, a, b);
    ParentOutside(top, n, u);
    InsertLabels(t, a, b);
    TakesNodeAdd(x.sta, a, b, u);
  }

  lemma TakesNodeAdd(sta: Sta, a: Id, b: Id, u: Tree<Id>)
    requires AddAnyChild(sta.tree, a, b).0 == u && a in Pre(u) && Path(u, sta.parent).None?
    ensures StaSerial(sta, NodeAdd(a, b)) ==
            StaOut(sta.(tree := u), None, Some(Update(a, sta.parent, KidsOf(u, a))))
  {
  }

  lemma NodeAddStation(top: Topology, n: Id, x: Station)
    requires TopologyOk(top) && n in top.depth && StationOk(top, n, x)
    requires x.toSta != [] && x.toSta[0].NodeAdd?
    ensures var u := Insert(x.sta.tree, x.toSta[0].parent, x.toSta[0].child);
            StationOk(top, n, x.(sta := x.sta.(tree := u), toSta := x.toSta[1..]))
  {
    var a, b, t := x.toSta[0].parent, x.toSta[0].child, x.sta.tree;
    TreeAdd(top, n, t, a, b);
    forall i | 0 <= i < |x.toAp| ensures ToApOk(Insert(t, a, b), x.toAp[i]) {
      assert ToApOk(t, x.toAp[i]);
      InsertPath(t, a, b, x.toAp[i].msg.dest);
    }
  }

  /** At the node that is all that changes. */
  lemma NodeAddOk(s: Net, n: Id)
    requires Inv(s) && Enabled(s, SerialUp(n)) && s.nodes[n].toSta[0].NodeAdd?
    ensures Inv(Next(s, SerialUp(n)))
    ensures var x := s.nodes[n];
            var a, b := x.toSta[0].parent, x.toSta[0].child;
            var u := Insert(x.sta.tree, a, b);
            && KidsOf(u, a) == KidsOf(x.sta.tree, a) + [b]
            && Next(s, SerialUp(n)) ==
               With(s, n, x.(sta := x.sta.(tree := u), toSta := x.toSta[1..],
                             up := if n == s.top.root then x.up else x.up + [Update(a, x.sta.parent, KidsOf(u, a))]))
  {
    assert NodeOk(s, n);
    var x, y := s.nodes[n], Next(s, SerialUp(n)).nodes[n];
    NodeAddTells(s.top, n, x);
    NodeAddStation(s.top, n, x);
    var m := StaSerial(x.sta, x.toSta[0]).up.value;
    var z := x.(sta := y.sta, toSta := x.toSta[1..]);
    assert y == if n == s.top.root then z else z.(up := x.up + [m]);
    if n in s.top.parent {
      LinkPush(s.top, n, s.nodes[s.top.parent[n]].ap.tree, x, y, m);
    }
    OneStation(s, n, y);
    WithTwice(s, n, x.(toSta := x.toSta[1..]), y);
  }

  lemma WithTwice(s: Net, n: Id, x: Station, y: Station)
    ensures With(With(s, n, x), n, y) == With(s, n, y)
  {
    assert With(With(s, n, x), n, y).nodes == With(s, n, y).nodes;
  }

  // ----------------------------------------------------------------------- joining

  lemma JoinedTopology(was: Topology, c: Id, p: Id)
    requires TopologyOk(was) && c !in was.depth && c != NO_ID && p in was.depth && |Kids(was, p)| < MAX_CHILDREN
    ensures TopologyOk(Joined(was, c, p)) && Wider(was, Joined(was, c, p))
    ensures forall a, b :: Edge(Joined(was, c, p), a, b) ==> Edge(was, a, b) || (a == p && b == c)
  {
    var top := Joined(was, c, p);
    assert forall k :: k in was.parent ==> Placed(was, k);
    forall k | k in top.parent ensures Placed(top, k) {
      if k != c { assert Placed(was, k); }
    }
    JoinedKids(was, c, p);
  }

  lemma JoinedKids(was: Topology, c: Id, p: Id)
    requires c !in was.parent && c !in was.depth && p in was.depth && |Kids(was, p)| < MAX_CHILDREN
    requires forall k :: k in was.parent ==> was.parent[k] != c
    requires forall q :: q in was.depth ==> |Kids(was, q)| <= MAX_CHILDREN
    ensures var top := Joined(was, c, p); forall q :: q in top.depth ==> |Kids(top, q)| <= MAX_CHILDREN
  {
    var top := Joined(was, c, p);
    forall q | q in top.depth ensures |Kids(top, q)| <= MAX_CHILDREN {
      if q == c {
        assert Kids(top, c) == {};
      } else if q == p {
        assert Kids(top, p) == Kids(was, p) + {c};
      } else {
        assert Kids(top, q) == Kids(was, q);
      }
    }
  }

  lemma FreshOk(top: Topology, c: Id, p: Id, isRoot: bool, above: Tree<Id>)
    requires TopologyOk(top) && c in top.depth && p == ParentOf(top, c) && above.root == p
    requires forall x :: !Edge(top, c, x)
    requires c !in KidsOf(above, p)
    ensures var x := Fresh(c, isRoot, p);
            StationOk(top, c, x) && (c in top.parent ==> LinkOk(top, c, above, x))
  {
    var t := Leaf(c);
    assert Pre(t) == [c];
    assert forall a :: |KidsOf(t, a)| == 0;
    if c in top.parent { assert Placed(top, c); }
  }

  lemma StationWider(top: Topology, wide: Topology, n: Id, x: Station, conns: map<Conn, Client>)
    requires Wider(top, wide) && StationOk(top, n, x)
    requires n in top.parent <==> n in wide.parent
    requires forall k :: k in x.ap.conns ==> k in conns && conns[k] == x.ap.conns[k]
    requires forall k :: k in conns ==> Edge(wide, n, k.peer)
    requires forall b :: Edge(wide, n, b) && !Edge(top, n, b) ==>
               Conn(b) in conns && !conns[Conn(b)].idReceived && b !in KidsOf(x.ap.tree, n)
    ensures StationOk(wide, n, x.(ap := x.ap.(conns := conns)))
  {
    QueueWider(top, wide, n, x.sta.tree, x.toSta);
    assert n in top.parent ==> Edge(top, top.parent[n], n);
  }

  lemma JoinOk(s: Net, c: Id, p: Id, isRoot: bool)
    requires Inv(s) && CanJoin(s, c, p)
    ensures Inv(Next(s, Join(c, p, isRoot)))
  {
    JoinedTopology(s.top, c, p);
    var s1 := Next(s, Join(c, p, isRoot));
    var above := s.nodes[p].ap.tree;
    assert NodeOk(s, p);
    assert !Edge(s.top, p, c);
    forall x ensures !Edge(s1.top, c, x) {
      assert x in s.top.parent ==> Placed(s.top, x);
    }
    FreshOk(s1.top, c, p, isRoot, above);
    forall k | k in s1.nodes ensures NodeOk(s1, k) {
      if k != c { JoinOther(s, c, p, isRoot, k); }
    }
  }

  /** To the other nodes a join is a wider topology, and at the parent a connection
      on which no id has come yet. */
  lemma JoinOther(s: Net, c: Id, p: Id, isRoot: bool, k: Id)
    requires Inv(s) && CanJoin(s, c, p) && k in s.nodes && k != c
    requires Wider(s.top, Joined(s.top, c, p))
    requires forall a, b :: Edge(Joined(s.top, c, p), a, b) ==> Edge(s.top, a, b) || (a == p && b == c)
    ensures NodeOk(Next(s, Join(c, p, isRoot)), k)
  {
    var s1 := Next(s, Join(c, p, isRoot));
    assert NodeOk(s, k);
    JoinStation(s, c, p, isRoot, k);
    if k in s.top.parent {
      LinkWider(s.top, s1.top, k, s.nodes[s.top.parent[k]].ap.tree, s.nodes[k]);
    }
  }

  lemma JoinStation(s: Net, c: Id, p: Id, isRoot: bool, k: Id)
    requires TopologyOk(s.top) && CanJoin(s, c, p) && k in s.nodes && k != c && NodeOk(s, k)
    requires Wider(s.top, Joined(s.top, c, p))
    requires forall a, b :: Edge(Joined(s.top, c, p), a, b) ==> Edge(s.top, a, b) || (a == p && b == c)
    ensures StationOk(Joined(s.top, c, p), k, Next(s, Join(c, p, isRoot)).nodes[k])
  {
    assert !Edge(s.top, p, c);
    var s1 := Next(s, Join(c, p, isRoot));
    StationWider(s.top, s1.top, k, s.nodes[k], s1.nodes[k].ap.conns);
  }

  // ------------------------------------------------------------------------- runs

  lemma StartOk(root: Id, isRoot: bool)
    requires root != NO_ID
    ensures Inv(Start(root, isRoot))
  {
    var s := Start(root, isRoot);
    FreshOk(s.top, root, NO_ID, isRoot, Leaf(NO_ID));
  }

  /** Whatever happens next, the invariant holds after it. */
  lemma StepOk(s: Net, step: Step)
    requires Inv(s) && Enabled(s, step)
    ensures Inv(Next(s, step))
  {
    match step
    case Join(c, p, flag) => JoinOk(s, c, p, flag);
    case DeliverUp(c) => DeliverUpOk(s, c);
    case DeliverDown(n) => DeliverDownOk(s, n);
    case SerialUp(n) =>
      assert NodeOk(s, n);
      if s.nodes[n].toSta[0].NodeAdd? { NodeAddOk(s, n); } else { TunnelUpOk(s, n); }
    case SerialDown(n) => SerialDownOk(s, n);
    case ApSends(n, d, payload) => PostOk(s, n, Data(n, d, payload));
    case StaSends(n, d, payload) => AfterStaOk(s, n, StaSend(s.nodes[n].sta, Data(n, d, payload)));
    case StaSendsUp(n, d, payload) => AfterStaOk(s, n, StaOut(s.nodes[n].sta, None, Some(Data(n, d, payload))));
  }

  /** The invariant holds in every reachable state. */
  lemma {:induction false} RunOk(s: Net, steps: seq<Step>)
    requires Inv(s)
    ensures Inv(Run(s, steps))
    decreases |steps|
  {
    if steps != [] {
      if Enabled(s, steps[0]) {
        StepOk(s, steps[0]);
        RunOk(Next(s, steps[0]), steps[1..]);
      } else {
        RunOk(s, steps[1..]);
      }
    }
  }

  lemma ReachableOk(root: Id, isRoot: bool, steps: seq<Step>)
    requires root != NO_ID
    ensures Inv(Run(Start(root, isRoot), steps))
  {
    StartOk(root, isRoot);
    RunOk(Start(root, isRoot), steps);
  }
}
