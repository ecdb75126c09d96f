/** What the handlers of a node do, told by their effects: what is handed over, passed on,
    answered or taken in, in any state of the node and for any message.
  */
module Handlers {
  import opened Bytes
  import opened Trees
  import opened TreeOps
  import opened Mesh
  import LevelOrder

  // --------------------------------------------------------------- where send_msg sends

  /** The child of the root on the way to `d`: the first whose subtree holds it. */
  ghost predicate LeadsTo(t: Tree<Id>, i: nat, d: Id) {
    i < |t.kids| && d in Pre(t.kids[i]) && forall j :: 0 <= j < i ==> d !in Pre(t.kids[j])
  }

  lemma {:induction false} FirstSubtree(f: seq<Tree<Id>>, d: Id) returns (i: nat)
    requires d in PreAll(f)
    ensures i < |f| && d in Pre(f[i]) && forall j :: 0 <= j < i ==> d !in Pre(f[j])
    ensures PathAll(f, d) == Some(f[i].root)
    decreases |f|
  {
    if d in Pre(f[0]) {
      i := 0;
    } else {
      var k := FirstSubtree(f[1..], d);
      i := k + 1;
      assert forall j :: 1 <= j < i ==> f[j] == f[1..][j - 1];
    }
  }

  /** `send_msg` of the AP sends data, updates, ACKs and NAKs, and nothing else, to a node
      below it: over the connection of the child on the way, unchanged. */
  lemma ApSendsExactly(ap: Ap, m: Msg) returns (i: nat)
    ensures ApSend(ap, m).Some? ==>
              && (m.Data? || m.Update? || m.Ack? || m.Nak?)
              && LeadsTo(ap.tree, i, m.dest) && ap.tree.kids[i].root in ap.clients
              && ApSend(ap, m) == Some(Packet(ap.clients[ap.tree.kids[i].root], m))
    ensures ApSend(ap, m).None? ==>
              || !(m.Data? || m.Update? || m.Ack? || m.Nak?)
              || m.dest !in PreAll(ap.tree.kids)
              || (LeadsTo(ap.tree, i, m.dest) && ap.tree.kids[i].root !in ap.clients)
  {
    i := 0;
    if (m.Data? || m.Update? || m.Ack? || m.Nak?) && m.dest in PreAll(ap.tree.kids) {
      i := FirstSubtree(ap.tree.kids, m.dest);
    }
  }

  /** `send_msg` of the STA sends the same four, each exactly once and unchanged: over to the
      AP what is for a node below, up all else. */
  lemma StaSendsExactly(sta: Sta, m: Msg)
    ensures var out := StaSend(sta, m);
            && out.sta == sta
            && (out.serial == Some(Tunnel(m)) <==>
                  (m.Data? || m.Update? || m.Ack? || m.Nak?) && m.dest in PreAll(sta.tree.kids))
            && (out.up == Some(m) <==>
                  (m.Data? || m.Update? || m.Ack? || m.Nak?) && m.dest !in PreAll(sta.tree.kids))
            && (out.serial.Some? ==> out.serial == Some(Tunnel(m))) && (out.up.Some? ==> out.up == Some(m))
  {
  }

  // -------------------------------------------------------------------- the AP's handler

  /** Messages the AP answers: an init, a disconnect, an update, and data for its node. */
  predicate Answered(ap: Ap, m: Msg) {
    m.Init? || m.Disconnect? || m.Update? || (m.Data? && m.dest == ap.id)
  }

  /** It is stuck if it gets an update from a client its tree has lost, and only then. If not,
      it answers with one ACK or passes on the message or hands it over, as it came, or does
      nothing; never two of these. Handed over are data and ACKs that its tree has no path
      for, and ACKs for its node. */
  lemma ApHandles(ap: Ap, conn: Conn, m: Msg, total: nat)
    requires conn in ap.conns
    ensures var out := ApIncoming(ap, conn, m, total);
            && (out.stuck <==> m.Update? && m.source in ap.clients && m.source !in Pre(ap.tree))
            && (Answered(ap, m) && !out.stuck ==> out.tcp == ApSend(out.ap, Ack(ap.id, m.source, total)))
            && (!Answered(ap, m) ==> out.tcp == if (m.Data? || m.Ack?) && m.dest != ap.id then ApSend(ap, m) else None)
            && (forall x :: Tunnel(x) in out.serial <==>
                  && x == m && (m.Data? || m.Ack?)
                  && if m.dest == ap.id then m.Ack? else m.dest !in PreAll(ap.tree.kids))
            && (forall x :: x in out.serial ==> x.Tunnel? || x.NodeAdd?)
  {
    if m.Update? { LearnsOnly(ap.tree, m.source, m.children); }
  }

  lemma {:induction false} LearnsOnly(t: Tree<Id>, source: Id, children: seq<Id>)
    ensures forall x :: x in Learn(t, source, children).1 ==> x.NodeAdd?
    decreases |children|
  {
    if children != [] {
      LearnsOnly(t, source, children[1..]);
      LearnsOnly(AddAnyChild(t, source, children[0]).0, source, children[1..]);
    }
  }

  /** Its state changes by an init, which changes tree and connections, and by an update of a
      client, which changes the tree; its node-adds are those of these two. */
  lemma ApChanges(ap: Ap, conn: Conn, m: Msg, total: nat)
    requires conn in ap.conns
    ensures var out := ApIncoming(ap, conn, m, total);
            && (!m.Init? && !(m.Update? && m.source in ap.clients) ==>
                  out.ap == ap && forall x :: x in out.serial ==> x.Tunnel?)
            && (m.Update? && m.source in ap.clients && m.source in Pre(ap.tree) ==>
                  (out.ap, out.serial) == (ap.(tree := Learn(ap.tree, m.source, m.children).0),
                                           Learn(ap.tree, m.source, m.children).1))
            && (m.Init? ==> out.ap == ap.(tree := out.ap.tree, clients := out.ap.clients, conns := out.ap.conns)
                            && out.serial == [NodeAdd(ap.id, m.source)])
  {
  }

  /** An init names its connection once: an id that has a connection keeps it, a connection
      that has an id keeps it, and a first init enters both ways. The child is added if the
      root has a free place. */
  lemma NamedOnce(ap: Ap, conn: Conn, source: Id)
    requires conn in ap.conns
    ensures var ap1 := Register(ap, conn, source);
            var named := if ap.conns[conn].idReceived then ap.conns[conn].id else source;
            && ap1.conns.Keys == ap.conns.Keys && ap1.clients.Keys == ap.clients.Keys + {named}
            && (forall k :: k in ap.conns && (k != conn || ap.conns[k].idReceived) ==> ap1.conns[k] == ap.conns[k])
            && ap1.conns[conn].idReceived && ap1.conns[conn].id == named
            && (forall x :: x in ap.clients ==> ap1.clients[x] == ap.clients[x])
            && (named !in ap.clients ==> ap1.clients[named] == conn)
            && (ap.tree.root == ap.id ==>
                  KidsOf(ap1.tree, ap.id) == KidsOf(ap.tree, ap.id) + if |ap.tree.kids| < 4 then [source] else [])
  {
    if ap.tree.root == ap.id {
      InsertKids(ap.tree, ap.id, source, ap.id);
      assert KidsOf(ap.tree, ap.id) == Labels(ap.tree.kids);
    }
  }

  // ------------------------------------------------------------------- an update's list

  /** The ids of a list that the tree has not, in their order. */
  function News(t: Tree<Id>, children: seq<Id>): seq<Id> {
    if children == [] then []
    else (if children[0] in Pre(t) then [] else [children[0]]) + News(t, children[1..])
  }

  function Reports(source: Id, ids: seq<Id>): (r: seq<Serial>)
    ensures |r| == |ids| && forall i :: 0 <= i < |r| ==> r[i] == NodeAdd(source, ids[i])
  {
    seq(|ids|, i requires 0 <= i < |ids| => NodeAdd(source, ids[i]))
  }

  function First4(s: seq<Id>): seq<Id> {
    if |s| <= 4 then s else s[..4]
  }

  lemma {:induction false} SameNews(t: Tree<Id>, u: Tree<Id>, children: seq<Id>)
    requires forall x :: x in children ==> (x in Pre(t) <==> x in Pre(u))
    ensures News(t, children) == News(u, children)
  {
    if children != [] { SameNews(t, u, children[1..]); }
  }

  /** From a list without repeats each id that is new is reported, in order, whether there is
      room for it or not; the client's list grows by as many as fit its four places. */
  lemma {:induction false} LearnExactly(t: Tree<Id>, source: Id, children: seq<Id>)
    requires NoDup(children) && source in Pre(t) && |KidsOf(t, source)| <= 4
    ensures var (u, adds) := Learn(t, source, children);
            && adds == Reports(source, News(t, children))
            && KidsOf(u, source) == First4(KidsOf(t, source) + News(t, children))
            && forall b :: b != source && b !in children ==> KidsOf(u, b) == KidsOf(t, b)
    decreases |children|
  {
    if children == [] {
      assert KidsOf(t, source) + [] == KidsOf(t, source);
    } else {
      var x, more := children[0], children[1..];
      if x in Pre(t) {
        LearnExactly(t, source, more);
      } else {
        assert [x] + more == children;
        LearnOne(t, source, x, more);
        var t1 := AddAnyChild(t, source, x).0;
        LearnExactly(t1, source, more);
        LearnsNew(t, t1, source, x, more, children);
      }
    }
  }

  lemma LearnsNew(t: Tree<Id>, t1: Tree<Id>, source: Id, x: Id, more: seq<Id>, children: seq<Id>)
    requires children != [] && children[0] == x && children[1..] == more && x !in Pre(t)
    requires t1 == AddAnyChild(t, source, x).0 && |KidsOf(t, source)| <= 4
    requires KidsOf(t1, source) == First4(KidsOf(t, source) + [x])
    requires forall y :: y in more ==> (y in Pre(t) <==> y in Pre(t1))
    requires Learn(t1, source, more).1 == Reports(source, News(t1, more))
    requires KidsOf(Learn(t1, source, more).0, source) == First4(KidsOf(t1, source) + News(t1, more))
    ensures Learn(t, source, children).1 == Reports(source, News(t, children))
    ensures KidsOf(Learn(t, source, children).0, source) == First4(KidsOf(t, source) + News(t, children))
    ensures Learn(t, source, children).0 == Learn(t1, source, more).0
  {
    var ks, news := KidsOf(t, source), News(t, more);
    SameNews(t, t1, more);
    LearnUnfolds(t, t1, source, children);
    FirstFour(ks, x, news);
    ReportsHead(source, x, news);
  }

  lemma LearnUnfolds(t: Tree<Id>, t1: Tree<Id>, source: Id, children: seq<Id>)
    requires children != [] && children[0] !in Pre(t) && t1 == AddAnyChild(t, source, children[0]).0
    ensures Learn(t, source, children).0 == Learn(t1, source, children[1..]).0
    ensures Learn(t, source, children).1 == [NodeAdd(source, children[0])] + Learn(t1, source, children[1..]).1
    ensures News(t, children) == [children[0]] + News(t, children[1..])
  {
  }

  lemma ReportsHead(source: Id, x: Id, more: seq<Id>)
    ensures Reports(source, [x] + more) == [NodeAdd(source, x)] + Reports(source, more)
  {
  }

  lemma LearnOne(t: Tree<Id>, source: Id, x: Id, more: seq<Id>)
    requires NoDup([x] + more) && source in Pre(t) && x !in Pre(t) && |KidsOf(t, source)| <= 4
    ensures var t1 := AddAnyChild(t, source, x).0;
            && source in Pre(t1) && KidsOf(t1, source) == First4(KidsOf(t, source) + [x])
            && (forall y :: y in more ==> (y in Pre(t) <==> y in Pre(t1)))
            && forall b :: b != source && b != x ==> KidsOf(t1, b) == KidsOf(t, b)
  {
    NoDupParts([x], more);
    if |KidsOf(t, source)| < 4 {
      InsertLabels(t, source, x);
      InsertKids(t, source, x, source);
      forall b | b != source && b != x ensures KidsOf(Insert(t, source, x), b) == KidsOf(t, b) {
        InsertKids(t, source, x, b);
      }
    }
  }

  lemma FirstFour(ks: seq<Id>, x: Id, more: seq<Id>)
    requires |ks| <= 4
    ensures First4(First4(ks + [x]) + more) == First4(ks + ([x] + more))
  {
    assert (ks + [x]) + more == ks + ([x] + more);
  }

  // --------------------------------------------------------------- UART messages of an AP

  function TakeAll(ap: Ap, xs: seq<Serial>): Ap
    decreases |xs|
  {
    if xs == [] then ap else TakeAll(ApSerial(ap, xs[0]).ap, xs[1..])
  }

  /** From its STA an AP learns of its parent: it is the one last added, or none if it has
      been removed since. Nothing else changes, and nothing goes back over the UART. */
  lemma {:induction false} ParentIsTheLastTold(ap: Ap, xs: seq<Serial>, i: nat)
    requires i < |xs| && (xs[i].NodeAdd? || xs[i].NodeRemove?)
    requires forall j :: i < j < |xs| ==> !xs[j].NodeAdd? && !xs[j].NodeRemove?
    ensures TakeAll(ap, xs) == ap.(parent := if xs[i].NodeAdd? then xs[i].parent else 0xFFFF_FFFF)
    ensures ApSerial(ap, xs[i]).serial == [] && ApSerial(ap, xs[i]).tcp == None
    decreases |xs|
  {
    if i > 0 {
      ParentIsTheLastTold(ApSerial(ap, xs[0]).ap, xs[1..], i - 1);
    } else {
      NoneTold(ApSerial(ap, xs[0]).ap, xs[1..]);
    }
  }

  lemma {:induction false} NoneTold(ap: Ap, xs: seq<Serial>)
    requires forall j :: 0 <= j < |xs| ==> !xs[j].NodeAdd? && !xs[j].NodeRemove?
    ensures TakeAll(ap, xs) == ap
    decreases |xs|
  {
    if xs != [] { NoneTold(ap, xs[1..]); }
  }

  // -------------------------------------------------------------------- the STA's handler

  /** Exactly data for the node is taken in, and exactly that is answered, with the bytes
      received. Data and ACKs for others leave as they came, each exactly once: over to the AP
      if they are for a node below, else up. Of all else nothing leaves. The tree grows by an
      init in level order, takes on the list of an update, and changes in no other way. */
  lemma StaHandles(sta: Sta, m: Msg, total: nat)
    ensures var out := StaIncoming(sta, m, total);
            var mine := m.Data? && m.dest == sta.id;
            var passed := (m.Data? || m.Ack?) && m.dest != sta.id;
            && out.sta.delivered == sta.delivered + (if mine then [m] else [])
            && (out.up.Some? <==> mine || (passed && m.dest !in PreAll(sta.tree.kids)))
            && (out.serial.Some? <==> passed && m.dest in PreAll(sta.tree.kids))
            && (mine ==> out.up == Some(Ack(sta.id, m.source, total)))
            && (passed ==> if out.up.Some? then out.up == Some(m) else out.serial == Some(Tunnel(m)))
            && out.sta == sta.(tree := out.sta.tree, delivered := out.sta.delivered)
            && out.sta.tree == if m.Init? then LevelOrder.AddChild(sta.tree, m.source)
                               else if m.Update? then UpdateNode(sta.tree, m.source, m.children).0
                               else sta.tree
  {
  }

  /** What comes over the UART is handled like that, of at most 123 bytes. A node-remove or
      an error changes nothing. */
  lemma StaHearsAp(sta: Sta, x: Serial)
    ensures var out := StaSerial(sta, x);
            && (x.Tunnel? ==> out == StaIncoming(sta, x.msg, if Length(x.msg) > 123 then 123 else Length(x.msg)))
            && (x.NodeRemove? || x.FatalError? ==> out == StaOut(sta, None, None))
  {
  }

  /** A node-add is recorded if there is room for it. The list that the STA now has of the
      node is told to the parent whenever the node is in the tree. */
  lemma StaReports(sta: Sta, p: Id, c: Id)
    ensures var out := StaSerial(sta, NodeAdd(p, c));
            && out.sta == sta.(tree := out.sta.tree)
            && (p !in Pre(sta.tree) ==> out == StaOut(sta, None, None))
            && (p in Pre(sta.tree) ==>
                  var ks := KidsOf(sta.tree, p) + if |KidsOf(sta.tree, p)| < 4 then [c] else [];
                  var told := Update(p, sta.parent, ks);
                  && KidsOf(out.sta.tree, p) == ks
                  && if sta.parent in PreAll(out.sta.tree.kids) then out.serial == Some(Tunnel(told)) && out.up == None
                     else out.up == Some(told) && out.serial == None)
  {
    var t := AddAnyChild(sta.tree, p, c).0;
    if p in Pre(sta.tree) {
      ListGrows(sta.tree, p, c);
      Tells(sta, p, c, t);
    }
  }

  lemma ListGrows(t: Tree<Id>, p: Id, c: Id)
    requires p in Pre(t)
    ensures var t1 := AddAnyChild(t, p, c).0;
            p in Pre(t1) && KidsOf(t1, p) == KidsOf(t, p) + if |KidsOf(t, p)| < 4 then [c] else []
  {
    if |KidsOf(t, p)| < 4 {
      InsertLabels(t, p, c);
      InsertKids(t, p, c, p);
    }
  }

  lemma Tells(sta: Sta, p: Id, c: Id, t: Tree<Id>)
    requires t == AddAnyChild(sta.tree, p, c).0 && p in Pre(t)
    ensures var told := Update(p, sta.parent, KidsOf(t, p));
            StaSerial(sta, NodeAdd(p, c)) ==
            if sta.parent in PreAll(t.kids) then StaOut(sta.(tree := t), Some(Tunnel(told)), None)
            else StaOut(sta.(tree := t), None, Some(told))
  {
  }
}
