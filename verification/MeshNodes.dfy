/** The two halves of a mesh node as objects with a linked tree each. What they do is
    what `Mesh` says; the messages they send are appended to `uart` and `sent`.
  */
module MeshNodes {
  import opened Bytes
  import opened Trees
  import opened TreeOps
  import opened Mesh
  import opened ChildrenTrees

  /** One more child of an update: passed over, or added and reported. */
  lemma LearnNext(t: Tree<Id>, source: Id, children: seq<Id>, sent: seq<Serial>)
    requires children != []
    ensures var x, more := children[0], children[1..];
            if x in Pre(t) then Learn(t, source, children) == Learn(t, source, more)
            else
              var u := AddAnyChild(t, source, x).0;
              && Learn(t, source, children).0 == Learn(u, source, more).0
              && sent + Learn(t, source, children).1 == (sent + [NodeAdd(source, x)]) + Learn(u, source, more).1
  {
  }

  class ApNode {
    var nodeId: Id
    var isRoot: bool
    var parent: Id
    const tree: ChildrenTree
    var clientTpcbs: map<Id, Conn>
    var clientsMap: map<Conn, Client>
    var uart: seq<Serial>  // sent over the UART
    var sent: seq<Packet>  // sent over TCP

    ghost predicate Valid()
      reads this, tree, tree.Repr
    {
      tree.Valid() && this !in tree.Repr
    }

    ghost function State(): Ap
      reads this, tree
    {
      Ap(nodeId, isRoot, parent, tree.Model(), clientTpcbs, clientsMap)
    }

    constructor (id: Id)
      ensures Valid() && fresh(tree) && fresh(tree.Repr)
      ensures State() == Ap(id, false, NO_ID, Leaf(id), map[], map[])
      ensures uart == [] && sent == []
    {
      nodeId, isRoot, parent := id, false, NO_ID;
      tree := new ChildrenTree(id);
      clientTpcbs, clientsMap := map[], map[];
      uart, sent := [], [];
    }

    /** A client has connected; its id is not known yet. */
    method Accept(pcb: Conn)
      requires Valid()
      modifies `clientsMap
      ensures Valid()
      ensures State() == old(State()).(conns := if pcb in old(clientsMap) then old(clientsMap)
                                                else old(clientsMap)[pcb := Client(false, 0)])
    {
      if pcb !in clientsMap {
        clientsMap := clientsMap[pcb := Client(false, 0)];
      }
    }

    method SendMsg(m: Msg) returns (err: int)
      requires Valid()
      modifies `sent
      ensures Valid() && State() == old(State())
      ensures sent == old(sent) + Opt(ApSend(old(State()), m))
      ensures err == if ApSend(old(State()), m).Some? || m.Init? then 0 else -1
    {
      var target: Id;
      match m {
        case Init(_, _) => return 0;
        case Data(_, d, _) => target := d;
        case Update(_, d, _) => target := d;
        case Ack(_, d, _) => target := d;
        case Nak(_, d, _, _) => target := d;
        case _ => return -1;
      }
      var found, hop := tree.FindPathParent(target);
      if !found { return -1; }
      if hop !in clientTpcbs { return -1; }
      sent := sent + [Packet(clientTpcbs[hop], m)];
      err := 0;
    }

    /** Down the tree or nowhere; the caller is not told which. Of the length only the
        lowest eight bits are taken. */
    method SendData(dest: Id, payload: seq<Byte>) returns (err: int)
      requires Valid()
      modifies `sent
      ensures Valid() && State() == old(State()) && err == 0
      ensures sent == old(sent) + Opt(ApSend(old(State()), Data(nodeId, dest, payload[..|payload| % 256])))
    {
      var sendErr := SendMsg(Data(nodeId, dest, payload[..|payload| % 256]));
      err := 0;
    }

    /** A client's init: its id is noted, it becomes a child, and the STA is told. */
    method TakeInit(source: Id, tpcb: Conn)
      requires Valid() && tpcb in clientsMap
      modifies this, tree, tree.Repr
      ensures Valid() && fresh(tree.Repr - old(tree.Repr))
      ensures State() == Register(old(State()), tpcb, source)
      ensures uart == old(uart) + [NodeAdd(nodeId, source)] && sent == old(sent)
    {
      if !clientsMap[tpcb].idReceived {
        clientsMap := clientsMap[tpcb := Client(true, source)];
      }
      var added := tree.AddAnyChild(nodeId, source);
      if clientsMap[tpcb].id !in clientTpcbs {
        clientTpcbs := clientTpcbs[clientsMap[tpcb].id := tpcb];
      }
      uart := uart + [NodeAdd(nodeId, source)];
    }

    /** An update's children: those the tree does not have yet are added under
        `source`, and the STA is told of each. */
    method TakeChildren(source: Id, children: seq<Id>)
      requires Valid()
      modifies this, tree, tree.Repr
      ensures Valid() && fresh(tree.Repr - old(tree.Repr))
      ensures State() == old(State()).(tree := Learn(old(tree.Model()), source, children).0)
      ensures uart == old(uart) + Learn(old(tree.Model()), source, children).1 && sent == old(sent)
    {
      ghost var t := tree.Model();
      assert children[0..] == children;
      for i := 0 to |children|
        invariant Valid() && fresh(tree.Repr - old(tree.Repr)) && sent == old(sent)
        invariant State() == old(State()).(tree := tree.Model())
        invariant Learn(t, source, children).0 == Learn(tree.Model(), source, children[i..]).0
        invariant old(uart) + Learn(t, source, children).1 == uart + Learn(tree.Model(), source, children[i..]).1
      {
        ghost var u := tree.Model();
        LearnNext(u, source, children[i..], uart);
        assert children[i..][1..] == children[i + 1..];
        var known := tree.NodeExists(children[i]);
        if !known {
          var added := tree.AddAnyChild(source, children[i]);
          uart := uart + [NodeAdd(source, children[i])];
        }
      }
    }

    /** A message of `total` bytes from the client on `tpcb`; `stuck` is the endless
        loop the source runs into where its tree has lost a client. */
    method HandleIncomingData(m: Msg, tpcb: Conn, total: nat) returns (ok: bool, stuck: bool)
      requires Valid() && tpcb in clientsMap
      modifies this, tree, tree.Repr
      ensures Valid() && fresh(tree.Repr - old(tree.Repr))
      ensures var out := ApIncoming(old(State()), tpcb, m, total);
              && ok && stuck == out.stuck && State() == out.ap
              && uart == old(uart) + out.serial && sent == old(sent) + Opt(out.tcp)
    {
      var ackFlag, sendToSta, msgSource := true, false, 0;
      ok, stuck := true, false;
      match m {
        case Init(source, _) =>
          msgSource := source;
          TakeInit(source, tpcb);
        case Data(source, dest, _) =>
          msgSource := source;
          if dest == nodeId {
            sendToSta := true;
          } else {
            var found, hop := tree.FindPathParent(dest);
            if found {
              var err := SendMsg(m);
            } else {
              sendToSta := true;
            }
            ackFlag := false;
          }
        case Disconnect(source) =>
          msgSource := source;
        case Update(source, _, children) =>
          msgSource := source;
          if !isRoot { sendToSta := true; }
          if source in clientTpcbs {
            var known := tree.NodeExists(source);
            if !known { stuck := true; return; }
            TakeChildren(source, children);
          }
        case Ack(source, dest, _) =>
          msgSource := source;
          if dest == nodeId {
            sendToSta := true;
          } else {
            var found, hop := tree.FindPathParent(dest);
            if found {
              var err := SendMsg(m);
            } else {
              sendToSta := true;
            }
          }
          ackFlag := false;
        case Nak(source, _, _, _) =>
          msgSource := source;
          ackFlag := false;
        case Unknown(_) =>
          ackFlag := false;
      }
      if ackFlag {
        var err := SendMsg(Ack(nodeId, msgSource, total));
      } else if sendToSta {
        uart := uart + [Tunnel(m)];
      }
    }

    method HandleSerialMessage(x: Serial)
      requires Valid()
      modifies `parent, `sent
      ensures Valid()
      ensures var out := ApSerial(old(State()), x);
              State() == out.ap && uart == old(uart) + out.serial && sent == old(sent) + Opt(out.tcp)
    {
      match x {
        case NodeAdd(p, _) => parent := p;
        case NodeRemove(_) => parent := NO_ID;
        case Tunnel(m) => HandleTransferringData(m);
        case FatalError(_) =>
      }
    }

    /** What comes over from the STA goes down the tree or nowhere. */
    method HandleTransferringData(m: Msg)
      requires Valid()
      modifies `sent
      ensures Valid() && State() == old(State()) && sent == old(sent) + Opt(ApSend(old(State()), m))
    {
      if m.Data? || m.Update? || m.Ack? || m.Nak? {
        var err := SendMsg(m);
      }
    }
  }

  class StaNode {
    var nodeId: Id
    var parent: Id
    const tree: ChildrenTree
    var rb: seq<Msg>      // handed to the application's ring buffer
    var uart: seq<Serial>
    var sent: seq<Msg>    // sent to the parent's AP

    ghost predicate Valid()
      reads this, tree, tree.Repr
    {
      tree.Valid() && this !in tree.Repr
    }

    ghost function State(): Sta
      reads this, tree
    {
      Sta(nodeId, parent, tree.Model(), rb)
    }

    constructor ()
      ensures Valid() && fresh(tree) && fresh(tree.Repr)
      ensures State() == Sta(0, NO_ID, Leaf(0), []) && uart == [] && sent == []
    {
      nodeId, parent, rb := 0, NO_ID, [];
      tree := new ChildrenTree(0);
      uart, sent := [], [];
    }

    /** The AP's first UART message gives the node its id. */
    method TakeId(apId: Id)
      requires Valid()
      modifies this, tree, tree.Repr
      ensures Valid() && tree.Repr == old(tree.Repr)
      ensures State() == old(State()).(id := apId, tree := Node(apId, old(tree.Model()).kids))
    {
      tree.EditHead(apId);
      nodeId := apId;
    }

    method SendMsg(m: Msg) returns (err: int)
      requires Valid()
      modifies `uart, `sent
      ensures Valid() && State() == old(State())
      ensures var out := StaSend(old(State()), m);
              uart == old(uart) + Opt(out.serial) && sent == old(sent) + Opt(out.up)
      ensures err == if m.Disconnect? || m.Unknown? then -1 else 0
    {
      var target: Id;
      match m {
        case Init(_, _) => return 0;
        case Data(_, d, _) => target := d;
        case Update(_, d, _) => target := d;
        case Ack(_, d, _) => target := d;
        case Nak(_, d, _, _) => target := d;
        case _ => return -1;
      }
      var found, hop := tree.FindPathParent(target);
      if !found {
        sent := sent + [m];
      } else {
        uart := uart + [Tunnel(m)];
      }
      err := 0;
    }

    /** Always up, whoever it is for. Of the length only the lowest eight bits are taken. */
    method SendData(dest: Id, payload: seq<Byte>)
      requires Valid()
      modifies `sent
      ensures Valid() && State() == old(State())
      ensures sent == old(sent) + [Data(nodeId, dest, payload[..|payload| % 256])]
    {
      sent := sent + [Data(nodeId, dest, payload[..|payload| % 256])];
    }

    method HandleIncomingData(m: Msg, total: nat)
      requires Valid() && (m.Update? ==> |m.children| <= MAX_CHILDREN)
      modifies this, tree, tree.Repr
      ensures Valid() && fresh(tree.Repr - old(tree.Repr))
      ensures var out := StaIncoming(old(State()), m, total);
              && State() == out.sta
              && uart == old(uart) + Opt(out.serial) && sent == old(sent) + Opt(out.up)
    {
      var sourceId, ackFlag, selfReply, sendToAp := 0, false, false, false;
      match m {
        case Init(source, _) =>
          sourceId := source;
          var added := tree.AddChild(source);
        case Data(source, dest, _) =>
          if dest == nodeId {
            sourceId := source;
            rb := rb + [m];
            ackFlag := true;
          } else {
            var found, hop := tree.FindPathParent(dest);
            if found {
              sendToAp := true;
            } else {
              var err := SendMsg(m);
            }
          }
        case Disconnect(_) =>
        case Update(source, _, children) =>
          var idBuffer := new Id[MAX_CHILDREN](i => if 0 <= i < |children| then children[i] else 0);
          assert idBuffer[..|children|] == children;
          var updated := tree.UpdateNode(source, idBuffer, |children|);
        case Ack(source, dest, _) =>
          sourceId := source;
          if dest == nodeId {
            selfReply := true;
          } else {
            var found, hop := tree.FindPathParent(dest);
            if found {
              sendToAp := true;
            } else {
              var err := SendMsg(m);
            }
          }
        case Nak(_, _, _, _) =>
          selfReply := true;
        case Unknown(_) =>
          ackFlag := false;
      }
      if sendToAp {
        uart := uart + [Tunnel(m)];
        return;
      }
      if ackFlag && !selfReply {
        sent := sent + [Ack(nodeId, sourceId, total)];
      }
    }

    method HandleSerialMessage(x: Serial)
      requires Valid() && (x.Tunnel? && x.msg.Update? ==> |x.msg.children| <= MAX_CHILDREN)
      modifies this, tree, tree.Repr
      ensures Valid() && fresh(tree.Repr - old(tree.Repr))
      ensures var out := StaSerial(old(State()), x);
              && State() == out.sta
              && uart == old(uart) + Opt(out.serial) && sent == old(sent) + Opt(out.up)
    {
      match x {
        case NodeAdd(p, c) =>
          var added := tree.AddAnyChild(p, c);
          var children := new Id[MAX_CHILDREN](_ => 0);
          var found, n := tree.GetChildren(p, children);
          if !found { return; }
          var err := SendMsg(Update(p, parent, children[..n]));
        case NodeRemove(_) =>
        case Tunnel(m) => HandleIncomingData(m, TunnelLength(m));
        case FatalError(_) =>
      }
    }
  }
}
