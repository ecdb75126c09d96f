/** The two halves of a mesh node as functions: what each handler does to the state
    of the half, and what it sends.

    The AP half serves the children's TCP connections, the STA half holds the
    connection to the parent's AP, and a UART joins the two.
  */
module Mesh {
  import opened Bytes
  import opened Trees
  import opened TreeOps
  import LevelOrder

  /** A TCP message, by `msg_id`. */
  datatype Msg =
    | Init(source: Id, parent: Id)                             // 0x00
    | Data(source: Id, dest: Id, payload: seq<Byte>)           // 0x01
    | Disconnect(source: Id)                                   // 0x02
    | Update(source: Id, dest: Id, children: seq<Id>)          // 0x03
    | Ack(source: Id, dest: Id, received: nat)                 // 0x04
    | Nak(source: Id, dest: Id, received: nat, error: Byte)    // 0x05
    | Unknown(msgId: Byte)

  /** A UART message, by `msg_id`. */
  datatype Serial =
    | NodeAdd(parent: Id, child: Id)  // 0x00
    | NodeRemove(node: Id)            // 0x01
    | Tunnel(msg: Msg)                // 0x02
    | FatalError(error: Id)           // 0x03

  /** Total length of a message as its header gives it. */
  function Length(m: Msg): nat {
    match m
    case Init(_, _) => 12
    case Data(_, _, p) => 14 + if |p| > 128 then 128 else |p|
    case Disconnect(_) => 30
    case Update(_, _, _) => 29
    case Ack(_, _, _) => 14
    case Nak(_, _, _, _) => 15
    case Unknown(_) => 0
  }

  /** Bytes of a message that one UART message holds. */
  function TunnelLength(m: Msg): nat {
    if Length(m) > 123 then 123 else Length(m)
  }

  /** A pcb, named by the node at its far end. */
  datatype Conn = Conn(peer: Id)

  datatype Client = Client(idReceived: bool, id: Id)

  datatype Packet = Packet(conn: Conn, msg: Msg)

  function Opt<T>(o: Option<T>): seq<T> {
    if o.None? then [] else [o.value]
  }

  // -------------------------------------------------------------------- AP half

  datatype Ap = Ap(
    id: Id,
    isRoot: bool,
    parent: Id,
    tree: Tree<Id>,
    clients: map<Id, Conn>,      // client_tpcbs
    conns: map<Conn, Client>)    // clients_map

  /** What a handler of the AP leaves behind. `stuck` is its endless loop. */
  datatype ApOut = ApOut(ap: Ap, serial: seq<Serial>, tcp: Option<Packet>, stuck: bool)

  /** Where `send_msg` wants a message to go. An init or an unknown id is not sent,
      and a disconnect has length 0 there. */
  function Target(m: Msg): Option<Id> {
    match m
    case Data(_, d, _) => Some(d)
    case Update(_, d, _) => Some(d)
    case Ack(_, d, _) => Some(d)
    case Nak(_, d, _, _) => Some(d)
    case _ => None
  }

  /** `send_msg` of the AP: down the connection of the first hop, or not at all. */
  function ApSend(ap: Ap, m: Msg): Option<Packet> {
    var d := Target(m);
    if d.None? then None
    else
      var hop := Path(ap.tree, d.value);
      if hop.None? || hop.value !in ap.clients then None
      else Some(Packet(ap.clients[hop.value], m))
  }

  /** A message for another node: down the tree if it knows the node, else over to
      the STA. */
  function ApRelay(ap: Ap, m: Msg, dest: Id): ApOut {
    if Path(ap.tree, dest).Some? then ApOut(ap, [], ApSend(ap, m), false)
    else ApOut(ap, [Tunnel(m)], None, false)
  }

  /** The children of a client that are new to the tree, added one by one; each one
      is reported over the UART, whether or not there was room for it. */
  function Learn(t: Tree<Id>, source: Id, children: seq<Id>): (Tree<Id>, seq<Serial>)
    decreases |children|
  {
    if children == [] then (t, [])
    else if children[0] in Pre(t) then Learn(t, source, children[1..])
    else
      var (t1, adds) := Learn(AddAnyChild(t, source, children[0]).0, source, children[1..]);
      (t1, [NodeAdd(source, children[0])] + adds)
  }

  function Register(ap: Ap, conn: Conn, source: Id): Ap
    requires conn in ap.conns
  {
    var c := ap.conns[conn];
    var c1 := if c.idReceived then c else Client(true, source);
    ap.(conns := ap.conns[conn := c1],
        tree := AddAnyChild(ap.tree, ap.id, source).0,
        clients := if c1.id in ap.clients then ap.clients else ap.clients[c1.id := conn])
  }

  function Acked(ap: Ap, serial: seq<Serial>, source: Id, total: nat): ApOut {
    ApOut(ap, serial, ApSend(ap, Ack(ap.id, source, total)), false)
  }

  /** `handle_incoming_data` of the AP: a message of `total` bytes on `conn`. Where
      an ACK goes out nothing goes over to the STA. */
  function ApIncoming(ap: Ap, conn: Conn, m: Msg, total: nat): ApOut
    requires conn in ap.conns
  {
    match m
    case Init(source, _) =>
      Acked(Register(ap, conn, source), [NodeAdd(ap.id, source)], source, total)
    case Data(source, dest, _) =>
      if dest == ap.id then Acked(ap, [], source, total) else ApRelay(ap, m, dest)
    case Disconnect(source) => Acked(ap, [], source, total)
    case Update(source, _, children) =>
      if source !in ap.clients then Acked(ap, [], source, total)
      else if source !in Pre(ap.tree) then ApOut(ap, [], None, true)
      else
        var (t, adds) := Learn(ap.tree, source, children);
        Acked(ap.(tree := t), adds, source, total)
    case Ack(_, dest, _) =>
      if dest == ap.id then ApOut(ap, [Tunnel(m)], None, false) else ApRelay(ap, m, dest)
    case Nak(_, _, _, _) => ApOut(ap, [], None, false)
    case Unknown(_) => ApOut(ap, [], None, false)
  }

  /** `handle_serial_message` of the AP. */
  function ApSerial(ap: Ap, x: Serial): ApOut {
    match x
    case NodeAdd(p, _) => ApOut(ap.(parent := p), [], None, false)
    case NodeRemove(_) => ApOut(ap.(parent := NO_ID), [], None, false)
    case Tunnel(m) => ApOut(ap, [], ApSend(ap, m), false)
    case FatalError(_) => ApOut(ap, [], None, false)
  }

  // ------------------------------------------------------------------- STA half

  datatype Sta = Sta(
    id: Id,
    parent: Id,
    tree: Tree<Id>,
    delivered: seq<Msg>)  // what went into the ring buffer of the application

  datatype StaOut = StaOut(sta: Sta, serial: Option<Serial>, up: Option<Msg>)

  /** `send_msg` of the STA: over to the AP if the tree knows the node, else up. */
  function StaSend(sta: Sta, m: Msg): StaOut {
    var d := Target(m);
    if d.None? then StaOut(sta, None, None)
    else if Path(sta.tree, d.value).None? then StaOut(sta, None, Some(m))
    else StaOut(sta, Some(Tunnel(m)), None)
  }

  /** `handle_incoming_data` of the STA: a message from the parent's AP or out of a
      UART message. */
  function StaIncoming(sta: Sta, m: Msg, total: nat): StaOut {
    match m
    case Init(source, _) => StaOut(sta.(tree := LevelOrder.AddChild(sta.tree, source)), None, None)
    case Data(source, dest, _) =>
      if dest == sta.id then
        StaOut(sta.(delivered := sta.delivered + [m]), None, Some(Ack(sta.id, source, total)))
      else if Path(sta.tree, dest).Some? then StaOut(sta, Some(Tunnel(m)), None)
      else StaSend(sta, m)
    case Disconnect(_) => StaOut(sta, None, None)
    case Update(source, _, children) =>
      StaOut(sta.(tree := UpdateNode(sta.tree, source, children).0), None, None)
    case Ack(_, dest, _) =>
      if dest == sta.id then StaOut(sta, None, None)
      else if Path(sta.tree, dest).Some? then StaOut(sta, Some(Tunnel(m)), None)
      else StaSend(sta, m)
    case Nak(_, _, _, _) => StaOut(sta, None, None)
    case Unknown(_) => StaOut(sta, None, None)
  }

  /** `handle_serial_message` of the STA: a new tree edge is recorded and the parent
      is told the new child list; a tunnelled message is handled like any other. */
  function StaSerial(sta: Sta, x: Serial): StaOut {
    match x
    case NodeAdd(p, c) =>
      var t := AddAnyChild(sta.tree, p, c).0;
      var sta1 := sta.(tree := t);
      if p !in Pre(t) then StaOut(sta1, None, None)
      else StaSend(sta1, Update(p, sta.parent, KidsOf(t, p)))
    case NodeRemove(_) => StaOut(sta, None, None)
    case Tunnel(m) => StaIncoming(sta, m, TunnelLength(m))
    case FatalError(_) => StaOut(sta, None, None)
  }
}
