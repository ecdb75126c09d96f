/** The mesh as a transition system.

    A state is the true topology, and for each node its two halves with the queues
    it reads from: UART messages for its STA and for its AP, and the two directions
    of the TCP connection to its parent's AP. Every step is one call of a handler on
    the head of one queue, a node joining, or an application sending.
  */
module Network {
  import opened Bytes
  import opened Trees
  import opened TreeOps
  import opened Mesh

  // ------------------------------------------------------------------- topology

  /** Who hangs under whom, and how far from the root. */
  datatype Topology = Topology(root: Id, parent: map<Id, Id>, depth: map<Id, nat>)

  predicate Edge(top: Topology, a: Id, b: Id) {
    b in top.parent && top.parent[b] == a
  }

  function Kids(top: Topology, p: Id): set<Id> {
    set c | c in top.parent && top.parent[c] == p
  }

  function ParentOf(top: Topology, n: Id): Id {
    if n in top.parent then top.parent[n] else NO_ID
  }

  ghost predicate TopologyOk(top: Topology) {
    && top.root in top.depth && top.depth[top.root] == 0 && NO_ID !in top.depth
    && top.parent.Keys == top.depth.Keys - {top.root}
    && (forall c {:trigger Placed(top, c)} :: c in top.parent ==> Placed(top, c))
    && (forall p {:trigger Kids(top, p)} :: p in top.depth ==> |Kids(top, p)| <= MAX_CHILDREN)
  }

  /** One below its parent. */
  ghost predicate Placed(top: Topology, c: Id)
    requires c in top.parent && top.parent.Keys <= top.depth.Keys
  {
    top.parent[c] in top.depth && top.depth[c] == top.depth[top.parent[c]] + 1
  }

  function Joined(top: Topology, c: Id, p: Id): Topology
    requires p in top.depth
  {
    Topology(top.root, top.parent[c := p], top.depth[c := top.depth[p] + 1])
  }

  // ---------------------------------------------------------------------- state

  datatype Station = Station(
    ap: Ap,
    sta: Sta,
    toSta: seq<Serial>,  // UART, AP to STA
    toAp: seq<Serial>,   // UART, STA to AP
    up: seq<Msg>,        // TCP, this STA to the parent's AP
    down: seq<Msg>)      // TCP, the parent's AP to this STA

  datatype Net = Net(top: Topology, nodes: map<Id, Station>)

  function With(s: Net, n: Id, x: Station): Net {
    s.(nodes := s.nodes[n := x])
  }

  function Fresh(n: Id, isRoot: bool, parent: Id): Station {
    Station(Ap(n, isRoot, NO_ID, Leaf(n), map[], map[]), Sta(n, parent, Leaf(n), []), [], [],
            if parent == NO_ID then [] else [Init(n, parent)], [])
  }

  /** A root alone; `isRoot` is the flag its AP happens to carry. */
  function Start(root: Id, isRoot: bool): Net {
    Net(Topology(root, map[], map[root := 0]), map[root := Fresh(root, isRoot, NO_ID)])
  }

  // ---------------------------------------------------------------------- steps

  datatype Step =
    | Join(child: Id, parent: Id, isRoot: bool)
    | DeliverUp(node: Id)                                   // TCP, to the parent's AP
    | DeliverDown(node: Id)                                 // TCP, to this STA
    | SerialUp(node: Id)                                    // UART, to this STA
    | SerialDown(node: Id)                                  // UART, to this AP
    | ApSends(node: Id, dest: Id, payload: seq<Byte>)       // APNode::send_data
    | StaSends(node: Id, dest: Id, payload: seq<Byte>)      // STANode::send_msg
    | StaSendsUp(node: Id, dest: Id, payload: seq<Byte>)    // STANode::send_data

  /** A TCP message from an AP to a child. */
  function Post(s: Net, packet: Option<Packet>): Net {
    if packet.None? || packet.value.conn.peer !in s.nodes then s
    else
      var x := packet.value.conn.peer;
      With(s, x, s.nodes[x].(down := s.nodes[x].down + [packet.value.msg]))
  }

  function AfterAp(s: Net, n: Id, out: ApOut): Net
    requires n in s.nodes
  {
    var x := s.nodes[n];
    Post(With(s, n, x.(ap := out.ap, toSta := x.toSta + out.serial)), out.tcp)
  }

  /** The root's STA has no parent to send to: what it would send up is dropped. */
  function AfterSta(s: Net, n: Id, out: StaOut): Net
    requires n in s.nodes
  {
    var x := s.nodes[n];
    With(s, n, x.(sta := out.sta, toAp := x.toAp + Opt(out.serial),
                  up := if n == s.top.root then x.up else x.up + Opt(out.up)))
  }

  /** A node joins once, under a node already in the network that has a free place;
      the parent's AP accepts the connection and the child sends its init. */
  predicate CanJoin(s: Net, c: Id, p: Id) {
    && c !in s.top.depth && c !in s.nodes && c != NO_ID
    && p in s.top.depth && p in s.nodes && |Kids(s.top, p)| < MAX_CHILDREN
  }

  predicate Enabled(s: Net, step: Step) {
    match step
    case Join(c, p, _) => CanJoin(s, c, p)
    case DeliverUp(c) =>
      && c in s.nodes && s.nodes[c].up != [] && c in s.top.parent && s.top.parent[c] in s.nodes
      && s.top.parent[c] != c && Conn(c) in s.nodes[s.top.parent[c]].ap.conns
    case DeliverDown(n) => n in s.nodes && s.nodes[n].down != []
    case SerialUp(n) => n in s.nodes && s.nodes[n].toSta != []
    case SerialDown(n) => n in s.nodes && s.nodes[n].toAp != []
    case ApSends(n, _, _) => n in s.nodes
    case StaSends(n, _, _) => n in s.nodes
    case StaSendsUp(n, _, _) => n in s.nodes
  }

  function Next(s: Net, step: Step): Net
    requires Enabled(s, step)
  {
    match step
    case Join(c, p, flag) =>
      var x := s.nodes[p];
      Net(Joined(s.top, c, p),
          s.nodes[p := x.(ap := x.ap.(conns := x.ap.conns[Conn(c) := Client(false, 0)]))][c := Fresh(c, flag, p)])
    case DeliverUp(c) =>
      var x, p := s.nodes[c], s.top.parent[c];
      var m := x.up[0];
      AfterAp(With(s, c, x.(up := x.up[1..])), p, ApIncoming(s.nodes[p].ap, Conn(c), m, Length(m)))
    case DeliverDown(n) =>
      var x := s.nodes[n];
      var m := x.down[0];
      AfterSta(With(s, n, x.(down := x.down[1..])), n, StaIncoming(x.sta, m, Length(m)))
    case SerialUp(n) =>
      var x := s.nodes[n];
      AfterSta(With(s, n, x.(toSta := x.toSta[1..])), n, StaSerial(x.sta, x.toSta[0]))
    case SerialDown(n) =>
      var x := s.nodes[n];
      AfterAp(With(s, n, x.(toAp := x.toAp[1..])), n, ApSerial(x.ap, x.toAp[0]))
    case ApSends(n, d, payload) => Post(s, ApSend(s.nodes[n].ap, Data(n, d, payload)))
    case StaSends(n, d, payload) => AfterSta(s, n, StaSend(s.nodes[n].sta, Data(n, d, payload)))
    case StaSendsUp(n, d, payload) => AfterSta(s, n, StaOut(s.nodes[n].sta, None, Some(Data(n, d, payload))))
  }

  /** The state after the enabled ones of `steps`, in order. */
  function Run(s: Net, steps: seq<Step>): Net
    decreases |steps|
  {
    if steps == [] then s
    else Run(if Enabled(s, steps[0]) then Next(s, steps[0]) else s, steps[1..])
  }

  // ------------------------------------------------------------------ invariant

  predicate IsRelay(m: Msg) {
    m.Data? || m.Ack?
  }

  /** A tree of node `n`: rooted there, no id twice, cut at depth two, and with true
      parent-child edges only. */
  ghost predicate TreeOk(top: Topology, n: Id, t: Tree<Id>) {
    && t.root == n && Unique(t) && DepthTwo(t)
    && forall a, b :: b in KidsOf(t, a) ==> Edge(top, a, b)
  }

  /** What the STA's tree will be once the queue is empty. */
  function After(t: Tree<Id>, q: seq<Serial>): Tree<Id>
    decreases |q|
  {
    if q == [] then t
    else After(if q[0].NodeAdd? then AddAnyChild(t, q[0].parent, q[0].child).0 else t, q[1..])
  }

  /** A queue from AP to STA: each node-add is new, true and within depth two when its
      turn comes; each message was sent over because the tree of that moment has no
      path to its destination, and none is data for this node. */
  ghost predicate QueueOk(top: Topology, n: Id, t: Tree<Id>, q: seq<Serial>)
    decreases |q|
  {
    q == [] ||
    match q[0]
    case NodeAdd(a, b) =>
      && Edge(top, a, b) && b !in Pre(t) && (a == n || a in KidsOf(t, n))
      && QueueOk(top, n, AddAnyChild(t, a, b).0, q[1..])
    case Tunnel(m) => ToStaOk(n, t, m) && QueueOk(top, n, t, q[1..])
    case _ => false
  }

  /** Why an AP hands a message over to its STA. */
  predicate ToStaOk(n: Id, t: Tree<Id>, m: Msg) {
    IsRelay(m) && Path(t, m.dest).None? && (m.Data? ==> m.dest != n)
  }

  ghost predicate TrueKids(top: Topology, a: Id, kids: seq<Id>) {
    forall x :: x in kids ==> Edge(top, a, x)
  }

  /** The updates on their way up from `c` carry child lists of `c` that grow from
      what the parent knows to what `c`'s STA knows; other updates are about children
      of `c` that the parent knows when their turn comes. */
  ghost predicate ChainOk(top: Topology, c: Id, known: seq<Id>, q: seq<Msg>, last: seq<Id>)
    decreases |q|
  {
    if q == [] then known == last
    else match q[0]
      case Update(source, _, kids) =>
        if source == c then known <= kids && TrueKids(top, c, kids) && ChainOk(top, c, kids, q[1..], last)
        else source in known && Edge(top, c, source) && TrueKids(top, source, kids)
             && ChainOk(top, c, known, q[1..], last)
      case Data(_, _, _) => ChainOk(top, c, known, q[1..], last)
      case Ack(_, _, _) => ChainOk(top, c, known, q[1..], last)
      case _ => false
  }

  /** The link between `c` and its parent, whose AP tree is `above`. */
  ghost predicate LinkOk(top: Topology, c: Id, above: Tree<Id>, x: Station) {
    var last := KidsOf(x.sta.tree, c);
    && (if c in KidsOf(above, above.root) then ChainOk(top, c, KidsOf(above, c), x.up, last)
        else x.up != [] && x.up[0] == Init(c, above.root) && ChainOk(top, c, [], x.up[1..], last))
    && forall i :: 0 <= i < |x.down| ==> DownOk(c, last, x.down[i])
  }

  /** A message on its way down to `c` is for `c` or a child its STA knows. */
  predicate DownOk(c: Id, last: seq<Id>, m: Msg) {
    IsRelay(m) && (m.dest == c || m.dest in last)
  }

  /** The next-hop table: exactly the children in the tree have a connection. */
  ghost predicate ClientsOk(top: Topology, ap: Ap) {
    && (forall x :: x in ap.clients <==> x in KidsOf(ap.tree, ap.id))
    && (forall x :: x in ap.clients ==> ap.clients[x] == Conn(x))
    && (forall k :: k in ap.conns ==> Edge(top, ap.id, k.peer))
    && (forall x :: Edge(top, ap.id, x) ==>
          Conn(x) in ap.conns && (ap.conns[Conn(x)].idReceived <==> x in KidsOf(ap.tree, ap.id)))
  }

  predicate ToApOk(t: Tree<Id>, y: Serial) {
    y.Tunnel? && IsRelay(y.msg) && Path(t, y.msg.dest).Some?
  }

  ghost predicate StationOk(top: Topology, n: Id, x: Station) {
    && x.ap.id == n && x.sta.id == n && x.sta.parent == ParentOf(top, n)
    && TreeOk(top, n, x.ap.tree) && TreeOk(top, n, x.sta.tree)
    && QueueOk(top, n, x.sta.tree, x.toSta) && After(x.sta.tree, x.toSta) == x.ap.tree
    && ClientsOk(top, x.ap)
    && (forall i :: 0 <= i < |x.toAp| ==> ToApOk(x.sta.tree, x.toAp[i]))
    && (n == top.root ==> x.up == [] && x.down == [])
  }

  ghost predicate NodeOk(s: Net, n: Id)
    requires n in s.nodes
  {
    && StationOk(s.top, n, s.nodes[n])
    && (n in s.top.parent ==>
          var p := s.top.parent[n];
          p in s.nodes && LinkOk(s.top, n, s.nodes[p].ap.tree, s.nodes[n]))
  }

  ghost predicate Inv(s: Net) {
    && TopologyOk(s.top) && s.nodes.Keys == s.top.depth.Keys
    && forall n {:trigger NodeOk(s, n)} :: n in s.nodes ==> NodeOk(s, n)
  }
}
