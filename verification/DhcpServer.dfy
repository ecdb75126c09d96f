/** The DHCP server: a packet in, the lease table changed, a reply or nothing out
    (RFC 2131, section 4.3). The reply is built in the buffer the packet came in.
  */
module DhcpServer {
  import opened Bytes
  import opened Trees
  import opened DhcpOptions
  import opened DhcpLeases
  import Sequences

  const SIZE: nat := 548      // sizeof(dhcp_msg_t)
  const MIN_SIZE: nat := 243
  const OPT: nat := 240       // behind the magic cookie
  const BASE_IP: nat := 16
  const LEASE_S: int := 24 * 60 * 60

  const DISCOVER: Byte := 1
  const OFFER: Byte := 2
  const REQUEST: Byte := 3
  const ACK: Byte := 5

  const SUBNET_MASK: Byte := 1
  const ROUTER: Byte := 3
  const DNS: Byte := 6
  const REQUESTED_IP: Byte := 50
  const LEASE_TIME: Byte := 51
  const MSG_TYPE: Byte := 53
  const SERVER_ID: Byte := 54

  // ------------------------------------------------------------------- requests

  function OptionsOf(b: seq<Byte>): seq<Byte>
    requires |b| == SIZE
  {
    b[OPT..OPT + OPTIONS]
  }

  function MacOf(b: seq<Byte>): Mac
    requires |b| == SIZE
  {
    b[28..34]
  }

  /** An END-terminated option list without pads; the four bytes that are read of the
      requested address are in the buffer. */
  predicate WellFormed(b: seq<Byte>)
    requires |b| == SIZE
  {
    var w := OptionsOf(b);
    Listed(w) && FindAt(w, REQUESTED_IP) + 6 <= |w|
  }

  /** The byte behind the head of the first message-type option, whatever its length. */
  function KindOf(w: seq<Byte>): Option<Byte>
    requires Listed(w)
  {
    var k := FindAt(w, MSG_TYPE);
    if k == ABSENT then None else Some(w[k + 2])
  }

  /** The slot of the four bytes behind the head of the first requested address, if it is
      one of this server. */
  function SlotAsked(w: seq<Byte>, ip: Ip): (r: Option<nat>)
    requires Listed(w) && FindAt(w, REQUESTED_IP) + 6 <= |w|
    ensures r.Some? ==> r.value < MAX_IP
  {
    var o := FindAt(w, REQUESTED_IP);
    if o == ABSENT || w[o + 2..o + 5] != ip[..3] then None
    else
      var slot := (w[o + 5] as int + 256 - BASE_IP) % 256;
      if slot < MAX_IP then Some(slot) else None
  }

  /** For options of at least one and four bytes (RFC 2132, sections 9.1 and 9.6) that is
      what the options say. */
  lemma AsTheOptionsSay(w: seq<Byte>, ip: Ip)
    requires Listed(w) && FindAt(w, REQUESTED_IP) + 6 <= |w|
    ensures var kind := Read(w, MSG_TYPE);
            && (kind.None? ==> KindOf(w) == None)
            && (kind.Some? && kind.value != [] ==> KindOf(w) == Some(kind.value[0]))
    ensures var wanted := Read(w, REQUESTED_IP);
            && (wanted.None? ==> SlotAsked(w, ip) == None)
            && (wanted.Some? && |wanted.value| >= 4 ==>
                  var slot := (wanted.value[3] as int + 256 - BASE_IP) % 256;
                  SlotAsked(w, ip) == if wanted.value[..3] == ip[..3] && slot < MAX_IP then Some(slot) else None)
  {
    FindAtReads(w, MSG_TYPE);
    SlotSays(w, ip);
  }

  lemma SlotSays(w: seq<Byte>, ip: Ip)
    requires Listed(w) && FindAt(w, REQUESTED_IP) + 6 <= |w|
    ensures var wanted := Read(w, REQUESTED_IP);
            && (wanted.None? ==> SlotAsked(w, ip) == None)
            && (wanted.Some? && |wanted.value| >= 4 ==>
                  var slot := (wanted.value[3] as int + 256 - BASE_IP) % 256;
                  SlotAsked(w, ip) == if wanted.value[..3] == ip[..3] && slot < MAX_IP then Some(slot) else None)
  {
    FindAtReads(w, REQUESTED_IP);
    var o, wanted := FindAt(w, REQUESTED_IP), Read(w, REQUESTED_IP);
    if wanted.Some? && |wanted.value| >= 4 {
      var v := w[o + 2..o + 2 + |wanted.value|];
      assert v[..3] == w[o + 2..o + 5] && v[3] == w[o + 5];
    }
  }

  /** What a packet asks of the lease table. */
  function EventOf(b: seq<Byte>, ip: Ip, at: nat): Option<Event>
    requires |b| == SIZE && WellFormed(b)
  {
    var w := OptionsOf(b);
    var kind := KindOf(w);
    if kind == Some(DISCOVER) then Some(Discovers(MacOf(b), at))
    else if kind != Some(REQUEST) then None
    else
      var slot := SlotAsked(w, ip);
      if slot.None? then None else Some(Requests(MacOf(b), slot.value, at))
  }

  /** The slot the reply is about. */
  function SlotFor(t: Table, e: Event): Option<nat> {
    match e
    case Discovers(mac, at) =>
      var slot := Offer(t, mac, Clock(at)).1;
      if slot < MAX_IP then Some(slot) else None
    case Requests(mac, slot, at) => if Acks(t, e, slot) then Some(slot) else None
  }

  // -------------------------------------------------------------------- replies

  function ReplyOptions(kind: Byte, ip: Ip, nm: Ip): (r: seq<Tlv>)
    ensures forall i :: 0 <= i < |r| ==> TlvOk(r[i])
  {
    [Tlv(MSG_TYPE, [kind]), Tlv(SERVER_ID, ip), Tlv(SUBNET_MASK, nm), Tlv(ROUTER, ip), Tlv(DNS, ip),
     Tlv(LEASE_TIME, Be32(LEASE_S))]
  }

  function Addressed(b: seq<Byte>, ip: Ip, slot: nat): (r: seq<Byte>)
    requires |b| == SIZE && slot < MAX_IP
    ensures |r| == SIZE
  {
    Splice(Splice(b, 0, [2]), 16, ip[..3] + [(BASE_IP + slot) as Byte])
  }

  function ReplyTo(b: seq<Byte>, ip: Ip, nm: Ip, kind: Byte, slot: nat): seq<Byte>
    requires |b| == SIZE && slot < MAX_IP
  {
    Addressed(b, ip, slot)[..OPT] + Encode(ReplyOptions(kind, ip, nm)) + [END]
  }

  /** The whole of one packet: the new table, and the reply. */
  function Handle(t: Table, ip: Ip, nm: Ip, p: seq<Byte>, stack: seq<Byte>, at: nat): (Table, Option<seq<Byte>>)
    requires |stack| == SIZE && (|p| >= MIN_SIZE ==> WellFormed(Received(p, stack)))
  {
    if |p| < MIN_SIZE then (t, None)
    else
      var b := Received(p, stack);
      var e := EventOf(b, ip, at);
      if e.None? then (t, None)
      else
        var slot := SlotFor(t, e.value);
        (After(t, e.value),
         if slot.None? then None
         else Some(ReplyTo(b, ip, nm, if e.value.Discovers? then OFFER else ACK, slot.value)))
  }

  /** Every reply, read back, has the type, the server as server id, router and DNS, the
      mask, and a lease of 86,400 seconds; it offers the address of the slot, and keeps
      the transaction id and the client's hardware address. */
  lemma ReplyReadsBack(b: seq<Byte>, ip: Ip, nm: Ip, kind: Byte, slot: nat)
    requires |b| == SIZE && slot < MAX_IP
    ensures var r := ReplyTo(b, ip, nm, kind, slot);
            && |r| == 274 && r[0] == 2 && r[1..16] == b[1..16] && r[20..OPT] == b[20..OPT]
            && r[16..20] == ip[..3] + [(BASE_IP + slot) as Byte]
            && Listed(r[OPT..])
            && Read(r[OPT..], MSG_TYPE) == Some([kind])
            && Read(r[OPT..], SERVER_ID) == Some(ip)
            && Read(r[OPT..], SUBNET_MASK) == Some(nm)
            && Read(r[OPT..], ROUTER) == Some(ip)
            && Read(r[OPT..], DNS) == Some(ip)
            && Read(r[OPT..], LEASE_TIME) == Some([0, 1, 0x51, 0x80])
  {
    var opts, a := ReplyOptions(kind, ip, nm), Addressed(b, ip, slot);
    var r := ReplyTo(b, ip, nm, kind, slot);
    ReplyLength(kind, ip, nm);
    assert r[OPT..] == Encode(opts) + [END] + [];
    forall k | 0 <= k < 6 ensures Listed(r[OPT..]) && Read(r[OPT..], opts[k].code) == Some(opts[k].data) {
      LookupAt(opts, k);
      ReadEncoded(opts, [], opts[k].code);
    }
    assert opts[0].code == MSG_TYPE && opts[1].code == SERVER_ID && opts[2].code == SUBNET_MASK;
    assert opts[3].code == ROUTER && opts[4].code == DNS && opts[5].code == LEASE_TIME;
    assert Be32(LEASE_S) == [0, 1, 0x51, 0x80];
    var c := Splice(b, 0, [2]);
    SpliceKeeps(c, 16, ip[..3] + [(BASE_IP + slot) as Byte], 1, 16);
    SpliceKeeps(c, 16, ip[..3] + [(BASE_IP + slot) as Byte], 20, OPT);
    SpliceKeeps(b, 0, [2], 1, 16);
    SpliceKeeps(b, 0, [2], 20, OPT);
    assert r[1..16] == a[1..16] && r[16..20] == a[16..20] && r[20..OPT] == a[20..OPT];
  }

  lemma ReplyLength(kind: Byte, ip: Ip, nm: Ip)
    ensures |Encode(ReplyOptions(kind, ip, nm))| == 33
  {
    var o := ReplyOptions(kind, ip, nm);
    EncodeAppend(o[..5], o[5]);
    EncodeAppend(o[..4], o[4]);
    EncodeAppend(o[..3], o[3]);
    EncodeAppend(o[..2], o[2]);
    EncodeAppend(o[..1], o[1]);
    EncodeAppend([], o[0]);
    assert o[..5] + [o[5]] == o && o[..4] + [o[4]] == o[..5] && o[..3] + [o[3]] == o[..4];
    assert o[..2] + [o[2]] == o[..3] && o[..1] + [o[1]] == o[..2] && [] + [o[0]] == o[..1];
  }

  // --------------------------------------------------------------------- server

  lemma SubAt(b: seq<Byte>, i: nat)
    requires |b| == SIZE && OPT <= i < OPT + OPTIONS
    ensures OptionsOf(b)[i - OPT] == b[i]
  {
  }

  lemma SubSlice(b: seq<Byte>, i: nat, j: nat)
    requires |b| == SIZE && OPT <= i <= j <= OPT + OPTIONS
    ensures OptionsOf(b)[i - OPT..j - OPT] == b[i..j]
  {
    Sequences.SliceOfSlice(b, OPT, OPT + OPTIONS, i - OPT, j - OPT);
  }

  class Server {
    const ip: Ip
    const nm: Ip
    const lease: array<Lease>

    ghost predicate Valid() {
      lease.Length == MAX_IP
    }

    constructor (ip: Ip, nm: Ip)
      ensures Valid() && fresh(lease) && this.ip == ip && this.nm == nm
      ensures forall i :: 0 <= i < MAX_IP ==> lease[i] == Lease(NO_MAC, 0)
    {
      this.ip, this.nm := ip, nm;
      lease := new Lease[MAX_IP](_ => Lease(NO_MAC, 0));
    }

    /** What every reply says of the server, behind the message type. */
    method WriteOptions(msg: array<Byte>, ghost was: seq<Byte>, ghost first: seq<Tlv>, kind: Byte) returns (end: nat)
      requires msg.Length == |was| == SIZE && first == [Tlv(MSG_TYPE, [kind])]
      requires |Encode(first)| == 3 && msg[..] == Splice(was, OPT, Encode(first))
      modifies msg
      ensures end == OPT + 34 && |Encode(ReplyOptions(kind, ip, nm))| == 33
      ensures msg[..] == Splice(was, OPT, Encode(ReplyOptions(kind, ip, nm)) + [END])
    {
      ghost var most := first + [Tlv(SERVER_ID, ip)] + [Tlv(SUBNET_MASK, nm)] + [Tlv(ROUTER, ip)] + [Tlv(DNS, ip)];
      ghost var last := Tlv(LEASE_TIME, Be32(LEASE_S));
      assert most + [last] == ReplyOptions(kind, ip, nm);
      end := WriteAddresses(msg, was, first);
      end := OptWriteU32(msg, end, LEASE_TIME, LEASE_S);
      WriteNext(was, OPT, most, last);
      Extend(msg, was, OPT, 33, Encode(most + [last]), [END]);
      end := end + 1;
    }

    method WriteAddresses(msg: array<Byte>, ghost was: seq<Byte>, ghost first: seq<Tlv>) returns (end: nat)
      requires msg.Length == |was| == SIZE && |first| == 1 && TlvOk(first[0])
      requires |Encode(first)| == 3 && msg[..] == Splice(was, OPT, Encode(first))
      modifies msg
      ensures end == OPT + 27
      ensures var most := first + [Tlv(SERVER_ID, ip)] + [Tlv(SUBNET_MASK, nm)] + [Tlv(ROUTER, ip)] + [Tlv(DNS, ip)];
              |Encode(most)| == 27 && msg[..] == Splice(was, OPT, Encode(most))
    {
      ghost var l2 := first + [Tlv(SERVER_ID, ip)];
      ghost var l3 := l2 + [Tlv(SUBNET_MASK, nm)];
      ghost var l4 := l3 + [Tlv(ROUTER, ip)];
      end := OptWriteN(msg, OPT + 3, SERVER_ID, ip);
      WriteNext(was, OPT, first, Tlv(SERVER_ID, ip));
      end := OptWriteN(msg, end, SUBNET_MASK, nm);
      WriteNext(was, OPT, l2, Tlv(SUBNET_MASK, nm));
      end := OptWriteN(msg, end, ROUTER, ip);
      WriteNext(was, OPT, l3, Tlv(ROUTER, ip));
      end := OptWriteN(msg, end, DNS, ip);
      WriteNext(was, OPT, l4, Tlv(DNS, ip));
    }

    /** The message-type switch: the kind of reply and its slot. */
    method Decide(msg: array<Byte>, now: nat) returns (r: Option<(Byte, nat)>)
      requires Valid() && msg.Length == SIZE && WellFormed(msg[..])
      modifies lease
      ensures var e := EventOf(msg[..], ip, now);
              if e.None? then lease[..] == old(lease[..]) && r.None?
              else
                var slot := SlotFor(old(lease[..]), e.value);
                && lease[..] == After(old(lease[..]), e.value)
                && r == if slot.None? then None else Some((if e.value.Discovers? then OFFER else ACK, slot.value))
    {
      ghost var b, t := msg[..], lease[..];
      var kind := MessageType(msg);
      var mac := msg[28..34];
      assert mac == MacOf(b);
      if kind == Some(DISCOVER) {
        var yi := Discover(lease, mac, Clock(now));
        assert Offer(t, MacOf(b), Clock(now)) == (lease[..], yi);
        if yi == MAX_IP { return None; }
        return Some((OFFER, yi));
      } else if kind == Some(REQUEST) {
        var yi := RequestedSlot(msg);
        if yi.None? { return None; }
        var ok := Request(lease, mac, yi.value, Clock(now));
        assert Grant(t, MacOf(b), yi.value, Clock(now)) == (lease[..], ok);
        if !ok { return None; }
        return Some((ACK, yi.value));
      }
      return None;
    }

    method MessageType(msg: array<Byte>) returns (kind: Option<Byte>)
      requires msg.Length == SIZE && WellFormed(msg[..])
      ensures kind == KindOf(OptionsOf(msg[..]))
    {
      assert OptionsOf(msg[..]) == msg[OPT..OPT + OPTIONS];
      var at := OptFind(msg, OPT, MSG_TYPE);
      if at == ABSENT { return None; }
      SubAt(msg[..], at + 2);
      return Some(msg[at + 2]);
    }

    method RequestedSlot(msg: array<Byte>) returns (slot: Option<nat>)
      requires msg.Length == SIZE && WellFormed(msg[..])
      ensures slot == SlotAsked(OptionsOf(msg[..]), ip)
    {
      assert OptionsOf(msg[..]) == msg[OPT..OPT + OPTIONS];
      var o := OptFind(msg, OPT, REQUESTED_IP);
      if o == ABSENT { return None; }
      SubSlice(msg[..], o + 2, o + 5);
      assert msg[..][o + 2..o + 5] == msg[o + 2..o + 5];
      if msg[o + 2..o + 5] != ip[..3] { return None; }
      SubAt(msg[..], o + 5);
      var yi := (msg[o + 5] as int + 256 - BASE_IP) % 256;
      if yi >= MAX_IP { return None; }
      return Some(yi);
    }

    /** The packet in the buffer, with the opcode and the address of a reply. */
    method Prepare(p: seq<Byte>, stack: seq<Byte>) returns (msg: array<Byte>)
      requires |stack| == SIZE
      ensures fresh(msg) && msg.Length == SIZE && msg[..] == Splice(Splice(Received(p, stack), 0, [2]), 16, ip)
    {
      msg := new Byte[SIZE](i requires 0 <= i < SIZE => stack[i]);
      assert msg[..] == stack;
      Copy(msg, 0, if |p| < SIZE then p else p[..SIZE]);
      assert msg[..] == Received(p, stack);
      Copy(msg, 0, [2]);
      Copy(msg, 16, ip);
    }

    /** dhcp_server_process, with the clock at `now`. */
    method Process(p: seq<Byte>, stack: seq<Byte>, now: nat) returns (reply: Option<seq<Byte>>)
      requires Valid() && |stack| == SIZE && (|p| >= MIN_SIZE ==> WellFormed(Received(p, stack)))
      modifies lease
      ensures (lease[..], reply) == Handle(old(lease[..]), ip, nm, p, stack, now)
    {
      if |p| < MIN_SIZE { return None; }
      ghost var b := Received(p, stack);
      var msg := Prepare(p, stack);
      SameRequest(b, ip, now);
      ghost var c := msg[..];
      var decided := Decide(msg, now);
      if decided.None? { return None; }
      var (kind, yi) := decided.value;
      assert msg[..] == c;
      var end := WriteReply(msg, b, kind, yi);
      reply := Some(msg[..end]);
    }

    /** The rest of the reply: the last byte of the address, and the options. */
    method WriteReply(msg: array<Byte>, ghost b: seq<Byte>, kind: Byte, yi: nat) returns (end: nat)
      requires msg.Length == |b| == SIZE && yi < MAX_IP && msg[..] == Splice(Splice(b, 0, [2]), 16, ip)
      modifies msg
      ensures end <= SIZE && msg[..end] == ReplyTo(b, ip, nm, kind, yi)
    {
      msg[19] := (BASE_IP + yi) as Byte;
      ghost var a := Addressed(b, ip, yi);
      AddressLast(b, ip, yi);
      assert msg[..] == a;
      var opt := OptWriteU8(msg, OPT, MSG_TYPE, kind);
      ghost var first := [] + [Tlv(MSG_TYPE, [kind])];
      WriteNext(a, OPT, [], Tlv(MSG_TYPE, [kind]));
      assert Splice(a, OPT, []) == a;
      end := WriteOptions(msg, a, first, kind);
      CutReply(a, Encode(ReplyOptions(kind, ip, nm)));
    }
  }

  /** The address with its last byte put in is that of the slot. */
  lemma AddressLast(b: seq<Byte>, ip: Ip, yi: nat)
    requires |b| == SIZE && yi < MAX_IP
    ensures Splice(Splice(b, 0, [2]), 16, ip)[19 := (BASE_IP + yi) as Byte] == Addressed(b, ip, yi)
  {
  }

  lemma CutReply(a: seq<Byte>, opts: seq<Byte>)
    requires |a| == SIZE && |opts| == 33
    ensures Splice(a, OPT, opts + [END])[..OPT + 34] == a[..OPT] + opts + [END]
  {
    var w := opts + [END];
    assert Splice(a, OPT, w)[..OPT + 34] == a[..OPT] + w;
    assert a[..OPT] + w == a[..OPT] + opts + [END];
  }

  /** Preparing the reply leaves the request readable. */
  lemma SameRequest(b: seq<Byte>, ip: Ip, now: nat)
    requires |b| == SIZE && WellFormed(b)
    ensures var c := Splice(Splice(b, 0, [2]), 16, ip); WellFormed(c) && EventOf(c, ip, now) == EventOf(b, ip, now)
  {
    var d := Splice(b, 0, [2]);
    SpliceKeeps(b, 0, [2], 28, 34);
    SpliceKeeps(b, 0, [2], OPT, SIZE);
    SpliceKeeps(d, 16, ip, 28, 34);
    SpliceKeeps(d, 16, ip, OPT, SIZE);
  }

  // ------------------------------------------------------------------------ runs

  /** A packet at a time, and what the stack held then. */
  datatype Arrival = Arrival(packet: seq<Byte>, stack: seq<Byte>, at: nat)

  predicate Acceptable(a: Arrival) {
    |a.stack| == SIZE && (|a.packet| >= MIN_SIZE ==> WellFormed(Received(a.packet, a.stack)))
  }

  predicate AllAcceptable(run: seq<Arrival>) {
    forall i :: 0 <= i < |run| ==> Acceptable(run[i])
  }

  predicate Between(lo: nat, run: seq<Arrival>, hi: nat) {
    && (forall i :: 0 <= i < |run| ==> lo <= run[i].at <= hi)
    && (forall i, j :: 0 <= i < j < |run| ==> run[i].at <= run[j].at)
  }

  function Asked(a: Arrival, ip: Ip): (r: seq<Event>)
    requires Acceptable(a)
    ensures |r| <= 1 && (r != [] ==> r[0].at == a.at)
  {
    if |a.packet| < MIN_SIZE then []
    else
      var e := EventOf(Received(a.packet, a.stack), ip, a.at);
      if e.None? then [] else [e.value]
  }

  function AskedAll(run: seq<Arrival>, ip: Ip): seq<Event>
    requires AllAcceptable(run)
    decreases |run|
  {
    if run == [] then [] else Asked(run[0], ip) + AskedAll(run[1..], ip)
  }

  /** The table after a run of packets. */
  function Serve(t: Table, ip: Ip, nm: Ip, run: seq<Arrival>): Table
    requires AllAcceptable(run)
    decreases |run|
  {
    if run == [] then t
    else Serve(Handle(t, ip, nm, run[0].packet, run[0].stack, run[0].at).0, ip, nm, run[1..])
  }

  /** The packet is answered with an ACK that gives the client `mac` the address. */
  predicate Acknowledged(t: Table, ip: Ip, nm: Ip, a: Arrival, mac: Mac, address: Ip)
    requires Acceptable(a)
  {
    var r := Handle(t, ip, nm, a.packet, a.stack, a.at).1;
    && r.Some? && |r.value| > OPT
    && Read(r.value[OPT..], MSG_TYPE) == Some([ACK])
    && r.value[16..20] == address && r.value[28..34] == mac
  }

  lemma AckIsGrant(t: Table, ip: Ip, nm: Ip, a: Arrival, mac: Mac, address: Ip) returns (slot: nat)
    requires Acceptable(a) && Acknowledged(t, ip, nm, a, mac, address)
    ensures slot < MAX_IP && address[3] as int == BASE_IP + slot
    ensures Asked(a, ip) == [Requests(mac, slot, a.at)] && Acks(t, Requests(mac, slot, a.at), slot)
    ensures Handle(t, ip, nm, a.packet, a.stack, a.at).0 == After(t, Requests(mac, slot, a.at))
  {
    var b := Received(a.packet, a.stack);
    var e := EventOf(b, ip, a.at).value;
    slot := SlotFor(t, e).value;
    ReplyNames(b, ip, nm, if e.Discovers? then OFFER else ACK, slot);
  }

  /** Which kind of reply it is, for whom and about which slot can be read off it. */
  lemma ReplyNames(b: seq<Byte>, ip: Ip, nm: Ip, kind: Byte, slot: nat)
    requires |b| == SIZE && slot < MAX_IP
    ensures var r := ReplyTo(b, ip, nm, kind, slot);
            && |r| > OPT && (Read(r[OPT..], MSG_TYPE) == Some([ACK]) ==> kind == ACK)
            && r[28..34] == MacOf(b) && r[16..20][3] as int == BASE_IP + slot
  {
    var r := ReplyTo(b, ip, nm, kind, slot);
    ReplyReadsBack(b, ip, nm, kind, slot);
    assert [kind][0] == kind && [ACK][0] == ACK;
    assert r[28..34] == r[20..OPT][8..14] == b[20..OPT][8..14] == b[28..34];
  }

  lemma {:induction false} AskedInOrder(run: seq<Arrival>, ip: Ip, lo: nat, hi: nat)
    requires AllAcceptable(run) && Between(lo, run, hi)
    ensures InOrder(AskedAll(run, ip))
    ensures forall i :: 0 <= i < |AskedAll(run, ip)| ==> lo <= AskedAll(run, ip)[i].at <= hi
    decreases |run|
  {
    if run != [] {
      assert Acceptable(run[0]);
      assert forall i :: 0 <= i < |run[1..]| ==> run[1..][i] == run[i + 1];
      AskedInOrder(run[1..], ip, run[0].at, hi);
    }
  }

  /** A run of packets is a run of what they ask for. */
  lemma {:induction false} ServeIsRun(t: Table, ip: Ip, nm: Ip, run: seq<Arrival>)
    requires AllAcceptable(run)
    ensures Serve(t, ip, nm, run) == Run(t, AskedAll(run, ip))
    decreases |run|
  {
    if run != [] {
      var a, es := run[0], AskedAll(run[1..], ip);
      assert Acceptable(a);
      ServeIsRun(Handle(t, ip, nm, a.packet, a.stack, a.at).0, ip, nm, run[1..]);
      if Asked(a, ip) == [] {
        assert [] + es == es;
      } else {
        assert Asked(a, ip) == [Asked(a, ip)[0]] && ([Asked(a, ip)[0]] + es)[1..] == es;
      }
    }
  }

  /** Exclusive leases, packet by packet: once the server has acknowledged an address to
      a client, no run of packets gets it acknowledged to another client before
      86,400,000 ms are over. */
  lemma AddressesAreExclusive(t: Table, ip: Ip, nm: Ip, first: Arrival, run: seq<Arrival>, last: Arrival,
                              mac: Mac, other: Mac, address: Ip)
    requires Acceptable(first) && AllAcceptable(run) && Acceptable(last)
    requires Between(first.at, run, last.at) && first.at <= last.at && mac != NO_MAC && other != mac
    ensures var u := Serve(Handle(t, ip, nm, first.packet, first.stack, first.at).0, ip, nm, run);
            Acknowledged(t, ip, nm, first, mac, address) && Acknowledged(u, ip, nm, last, other, address) ==>
              last.at > first.at + 86_400_000
  {
    var u := Serve(Handle(t, ip, nm, first.packet, first.stack, first.at).0, ip, nm, run);
    if Acknowledged(t, ip, nm, first, mac, address) && Acknowledged(u, ip, nm, last, other, address) {
      var slot := AckIsGrant(t, ip, nm, first, mac, address);
      var e := Requests(mac, slot, first.at);
      var t1 := After(t, e);
      ServeIsRun(t1, ip, nm, run);
      AskedInOrder(run, ip, first.at, last.at);
      var es := AskedAll(run, ip);
      var slot2 := AckIsGrant(Run(t1, es), ip, nm, last, other, address);
      var f := Requests(other, slot, last.at);
      InOrderEnds(e, es, f);
      LeasesAreExclusive(t, e, es, f, slot);
    }
  }

  lemma InOrderEnds(e: Event, es: seq<Event>, f: Event)
    requires InOrder(es) && e.at <= f.at && forall i :: 0 <= i < |es| ==> e.at <= es[i].at <= f.at
    ensures InOrder([e] + es + [f])
  {
  }

  // ----------------------------------------------------------- offer and handshake

  /** The event of a packet, on its bytes. */
  lemma EventRead(b: seq<Byte>, ip: Ip, at: nat)
    requires |b| == SIZE && WellFormed(b)
    ensures var w := b[240..548];
            var k, o := FindAt(w, 53), FindAt(w, 50);
            EventOf(b, ip, at) ==
            if k != -1 && w[k + 2] == 1 then Some(Discovers(b[28..34], at))
            else if k != -1 && w[k + 2] == 3 && o != -1 && w[o + 2..o + 5] == ip[..3] && 16 <= w[o + 5] < 24
            then Some(Requests(b[28..34], w[o + 5] as int - 16, at))
            else None
  {
  }

  /** What gets an answer, and that the table stays as it is if there is none. */
  lemma SlotExactly(t: Table, e: Event)
    ensures var slot := SlotFor(t, e);
            && (slot.Some? ==> slot.value < 8)
            && (slot.Some? <==> if e.Discovers? then exists i :: 0 <= i < 8 && Suits(t[i], e.mac, Clock(e.at))
                                else e.slot < 8 && (t[e.slot].mac == e.mac || t[e.slot].mac == [0, 0, 0, 0, 0, 0]))
            && (slot.None? ==> After(t, e) == t)
  {
    if e.Discovers? {
      OfferChoice(t, e.mac, Clock(e.at));
      var mine, open := FirstOf(t, e.mac, 0), FirstFree(t, Clock(e.at), 0);
      if mine < 8 { assert Suits(t[mine], e.mac, Clock(e.at)); }
      if open < 8 { assert Suits(t[open], e.mac, Clock(e.at)); }
    }
  }

  /** A slot that can be offered to the client. */
  predicate Suits(l: Lease, mac: Mac, clock: nat) {
    l.mac == mac || l.mac == [0, 0, 0, 0, 0, 0] || Expired(l.expiry, clock)
  }

  /** What a packet must hold to be answered. */
  predicate Servable(t: Table, ip: Ip, b: seq<Byte>, at: nat)
    requires |b| == SIZE && WellFormed(b)
  {
    var w, mac := b[240..548], b[28..34];
    var k, o := FindAt(w, 53), FindAt(w, 50);
    && k != -1
    && (|| (w[k + 2] == 1 && exists i :: 0 <= i < 8 && Suits(t[i], mac, Clock(at)))
        || (w[k + 2] == 3 && o != -1 && w[o + 2..o + 5] == ip[..3] && 16 <= w[o + 5] < 24
            && var l := t[w[o + 5] as int - 16]; l.mac == mac || l.mac == [0, 0, 0, 0, 0, 0]))
  }

  lemma ServedExactly(t: Table, ip: Ip, b: seq<Byte>, at: nat)
    requires |b| == SIZE && WellFormed(b)
    ensures var e := EventOf(b, ip, at);
            Servable(t, ip, b, at) <==> e.Some? && SlotFor(t, e.value).Some?
  {
    EventRead(b, ip, at);
    var e := EventOf(b, ip, at);
    if e.Some? { SlotExactly(t, e.value); }
  }

  /** Which packets are answered: those of at least 243 bytes that hold a message type and
      are a DISCOVER (1) while there is a slot for the client, or a REQUEST (3) for one of
      the server's eight addresses, which is the client's or nobody's. All others leave the
      table as it is. */
  lemma AnsweredExactly(t: Table, ip: Ip, nm: Ip, a: Arrival)
    requires Acceptable(a)
    ensures var (u, reply) := Handle(t, ip, nm, a.packet, a.stack, a.at);
            && (reply.Some? <==> |a.packet| >= 243 && Servable(t, ip, Received(a.packet, a.stack), a.at))
            && (reply.None? ==> u == t)
  {
    if |a.packet| >= 243 {
      var b := Received(a.packet, a.stack);
      ServedExactly(t, ip, b, a.at);
      var e := EventOf(b, ip, a.at);
      if e.Some? { SlotExactly(t, e.value); }
    }
  }

  /** The packet in the buffer is a DISCOVER. */
  predicate IsDiscover(b: seq<Byte>)
    requires |b| == SIZE
  {
    Read(b[240..548], 53) == Some([1])
  }

  /** It is a REQUEST for the address. */
  predicate IsRequestFor(b: seq<Byte>, address: Ip)
    requires |b| == SIZE
  {
    Read(b[240..548], 53) == Some([3]) && Read(b[240..548], 50) == Some(address)
  }

  /** The reply has the type, gives the address and is for the client. */
  predicate Gives(r: seq<Byte>, kind: Byte, address: seq<Byte>, mac: seq<Byte>) {
    |r| == 274 && Read(r[240..], 53) == Some([kind]) && r[16..20] == address && r[28..34] == mac
  }

  lemma ReplyGives(b: seq<Byte>, ip: Ip, nm: Ip, kind: Byte, slot: nat)
    requires |b| == SIZE && slot < 8
    ensures Gives(ReplyTo(b, ip, nm, kind, slot), kind, ip[..3] + [(16 + slot) as Byte], b[28..34])
  {
    ReplyReadsBack(b, ip, nm, kind, slot);
    ReplyNames(b, ip, nm, kind, slot);
  }

  /** The address that goes with a DISCOVER: that of the first slot that is the client's, or
      else of the first that is free or expired. */
  predicate OfferedSlot(t: Table, mac: Mac, clock: nat, slot: nat) {
    && slot < 8
    && if exists i :: 0 <= i < 8 && t[i].mac == mac
       then t[slot].mac == mac && forall i :: 0 <= i < slot ==> t[i].mac != mac
       else Suits(t[slot], mac, clock) && forall i :: 0 <= i < slot ==> !Suits(t[i], mac, clock)
  }

  /** A DISCOVER that is answered gets an offer (2) of that address. */
  lemma DiscoverIsOffered(t: Table, ip: Ip, nm: Ip, a: Arrival) returns (slot: nat)
    requires Acceptable(a) && |a.packet| >= 243 && IsDiscover(Received(a.packet, a.stack))
    requires Handle(t, ip, nm, a.packet, a.stack, a.at).1.Some?
    ensures var mac := Received(a.packet, a.stack)[28..34];
            var (u, reply) := Handle(t, ip, nm, a.packet, a.stack, a.at);
            && OfferedSlot(t, mac, Clock(a.at), slot)
            && Gives(reply.value, 2, ip[..3] + [(16 + slot) as Byte], mac)
            && u == After(t, Discovers(mac, a.at)) && Reserved(u, slot, mac)
  {
    var b := Received(a.packet, a.stack);
    AsTheOptionsSay(OptionsOf(b), ip);
    var e := Discovers(MacOf(b), a.at);
    assert [DISCOVER][0] == [1][0];
    assert EventOf(b, ip, a.at) == Some(e);
    slot := SlotFor(t, e).value;
    OfferChoice(t, MacOf(b), Clock(a.at));
    OfferReserves(t, MacOf(b), a.at);
    ReplyGives(b, ip, nm, OFFER, slot);
  }

  /** A REQUEST for an address whose slot is the client's or nobody's gets an ACK (5). */
  lemma RequestIsGranted(t: Table, ip: Ip, nm: Ip, c: Arrival, slot: nat)
    requires Acceptable(c) && |c.packet| >= 243 && slot < 8
    requires IsRequestFor(Received(c.packet, c.stack), ip[..3] + [(16 + slot) as Byte])
    requires Reserved(t, slot, Received(c.packet, c.stack)[28..34])
    ensures var (u, reply) := Handle(t, ip, nm, c.packet, c.stack, c.at);
            var mac := Received(c.packet, c.stack)[28..34];
            reply.Some? && Gives(reply.value, 5, ip[..3] + [(16 + slot) as Byte], mac) && Held(u, slot, mac, c.at)
  {
    var b := Received(c.packet, c.stack);
    RequestRead(b, ip, slot, c.at);
    GrantedExactly(t, MacOf(b), slot, c.at);
    ReplyGives(b, ip, nm, ACK, slot);
  }

  lemma RequestRead(b: seq<Byte>, ip: Ip, slot: nat, at: nat)
    requires |b| == SIZE && WellFormed(b) && slot < 8 && IsRequestFor(b, ip[..3] + [(16 + slot) as Byte])
    ensures EventOf(b, ip, at) == Some(Requests(b[28..34], slot, at))
  {
    var address := ip[..3] + [(16 + slot) as Byte];
    AsTheOptionsSay(OptionsOf(b), ip);
    assert [REQUEST][0] == [3][0];
    assert address[..3] == ip[..3] && address[3] as int == 16 + slot;
  }

  /** All packets of the run that the server takes are from one client. */
  predicate FromClient(run: seq<Arrival>, mac: Mac)
    requires AllAcceptable(run)
  {
    forall i :: 0 <= i < |run| && |run[i].packet| >= 243 ==> Received(run[i].packet, run[i].stack)[28..34] == mac
  }

  lemma {:induction false} AskedByClient(run: seq<Arrival>, ip: Ip, mac: Mac)
    requires AllAcceptable(run) && FromClient(run, mac)
    ensures forall i :: 0 <= i < |AskedAll(run, ip)| ==> AskedAll(run, ip)[i].mac == mac
    decreases |run|
  {
    if run != [] {
      assert Acceptable(run[0]);
      assert forall i :: 0 <= i < |run[1..]| ==> run[1..][i] == run[i + 1];
      AskedByClient(run[1..], ip, mac);
    }
  }

  /** The handshake: after a DISCOVER that is answered, and whatever else the client sends
      meanwhile, its REQUEST for the address it was offered is answered with an ACK for that
      address and that client, and the slot is the client's. */
  lemma Handshake(t: Table, ip: Ip, nm: Ip, a: Arrival, run: seq<Arrival>, c: Arrival)
    requires Acceptable(a) && |a.packet| >= 243 && IsDiscover(Received(a.packet, a.stack))
    requires Handle(t, ip, nm, a.packet, a.stack, a.at).1.Some?
    requires AllAcceptable(run) && FromClient(run, Received(a.packet, a.stack)[28..34])
    requires Acceptable(c) && |c.packet| >= 243
    requires Received(c.packet, c.stack)[28..34] == Received(a.packet, a.stack)[28..34]
    requires var offer := Handle(t, ip, nm, a.packet, a.stack, a.at).1.value;
             |offer| == 274 ==> IsRequestFor(Received(c.packet, c.stack), offer[16..20])
    ensures var mac := Received(a.packet, a.stack)[28..34];
            var (u, offer) := Handle(t, ip, nm, a.packet, a.stack, a.at);
            var (_, answer) := Handle(Serve(u, ip, nm, run), ip, nm, c.packet, c.stack, c.at);
            && |offer.value| == 274 && Read(offer.value[240..], 53) == Some([2])
            && answer.Some? && Gives(answer.value, 5, offer.value[16..20], mac)
  {
    var slot := DiscoverIsOffered(t, ip, nm, a);
    var mac := Received(a.packet, a.stack)[28..34];
    var u := Handle(t, ip, nm, a.packet, a.stack, a.at).0;
    ServeIsRun(u, ip, nm, run);
    AskedByClient(run, ip, mac);
    StaysReserved(u, slot, mac, AskedAll(run, ip));
    RequestIsGranted(Serve(u, ip, nm, run), ip, nm, c, slot);
  }

  /** The options of a reply, byte by byte. */
  lemma ReplyBytes(b: seq<Byte>, ip: Ip, nm: Ip, kind: Byte, slot: nat)
    requires |b| == SIZE && slot < 8
    ensures var r := ReplyTo(b, ip, nm, kind, slot);
            && |r| == 274 && r[0] == 2 && r[19] as int == 16 + slot
            && r[240..274] == [53, 1, kind, 54, 4] + ip + [1, 4] + nm + [3, 4] + ip + [6, 4] + ip
                              + [51, 4, 0, 1, 0x51, 0x80, 255]
  {
    ReplyReadsBack(b, ip, nm, kind, slot);
    ReplyNames(b, ip, nm, kind, slot);
    OptionBytes(kind, ip, nm);
    var r, a := ReplyTo(b, ip, nm, kind, slot), Addressed(b, ip, slot);
    assert r[240..274] == Encode(ReplyOptions(kind, ip, nm)) + [END];
    assert r[16..20][3] == r[19];
  }

  lemma OptionBytes(kind: Byte, ip: Ip, nm: Ip)
    ensures Encode(ReplyOptions(kind, ip, nm)) + [END] ==
            [53, 1, kind, 54, 4] + ip + [1, 4] + nm + [3, 4] + ip + [6, 4] + ip + [51, 4, 0, 1, 0x51, 0x80, 255]
  {
    var o := ReplyOptions(kind, ip, nm);
    var last := [51, 4] + [0, 1, 0x51, 0x80];
    EncodeLast(o);
    EncodeHead(o[4..], [6, 4], ip);
    EncodeHead(o[3..], [3, 4], ip);
    EncodeHead(o[2..], [1, 4], nm);
    EncodeHead(o[1..], [54, 4], ip);
    EncodeHead(o, [53, 1], [kind]);
    Flattened([53, 1] + [kind], [54, 4], ip, [1, 4], nm, [3, 4], [6, 4], last);
    assert [53, 1] + [kind] + [54, 4] == [53, 1, kind, 54, 4] && last + [255] == [51, 4, 0, 1, 0x51, 0x80, 255];
  }

  lemma EncodeLast(o: seq<Tlv>)
    requires |o| == 6 && (forall i :: 0 <= i < 6 ==> TlvOk(o[i])) && o[5] == Tlv(51, Be32(LEASE_S))
    ensures Encode(o[5..]) == [51, 4] + [0, 1, 0x51, 0x80]
  {
    assert o[5..][1..] == [];
    EncodeHead(o[5..], [51, 4], [0, 1, 0x51, 0x80]);
  }

  lemma Flattened(h: seq<Byte>, h1: seq<Byte>, ip: Ip, h2: seq<Byte>, nm: Ip, h3: seq<Byte>, h4: seq<Byte>,
                  last: seq<Byte>)
    ensures (h + (h1 + ip + (h2 + nm + (h3 + ip + (h4 + ip + last))))) + [255] ==
            (h + h1) + ip + h2 + nm + h3 + ip + h4 + ip + (last + [255])
  {
  }

  lemma EncodeHead(o: seq<Tlv>, head: seq<Byte>, data: seq<Byte>)
    requires o != [] && (forall i :: 0 <= i < |o| ==> TlvOk(o[i]))
    requires o[0].data == data && |data| < 256 && head == [o[0].code, |data| as Byte]
    ensures Encode(o) == head + data + Encode(o[1..])
  {
  }
}
