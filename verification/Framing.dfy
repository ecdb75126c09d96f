/** The messages as bytes: the packed structs that cross TCP, and the 128-byte messages
    that carry them over the UART.

    A handler is given a pointer to the first byte of a message. What lies behind the
    message in the receiver's memory is `stale`, and nothing is assumed about it.
  */
module Framing {
  import opened Bytes
  import opened Trees
  import opened Mesh
  import Sequences

  const MAX_MESSAGE_LENGTH: nat := 128
  const TUNNEL_ROOM: nat := MAX_MESSAGE_LENGTH - 5  // message bytes in a UART message
  const LARGEST: nat := 14 + MAX_MESSAGE_LENGTH     // the struct of a data message

  function Min(a: nat, b: nat): nat {
    if a < b then a else b
  }

  // ------------------------------------------------------------------- encoding

  function Word(x: Id): seq<Byte> {
    Le32(x as int)
  }

  function Words(xs: seq<Id>): (r: seq<Byte>)
    ensures |r| == 4 * |xs|
  {
    if xs == [] then [] else Word(xs[0]) + Words(xs[1..])
  }

  /** The fields have the width that the structs give them. */
  predicate Fits(m: Msg) {
    match m
    case Data(_, _, p) => |p| < 256
    case Update(_, _, children) => |children| <= MAX_CHILDREN
    case Ack(_, _, n) => n < 0x1_0000
    case Nak(_, _, n, _) => n < 0x1_0000
    case Unknown(_) => false
    case _ => true
  }

  function Header(priority: Byte, id: Byte, len: nat, source: Id): (r: seq<Byte>)
    requires len < 0x1_0000
    ensures |r| == 8
  {
    [priority, id] + Le16(len) + Word(source)
  }

  function MsgId(m: Msg): Byte {
    match m
    case Init(_, _) => 0
    case Data(_, _, _) => 1
    case Disconnect(_) => 2
    case Update(_, _, _) => 3
    case Ack(_, _, _) => 4
    case Nak(_, _, _, _) => 5
    case Unknown(id) => id
  }

  /** What comes after the eight bytes that all messages begin with. */
  function Body(m: Msg): (r: seq<Byte>)
    requires Fits(m)
    ensures 8 + |r| == Length(m)
  {
    match m
    case Init(_, p) => Word(p) + [] + []
    case Data(_, d, p) => Word(d) + Le16(|p|) + p[..Min(|p|, MAX_MESSAGE_LENGTH)]
    case Disconnect(_) => Zeros(22)
    case Update(_, d, children) =>
      Word(d) + [|children| as Byte] + (Words(children) + Zeros(16 - 4 * |children|))
    case Ack(_, d, n) => Word(d) + Le16(n) + []
    case Nak(_, d, n, e) => Word(d) + Le16(n) + [e]
  }

  /** The bytes that are sent: as many as the header says. */
  function Encode(m: Msg): (r: seq<Byte>)
    requires Fits(m)
    ensures |r| == Length(m)
  {
    Header(if m.Data? then 0x7F else 0xFF, MsgId(m), Length(m), m.source) + Body(m)
  }

  // ------------------------------------------------------------------- decoding

  function IdAt(b: seq<Byte>, i: nat): Id
    requires i + 4 <= |b|
  {
    FromLe32(b[i..i + 4]) as Id
  }

  function IdsAt(b: seq<Byte>, i: nat, n: nat): seq<Id>
    requires i + 4 * n <= |b|
    decreases n
  {
    if n == 0 then [] else [IdAt(b, i)] + IdsAt(b, i + 4, n - 1)
  }

  /** The length field. */
  function HeaderLen(b: seq<Byte>): (n: nat)
    requires |b| >= 4
  {
    FromLe16(b[2..4])
  }

  /** A message at the front of memory; a count that is larger than the field it counts
      in gives what the field holds. */
  function Parse(b: seq<Byte>): Msg
    requires |b| >= LARGEST
  {
    match b[1] as int
    case 0 => Init(IdAt(b, 4), IdAt(b, 8))
    case 1 => Data(IdAt(b, 4), IdAt(b, 8), b[14..14 + Min(FromLe16(b[12..14]), MAX_MESSAGE_LENGTH)])
    case 2 => Disconnect(IdAt(b, 4))
    case 3 => Update(IdAt(b, 4), IdAt(b, 8), IdsAt(b, 13, Min(b[12] as int, MAX_CHILDREN)))
    case 4 => Ack(IdAt(b, 4), IdAt(b, 8), FromLe16(b[12..14]))
    case 5 => Nak(IdAt(b, 4), IdAt(b, 8), FromLe16(b[12..14]), b[14])
    case _ => Unknown(b[1])
  }

  lemma WordRoundTrip(b: seq<Byte>, i: nat, x: Id)
    requires i + 4 <= |b| && b[i..i + 4] == Word(x)
    ensures IdAt(b, i) == x
  {
    Le32RoundTrip(x as int);
  }

  lemma {:induction false} WordsRoundTrip(b: seq<Byte>, i: nat, xs: seq<Id>)
    requires i + 4 * |xs| <= |b| && b[i..i + 4 * |xs|] == Words(xs)
    ensures IdsAt(b, i, |xs|) == xs
    decreases |xs|
  {
    if xs != [] {
      var w := b[i..i + 4 * |xs|];
      assert b[i..i + 4] == w[..4] == Word(xs[0]);
      assert b[i + 4..i + 4 + 4 * |xs[1..]|] == w[4..] == Words(xs[1..]);
      WordRoundTrip(b, i, xs[0]);
      WordsRoundTrip(b, i + 4, xs[1..]);
    }
  }

  /** The header fields, whatever follows. */
  lemma HeaderRoundTrip(b: seq<Byte>, priority: Byte, id: Byte, len: nat, source: Id)
    requires len < 0x1_0000 && |b| >= 8 && b[..8] == Header(priority, id, len, source)
    ensures b[1] == id && HeaderLen(b) == len && IdAt(b, 4) == source
  {
    assert b[0..0 + |[priority, id] + Le16(len) + Word(source)|] == [priority, id] + Le16(len) + Word(source);
    Sequences.ThreeParts(b, 0, [priority, id], Le16(len), Word(source));
    assert b[..8][1] == b[1];
    Le16RoundTrip(len);
    WordRoundTrip(b, 4, source);
  }

  /** A message at the front of memory: its header fields, and its body. */
  predicate InFront(b: seq<Byte>, m: Msg)
    requires Fits(m)
  {
    && |b| >= Length(m) && HeaderLen(b) == Length(m) && b[1] == MsgId(m) && IdAt(b, 4) == m.source
    && b[8..Length(m)] == Body(m)
  }

  lemma EncodeHeader(m: Msg, stale: seq<Byte>)
    requires Fits(m)
    ensures InFront(Encode(m) + stale, m)
  {
    var h := Header(if m.Data? then 0x7F else 0xFF, MsgId(m), Length(m), m.source);
    var b := Encode(m) + stale;
    Sequences.Joined(h, Body(m));
    Sequences.Joined(Encode(m), stale);
    Sequences.SameFront(b, Encode(m), Length(m), 0, 8);
    Sequences.SameFront(b, Encode(m), Length(m), 8, Length(m));
    HeaderRoundTrip(b, h[0], MsgId(m), Length(m), m.source);
  }

  /** Reading a message back gives the message, whatever lies behind it; of an over-long
      payload, the 128 bytes that are sent. */
  lemma ParseEncode(m: Msg, stale: seq<Byte>)
    requires Fits(m) && |Encode(m) + stale| >= LARGEST
    ensures Parse(Encode(m) + stale) == AsSent(m)
  {
    EncodeHeader(m, stale);
    ParseInFront(Encode(m) + stale, m);
  }

  function AsSent(m: Msg): Msg {
    if m.Data? then m.(payload := m.payload[..Min(|m.payload|, MAX_MESSAGE_LENGTH)]) else m
  }

  lemma ParseInFront(b: seq<Byte>, m: Msg)
    requires |b| >= LARGEST && Fits(m) && InFront(b, m)
    ensures Parse(b) == AsSent(m)
  {
    match m
    case Init(_, p) =>
      Fields(b, Word(p), [], []);
      WordRoundTrip(b, 8, p);
    case Data(_, d, p) =>
      Fields(b, Word(d), Le16(|p|), p[..Min(|p|, MAX_MESSAGE_LENGTH)]);
      WordRoundTrip(b, 8, d);
      Le16RoundTrip(|p|);
    case Disconnect(_) =>
    case Update(_, d, children) => ParseUpdate(b, d, children);
    case Ack(_, d, n) =>
      Fields(b, Word(d), Le16(n), []);
      WordRoundTrip(b, 8, d);
      Le16RoundTrip(n);
    case Nak(_, d, n, e) =>
      Fields(b, Word(d), Le16(n), [e]);
      WordRoundTrip(b, 8, d);
      Le16RoundTrip(n);
      assert b[14..15][0] == b[14];
  }

  /** A body of three fields. */
  lemma Fields(b: seq<Byte>, x: seq<Byte>, y: seq<Byte>, z: seq<Byte>)
    requires |b| >= 8 + |x + y + z| && b[8..8 + |x + y + z|] == x + y + z
    ensures var j := 8 + |x|; var k := j + |y|;
            b[8..j] == x && b[j..k] == y && b[k..k + |z|] == z
  {
    Sequences.ThreeParts(b, 8, x, y, z);
  }

  lemma ParseUpdate(b: seq<Byte>, d: Id, children: seq<Id>)
    requires |b| >= LARGEST && |children| <= MAX_CHILDREN
    requires b[8..29] == Word(d) + [|children| as Byte] + (Words(children) + Zeros(16 - 4 * |children|))
    ensures IdAt(b, 8) == d && b[12] as int == |children| && IdsAt(b, 13, |children|) == children
  {
    var w, z := Words(children), Zeros(16 - 4 * |children|);
    Fields(b, Word(d), [|children| as Byte], w + z);
    WordRoundTrip(b, 8, d);
    assert b[12..13][0] == b[12];
    Sequences.Joined(w, z);
    Sequences.SliceOfSlice(b, 13, 29, 0, |w|);
    WordsRoundTrip(b, 13, children);
  }

  // ------------------------------------------------------------------ crossings

  /** The UART message for the first `n` bytes of a message. */
  function Tunnelled(b: seq<Byte>, n: nat): (r: seq<Byte>)
    requires n <= |b|
    ensures |r| == MAX_MESSAGE_LENGTH
  {
    var k := Min(n, TUNNEL_ROOM);
    [2] + Le16(k + 5) + Le16(k) + b[..k] + Zeros(TUNNEL_ROOM - k)
  }

  /** One leg of the way, with the memory behind the message at its far end. */
  datatype Hop = Tcp(stale: seq<Byte>) | Uart(stale: seq<Byte>)

  /** Memory with a message at its front that is no longer than the largest struct. */
  predicate Holds(b: seq<Byte>) {
    |b| >= LARGEST && 4 <= HeaderLen(b) <= LARGEST
  }

  predicate Roomy(h: Hop) {
    |h.stale| >= LARGEST
  }

  /** TCP carries as many bytes as the header says; over the UART goes what fits in
      one message. */
  function Cross(b: seq<Byte>, h: Hop): (r: seq<Byte>)
    requires Holds(b) && Roomy(h)
    ensures Holds(r)
    ensures r[..Min(HeaderLen(b), TUNNEL_ROOM)] == b[..Min(HeaderLen(b), TUNNEL_ROOM)]
    ensures h.Tcp? ==> r[..HeaderLen(b)] == b[..HeaderLen(b)]
  {
    var n := HeaderLen(b);
    var r := if h.Tcp? then b[..n] + h.stale else Tunnelled(b, n)[5..] + h.stale;
    assert r[..Min(n, TUNNEL_ROOM)] == b[..Min(n, TUNNEL_ROOM)];
    assert r[2..4] == r[..Min(n, TUNNEL_ROOM)][2..4] == b[2..4];
    r
  }

  function Through(b: seq<Byte>, hops: seq<Hop>): (r: seq<Byte>)
    requires Holds(b) && forall i :: 0 <= i < |hops| ==> Roomy(hops[i])
    ensures Holds(r)
    decreases |hops|
  {
    if hops == [] then b else Through(Cross(b, hops[0]), hops[1..])
  }

  /** Over any number of relays and UART crossings a message keeps its first bytes: all
      that the header counts, or 123 if that is less. */
  lemma {:induction false} Kept(b: seq<Byte>, hops: seq<Hop>)
    requires Holds(b) && forall i :: 0 <= i < |hops| ==> Roomy(hops[i])
    ensures var k := Min(HeaderLen(b), TUNNEL_ROOM);
            Through(b, hops)[..k] == b[..k] && HeaderLen(Through(b, hops)) == HeaderLen(b)
    decreases |hops|
  {
    if hops != [] {
      var c, k := Cross(b, hops[0]), Min(HeaderLen(b), TUNNEL_ROOM);
      assert c[2..4] == c[..k][2..4] == b[..k][2..4] == b[2..4];
      Kept(c, hops[1..]);
    }
  }

  /** Relays alone keep the whole message. */
  lemma {:induction false} KeptByTcp(b: seq<Byte>, hops: seq<Hop>)
    requires Holds(b) && forall i :: 0 <= i < |hops| ==> Roomy(hops[i]) && hops[i].Tcp?
    ensures Through(b, hops)[..HeaderLen(b)] == b[..HeaderLen(b)]
    decreases |hops|
  {
    if hops != [] {
      var c, n := Cross(b, hops[0]), HeaderLen(b);
      assert c[2..4] == c[..n][2..4] == b[..n][2..4] == b[2..4];
      KeptByTcp(c, hops[1..]);
    }
  }

  /** A longer message is cut to exactly 123 bytes: the rest is what the receiver had in
      memory. */
  lemma CutAtFirstUart(b: seq<Byte>, stale: seq<Byte>)
    requires Holds(b) && HeaderLen(b) > TUNNEL_ROOM && |stale| >= LARGEST
    ensures Cross(b, Uart(stale)) == b[..TUNNEL_ROOM] + stale
  {
    assert Tunnelled(b, HeaderLen(b))[5..] == b[..TUNNEL_ROOM];
  }

  ghost predicate SafeAcross(b: seq<Byte>)
    requires Holds(b)
  {
    forall hops: seq<Hop> :: (forall i :: 0 <= i < |hops| ==> Roomy(hops[i])) ==>
      Through(b, hops)[..HeaderLen(b)] == b[..HeaderLen(b)]
  }

  /** So exactly the messages of at most 123 bytes get through every route whole. */
  lemma WholeExactlyWhenItFits(b: seq<Byte>)
    requires Holds(b)
    ensures SafeAcross(b) <==> HeaderLen(b) <= TUNNEL_ROOM
  {
    var n := HeaderLen(b);
    if n <= TUNNEL_ROOM {
      forall hops: seq<Hop> | forall i :: 0 <= i < |hops| ==> Roomy(hops[i])
        ensures Through(b, hops)[..n] == b[..n]
      {
        Kept(b, hops);
      }
    } else {
      var hops := Spoils(b);
    }
  }

  /** A UART crossing that spoils a longer message. */
  lemma Spoils(b: seq<Byte>) returns (hops: seq<Hop>)
    requires Holds(b) && HeaderLen(b) > TUNNEL_ROOM
    ensures (forall i :: 0 <= i < |hops| ==> Roomy(hops[i])) && Through(b, hops)[..HeaderLen(b)] != b[..HeaderLen(b)]
  {
    var other: Byte, n := if b[TUNNEL_ROOM] == 0 then 1 else 0, HeaderLen(b);
    var stale := [other] + Zeros(LARGEST);
    hops := [Uart(stale)];
    CutAtFirstUart(b, stale);
    var r := b[..TUNNEL_ROOM] + stale;
    assert hops[1..] == [] && Through(b, hops) == Through(r, []) == r;
    assert r[..n][TUNNEL_ROOM] == r[TUNNEL_ROOM] == other != b[TUNNEL_ROOM] == b[..n][TUNNEL_ROOM];
  }

  /** A message of at most 123 bytes stands at the front of memory at the far end, too. */
  lemma StaysInFront(b: seq<Byte>, m: Msg, hops: seq<Hop>)
    requires Holds(b) && Fits(m) && Length(m) <= TUNNEL_ROOM && InFront(b, m)
    requires forall i :: 0 <= i < |hops| ==> Roomy(hops[i])
    ensures InFront(Through(b, hops), m)
  {
    Kept(b, hops);
    var r, n := Through(b, hops), Length(m);
    Sequences.SameFront(r, b, n, 4, 8);
    Sequences.SameFront(r, b, n, 8, n);
    assert r[1] == r[..n][1] == b[..n][1] == b[1];
  }

  /** What a message is read as there: the message, if it is at most 123 bytes long (for
      data, a payload of at most 109). */
  lemma ArrivesWhole(m: Msg, stale: seq<Byte>, hops: seq<Hop>)
    requires Fits(m) && Length(m) <= TUNNEL_ROOM && |stale| >= LARGEST
    requires forall i :: 0 <= i < |hops| ==> Roomy(hops[i])
    ensures Holds(Encode(m) + stale)
    ensures Parse(Through(Encode(m) + stale, hops)) == m
  {
    EncodeHeader(m, stale);
    StaysInFront(Encode(m) + stale, m, hops);
    ParseInFront(Through(Encode(m) + stale, hops), m);
    SentWhole(m);
  }

  lemma SentWhole(m: Msg)
    requires Length(m) <= TUNNEL_ROOM
    ensures AsSent(m) == m
  {
    if m.Data? { assert m.payload[..|m.payload|] == m.payload; }
  }

  /** Longer data still reaches the node it is for, with the first 109 bytes of it. */
  lemma LongDataKeepsItsHead(m: Msg, stale: seq<Byte>, hops: seq<Hop>)
    requires m.Data? && Fits(m) && Length(m) > TUNNEL_ROOM && |stale| >= LARGEST
    requires forall i :: 0 <= i < |hops| ==> Roomy(hops[i])
    ensures Holds(Encode(m) + stale)
    ensures var r := Parse(Through(Encode(m) + stale, hops));
            && r.Data? && r.source == m.source && r.dest == m.dest
            && |r.payload| == Min(|m.payload|, MAX_MESSAGE_LENGTH) && r.payload[..109] == m.payload[..109]
  {
    var b := Encode(m) + stale;
    EncodeHeader(m, stale);
    ParseEncode(m, stale);
    Kept(b, hops);
    var r := Through(b, hops);
    SameHead(b, r);
    assert Parse(b).payload[..109] == m.payload[..109];
  }

  lemma SameHead(b: seq<Byte>, r: seq<Byte>)
    requires |b| >= LARGEST && |r| >= LARGEST && r[..TUNNEL_ROOM] == b[..TUNNEL_ROOM]
    requires Parse(b).Data? && |Parse(b).payload| >= 109
    ensures Parse(r).Data? && Parse(r).source == Parse(b).source && Parse(r).dest == Parse(b).dest
    ensures |Parse(r).payload| == |Parse(b).payload| && Parse(r).payload[..109] == Parse(b).payload[..109]
  {
    var h := b[..TUNNEL_ROOM];
    assert b[1] == h[1] == r[1];
    assert b[4..8] == h[4..8] == r[4..8] && b[8..12] == h[8..12] == r[8..12] && b[12..14] == h[12..14] == r[12..14];
    assert Parse(r).payload[..109] == r[14..123] == h[14..] == b[14..123] == Parse(b).payload[..109];
  }

  // ------------------------------------------------------------- UART messages

  /** All 128 bytes that go over the UART. Of the short messages these are more than there
      are: `behind` is what lies behind them in the sender's memory. A node-remove counts
      11 bytes, as a node-add does. */
  function EncodeSerial(x: Serial, behind: seq<Byte>): (r: seq<Byte>)
    requires (x.Tunnel? ==> Fits(x.msg)) && |behind| >= MAX_MESSAGE_LENGTH
    ensures |r| == MAX_MESSAGE_LENGTH
  {
    match x
    case NodeAdd(p, c) => [0] + Le16(11) + Word(p) + Word(c) + behind[..117]
    case NodeRemove(n) => [1] + Le16(11) + Word(n) + behind[..121]
    case Tunnel(m) => Tunnelled(Encode(m), Length(m))
    case FatalError(e) => [3] + Le16(7) + Word(e) + behind[..121]
  }

  /** How the receiver takes the 128 bytes, with `stale` behind its copy of them. */
  function ParseSerial(b: seq<Byte>, stale: seq<Byte>): Option<Serial>
    requires |b| == MAX_MESSAGE_LENGTH && |stale| >= LARGEST
  {
    match b[0] as int
    case 0 => Some(NodeAdd(IdAt(b, 3), IdAt(b, 7)))
    case 1 => Some(NodeRemove(IdAt(b, 3)))
    case 2 => Some(Tunnel(Parse(b[5..] + stale)))
    case 3 => Some(FatalError(IdAt(b, 3)))
    case _ => None
  }

  lemma TunnelFront(e: seq<Byte>, stale: seq<Byte>)
    requires |e| <= TUNNEL_ROOM
    ensures Tunnelled(e, |e|)[5..] + stale == e + (Zeros(TUNNEL_ROOM - |e|) + stale)
  {
    assert Tunnelled(e, |e|)[5..] == e + Zeros(TUNNEL_ROOM - |e|);
  }

  lemma TunnelRoundTrip(m: Msg, stale: seq<Byte>)
    requires |stale| >= LARGEST && Fits(m) && Length(m) <= TUNNEL_ROOM
    ensures Parse(Tunnelled(Encode(m), Length(m))[5..] + stale) == m
  {
    TunnelFront(Encode(m), stale);
    ParseEncode(m, Zeros(TUNNEL_ROOM - Length(m)) + stale);
    SentWhole(m);
  }

  /** A UART message is read as what was sent, if the message in it has at most 123 bytes,
      whatever lies behind it on either side. */
  lemma SerialRoundTrip(x: Serial, behind: seq<Byte>, stale: seq<Byte>)
    requires |behind| >= MAX_MESSAGE_LENGTH && |stale| >= LARGEST
    requires x.Tunnel? ==> Fits(x.msg) && Length(x.msg) <= TUNNEL_ROOM
    ensures ParseSerial(EncodeSerial(x, behind), stale) == Some(x)
  {
    var b := EncodeSerial(x, behind);
    match x
    case NodeAdd(p, c) =>
      assert b[3..7] == Word(p) && b[7..11] == Word(c);
      WordRoundTrip(b, 3, p);
      WordRoundTrip(b, 7, c);
    case NodeRemove(n) =>
      assert b[3..7] == Word(n);
      WordRoundTrip(b, 3, n);
    case Tunnel(m) =>
      TunnelRoundTrip(m, stale);
    case FatalError(e) =>
      assert b[3..7] == Word(e);
      WordRoundTrip(b, 3, e);
  }

  // ------------------------------------------------------------------- buffers

  /** A data message with `n` bytes of `data` put in. */
  function WithPayload(b: seq<Byte>, data: seq<Byte>, n: Byte): seq<Byte>
    requires |b| == LARGEST && n as int <= |data|
  {
    var k := Min(n as int, MAX_MESSAGE_LENGTH);
    Splice(Splice(Splice(b, 14, data[..k]), 12, Le16(n as int)), 2, Le16((HeaderLen(b) + k) % 0x1_0000))
  }

  lemma HeadInParts(r: seq<Byte>, b: seq<Byte>)
    requires |r| == |b| >= 12 && r[4..12] == b[4..12]
    ensures r[..8] == r[..2] + r[2..4] + b[..8][4..] && r[8..12] == b[8..12]
  {
    Sequences.SliceOfSlice(r, 4, 12, 0, 4);
    Sequences.SliceOfSlice(b, 4, 12, 0, 4);
    Sequences.SliceOfSlice(r, 4, 12, 4, 8);
    Sequences.SliceOfSlice(b, 4, 12, 4, 8);
    assert b[..8][4..] == b[4..8];
  }

  lemma WithPayloadFields(b: seq<Byte>, source: Id, dest: Id, payload: seq<Byte>)
    requires |payload| < 256 && |b| == LARGEST
    requires b[..8] == Header(0x7F, 1, 14, source) && b[8..12] == Word(dest) && b[14..] == Zeros(MAX_MESSAGE_LENGTH)
    ensures var r, k := WithPayload(b, payload, |payload| as Byte), Min(|payload|, MAX_MESSAGE_LENGTH);
            && r[..8] == Header(0x7F, 1, 14 + k, source) && r[8..12] == Word(dest) && r[12..14] == Le16(|payload|)
            && r[14..] == payload[..k] + Zeros(MAX_MESSAGE_LENGTH - k)
  {
    var k := Min(|payload|, MAX_MESSAGE_LENGTH);
    assert HeaderLen(b) == 14 by { HeaderRoundTrip(b, 0x7F, 1, 14, source); }
    assert (HeaderLen(b) + k) % 0x1_0000 == 14 + k;
    var b1 := Splice(b, 14, payload[..k]);
    var b2 := Splice(b1, 12, Le16(|payload|));
    var r := Splice(b2, 2, Le16(14 + k));
    assert r[4..12] == b[4..12] by {
      SpliceKeeps(b2, 2, Le16(14 + k), 4, 12);
      SpliceKeeps(b1, 12, Le16(|payload|), 4, 12);
      SpliceKeeps(b, 14, payload[..k], 4, 12);
    }
    assert r[14..] == payload[..k] + Zeros(MAX_MESSAGE_LENGTH - k) by {
      SpliceKeeps(b2, 2, Le16(14 + k), 14, |b|);
      SpliceKeeps(b1, 12, Le16(|payload|), 14, |b|);
    }
    assert r[12..14] == Le16(|payload|) by { SpliceKeeps(b2, 2, Le16(14 + k), 12, 14); }
    assert r[..8] == Header(0x7F, 1, 14 + k, source) by {
      HeadInParts(r, b);
    }
    assert r[8..12] == r[4..12][4..] == b[4..12][4..] == b[8..12];
  }

  lemma WithPayloadEncodes(b: seq<Byte>, source: Id, dest: Id, payload: seq<Byte>)
    requires |payload| < 256 && b == Encode(Data(source, dest, [])) + Zeros(MAX_MESSAGE_LENGTH)
    ensures WithPayload(b, payload, |payload| as Byte) ==
            Encode(Data(source, dest, payload)) + Zeros(MAX_MESSAGE_LENGTH - Min(|payload|, MAX_MESSAGE_LENGTH))
  {
    var k := Min(|payload|, MAX_MESSAGE_LENGTH);
    assert b[..8] == Header(0x7F, 1, 14, source) && b[8..12] == Word(dest) && b[14..] == Zeros(MAX_MESSAGE_LENGTH) by {
      EncodeEmpty(source, dest);
    }
    WithPayloadFields(b, source, dest, payload);
    assert Length(Data(source, dest, payload)) == 14 + k;
    Rejoined(WithPayload(b, payload, |payload| as Byte), Header(0x7F, 1, 14 + k, source), Word(dest), Le16(|payload|),
             payload[..k], Zeros(MAX_MESSAGE_LENGTH - k));
  }

  lemma Rejoined(r: seq<Byte>, a: seq<Byte>, b: seq<Byte>, c: seq<Byte>, d: seq<Byte>, z: seq<Byte>)
    requires |r| >= 14 && r[..8] == a && r[8..12] == b && r[12..14] == c && r[14..] == d + z
    ensures r == a + (b + c + d) + z
  {
    assert r == r[..8] + r[8..12] + r[12..14] + r[14..];
  }

  lemma EncodeEmpty(source: Id, dest: Id)
    ensures var h := Header(0x7F, 1, 14, source);
            Encode(Data(source, dest, [])) == h + Word(dest) + Le16(0)
  {
    assert Body(Data(source, dest, [])) == Word(dest) + Le16(0);
    assert Encode(Data(source, dest, [])) == Header(0x7F, 1, 14, source) + (Word(dest) + Le16(0));
  }

  lemma BlankData(source: Id, dest: Id)
    ensures Splice(Splice(Zeros(LARGEST), 0, Header(0x7F, 1, 14, source)), 8, Word(dest)) ==
            Encode(Data(source, dest, [])) + Zeros(MAX_MESSAGE_LENGTH)
  {
    var h := Header(0x7F, 1, 14, source);
    var c := Splice(Zeros(LARGEST), 0, h);
    var r := Splice(c, 8, Word(dest));
    SpliceKeeps(c, 8, Word(dest), 0, 8);
    SpliceKeeps(c, 8, Word(dest), 12, LARGEST);
    assert r[..8] == h && r[12..14] == Le16(0) && r[14..] == [] + Zeros(MAX_MESSAGE_LENGTH);
    Rejoined(r, h, Word(dest), Le16(0), [], Zeros(MAX_MESSAGE_LENGTH));
  }

  /** TCP_DATA_MSG */
  class TcpDataMsg {
    const msg: array<Byte>

    constructor (source: Id, dest: Id)
      ensures fresh(msg) && msg[..] == Encode(Data(source, dest, [])) + Zeros(MAX_MESSAGE_LENGTH)
    {
      msg := new Byte[LARGEST](_ => 0);
      new;
      assert msg[..] == Zeros(LARGEST);
      Copy(msg, 0, Header(0x7F, 1, 14, source));
      Copy(msg, 8, Word(dest));
      BlankData(source, dest);
    }

    /** The length grows by what is copied, but the count is the caller's. */
    method AddMessage(data: seq<Byte>, n: Byte)
      requires msg.Length == LARGEST && n as int <= |data|
      modifies msg
      ensures msg[..] == WithPayload(old(msg[..]), data, n)
    {
      var k := Min(n as int, MAX_MESSAGE_LENGTH);
      var len := FromLe16(msg[2..4]);
      Copy(msg, 14, data[..k]);
      Copy(msg, 12, Le16(n as int));
      Copy(msg, 2, Le16((len + k) % 0x1_0000));
    }

    method SetMsg(b: seq<Byte>)
      requires msg.Length == LARGEST <= |b|
      modifies msg
      ensures msg[..] == b[..LARGEST]
    {
      Copy(msg, 0, b[..LARGEST]);
    }
  }

  /** The message that `send_data` builds is the encoding of what it is given, but for the
      length, of which it takes the lowest eight bits. */
  method BuildData(source: Id, dest: Id, payload: seq<Byte>) returns (m: TcpDataMsg)
    ensures fresh(m.msg) && m.msg.Length == LARGEST
    ensures var sent := payload[..|payload| % 256];
            m.msg[..] == Encode(Data(source, dest, sent)) + Zeros(MAX_MESSAGE_LENGTH - Min(|sent|, MAX_MESSAGE_LENGTH))
  {
    m := new TcpDataMsg(source, dest);
    ghost var sent := payload[..|payload| % 256];
    WithPayloadEncodes(m.msg[..], source, dest, sent);
    assert sent[..Min(|sent|, MAX_MESSAGE_LENGTH)] == payload[..Min(|sent|, MAX_MESSAGE_LENGTH)];
    m.AddMessage(payload, (|payload| % 256) as Byte);
  }

  /** A UART message with the first `n` bytes of a message put in. */
  function WithMessage(u: seq<Byte>, b: seq<Byte>, n: Byte): seq<Byte>
    requires |u| == MAX_MESSAGE_LENGTH && n as int <= |b|
  {
    var k := Min(n as int, TUNNEL_ROOM);
    Splice(Splice(Splice(u, 5, b[..k]), 3, Le16(k)), 1, Le16(k + 5))
  }

  lemma WithMessageTunnels(u: seq<Byte>, b: seq<Byte>, n: Byte)
    requires u == [2] + Zeros(MAX_MESSAGE_LENGTH - 1) && n as int <= |b|
    ensures WithMessage(u, b, n) == Tunnelled(b, n as int)
  {
    var k := Min(n as int, TUNNEL_ROOM);
    var u1 := Splice(u, 5, b[..k]);
    var u2 := Splice(u1, 3, Le16(k));
    var r := Splice(u2, 1, Le16(k + 5));
    SpliceKeeps(u2, 1, Le16(k + 5), 0, 1);
    SpliceKeeps(u2, 1, Le16(k + 5), 3, |u|);
    SpliceKeeps(u1, 3, Le16(k), 0, 1);
    SpliceKeeps(u1, 3, Le16(k), 5, |u|);
    SpliceKeeps(u, 5, b[..k], 0, 1);
    SpliceKeeps(u, 5, b[..k], 5 + k, |u|);
    assert r[..1] == [2] && r[1..3] == Le16(k + 5) && r[3..5] == u2[3..5] == Le16(k);
    assert u[5 + k..] == Zeros(TUNNEL_ROOM - k);
    assert u1[5..] == b[..k] + Zeros(TUNNEL_ROOM - k);
    RejoinedSerial(r, [2], Le16(k + 5), Le16(k), b[..k], Zeros(TUNNEL_ROOM - k));
  }

  lemma RejoinedSerial(r: seq<Byte>, a: seq<Byte>, b: seq<Byte>, c: seq<Byte>, d: seq<Byte>, z: seq<Byte>)
    requires |r| >= 5 && r[..1] == a && r[1..3] == b && r[3..5] == c && r[5..] == d + z
    ensures r == a + b + c + d + z
  {
    assert r == r[..1] + r[1..3] + r[3..5] + r[5..];
  }

  lemma TunnelledFields(b: seq<Byte>, n: nat)
    requires n <= |b|
    ensures var u, k := Tunnelled(b, n), Min(n, TUNNEL_ROOM);
            FromLe16(u[3..5]) == k && u[5..][..k] == b[..k]
  {
    var u, k := Tunnelled(b, n), Min(n, TUNNEL_ROOM);
    assert u[3..5] == Le16(k) && u[5..] == b[..k] + Zeros(TUNNEL_ROOM - k);
    Le16RoundTrip(k);
  }

  /** SERIAL_DATA_MESSAGE */
  class SerialDataMessage {
    const msg: array<Byte>

    constructor ()
      ensures fresh(msg) && msg[..] == [2] + Zeros(MAX_MESSAGE_LENGTH - 1)
    {
      msg := new Byte[MAX_MESSAGE_LENGTH](i => if i == 0 then 2 else 0);
    }

    /** Puts in what fits of the first `n` bytes of a message. */
    method AddMessage(b: seq<Byte>, n: Byte)
      requires msg.Length == MAX_MESSAGE_LENGTH && n as int <= |b|
      modifies msg
      ensures msg[..] == WithMessage(old(msg[..]), b, n)
    {
      var k := Min(n as int, TUNNEL_ROOM);
      Copy(msg, 5, b[..k]);
      Copy(msg, 3, Le16(k));
      Copy(msg, 1, Le16(k + 5));
    }

    method SetMsg(b: seq<Byte>)
      requires msg.Length == MAX_MESSAGE_LENGTH <= |b|
      modifies msg
      ensures msg[..] == b[..MAX_MESSAGE_LENGTH]
    {
      Copy(msg, 0, b[..MAX_MESSAGE_LENGTH]);
    }

    /** The first `n` of the bytes are those of the message that was put in at the other
        end, as many as fit. */
    method GetData() returns (data: seq<Byte>, n: nat)
      requires msg.Length == MAX_MESSAGE_LENGTH
      ensures data == msg[5..]
      ensures forall b: seq<Byte>, k: nat :: k <= |b| && msg[..] == Tunnelled(b, k) ==>
                n == Min(k, TUNNEL_ROOM) && data[..n] == b[..n]
    {
      data, n := msg[5..], FromLe16(msg[3..5]);
      forall b: seq<Byte>, k: nat | k <= |b| && msg[..] == Tunnelled(b, k)
        ensures n == Min(k, TUNNEL_ROOM) && data[..n] == b[..n]
      {
        TunnelledFields(b, k);
        assert msg[..][3..5] == msg[3..5] && msg[..][5..] == data;
      }
    }
  }

  /** One UART crossing, as the two halves of a node do it. */
  method CrossUart(b: seq<Byte>, stale: seq<Byte>) returns (r: seq<Byte>, n: nat)
    requires Holds(b) && |stale| >= LARGEST
    ensures r == Cross(b, Uart(stale)) && n == Min(HeaderLen(b), TUNNEL_ROOM)
  {
    var out := new SerialDataMessage();
    WithMessageTunnels(out.msg[..], b, HeaderLen(b) as Byte);
    out.AddMessage(b, HeaderLen(b) as Byte);
    var incoming := new SerialDataMessage();
    incoming.SetMsg(out.msg[..]);
    r, n := incoming.GetData();
    assert incoming.msg[..] == Tunnelled(b, HeaderLen(b));
    r := r + stale;
  }
}
