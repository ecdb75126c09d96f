/** The packed layouts, byte by byte: what stands on the wire at which offset. */
module Layout {
  import opened Bytes
  import opened Trees
  import opened Mesh
  import opened Framing
  import Sequences

  /** A 32-bit number at offset `i`, lowest byte first. */
  predicate LowFirst(b: seq<Byte>, i: nat, x: int) {
    && i + 4 <= |b|
    && b[i] as int == x % 256 && b[i + 1] as int == x / 256 % 256
    && b[i + 2] as int == x / 65536 % 256 && b[i + 3] as int == x / 16777216
  }

  lemma WordBytes(x: Id)
    ensures LowFirst(Word(x), 0, x as int)
  {
    var n := x as int;
    assert n == 65536 * (n / 65536) + n % 65536;
    assert n % 65536 % 256 == n % 256;
    assert n % 65536 / 256 == n / 256 % 256;
    assert n / 65536 / 256 == n / 16777216;
  }

  lemma WordAt(b: seq<Byte>, i: nat, x: Id)
    requires i + 4 <= |b| && b[i..i + 4] == Word(x)
    ensures LowFirst(b, i, x as int)
  {
    WordBytes(x);
    var w := b[i..i + 4];
    assert b[i] == w[0] && b[i + 1] == w[1] && b[i + 2] == w[2] && b[i + 3] == w[3];
  }

  lemma HalfAt(b: seq<Byte>, i: nat, n: int)
    requires 0 <= n < 0x1_0000 && i + 2 <= |b| && b[i..i + 2] == Le16(n)
    ensures b[i] as int == n % 256 && b[i + 1] as int == n / 256
  {
    var w := b[i..i + 2];
    assert b[i] == w[0] && b[i + 1] == w[1];
  }

  /** Up to four numbers, one after the other. */
  predicate ListAt(b: seq<Byte>, i: nat, xs: seq<Id>) {
    && (|xs| > 0 ==> LowFirst(b, i, xs[0] as int))
    && (|xs| > 1 ==> LowFirst(b, i + 4, xs[1] as int))
    && (|xs| > 2 ==> LowFirst(b, i + 8, xs[2] as int))
    && (|xs| > 3 ==> LowFirst(b, i + 12, xs[3] as int))
  }

  lemma {:induction false} WordsAt(b: seq<Byte>, i: nat, xs: seq<Id>, n: nat)
    requires n == 4 * |xs| && |xs| <= 4 && i + n <= |b| && b[i..i + n] == Words(xs)
    ensures ListAt(b, i, xs)
    decreases |xs|
  {
    if xs != [] {
      WordsSplit(b, i, xs, n);
      WordAt(b, i, xs[0]);
      WordsAt(b, i + 4, xs[1..], n - 4);
    }
  }

  lemma WordsSplit(b: seq<Byte>, i: nat, xs: seq<Id>, n: nat)
    requires xs != [] && n == 4 * |xs| && i + n <= |b| && b[i..i + n] == Words(xs)
    ensures b[i..i + 4] == Word(xs[0]) && b[i + 4..i + 4 + (n - 4)] == Words(xs[1..])
  {
    Sequences.Joined(Word(xs[0]), Words(xs[1..]));
    Sequences.SliceOfSlice(b, i, i + n, 0, 4);
    Sequences.SliceOfSlice(b, i, i + n, 4, n);
  }

  /** The eight bytes that every message begins with: the priority, the id, the length and
      the source. */
  predicate Begins(b: seq<Byte>, priority: int, id: int, len: int, source: Id) {
    && |b| == len >= 8
    && b[0] as int == priority && b[1] as int == id
    && b[2] as int == len % 256 && b[3] as int == len / 256
    && LowFirst(b, 4, source as int)
  }

  /** All six messages: the priority is 0x7F for data and 0xFF for all others, then come the
      ids 0 to 5, the lengths of the structs, and source and parent or destination. Behind
      them stand the count and the payload of data, the number of children and four places
      for them in an update, the received bytes in ACK and NAK, and the error of a NAK; what
      is not used is zero. */
  lemma MessageLayout(m: Msg)
    requires Fits(m)
    ensures var b := Encode(m);
            match m
            case Init(source, parent) => Begins(b, 0xFF, 0, 12, source) && LowFirst(b, 8, parent as int)
            case Data(source, dest, p) =>
              && Begins(b, 0x7F, 1, 14 + if |p| > 128 then 128 else |p|, source) && LowFirst(b, 8, dest as int)
              && b[12] as int == |p| && b[13] == 0
              && forall i :: 0 <= i < |p| && i < 128 ==> b[14 + i] == p[i]
            case Disconnect(source) =>
              Begins(b, 0xFF, 2, 30, source) && forall i :: 8 <= i < 30 ==> b[i] == 0
            case Update(source, dest, children) =>
              && Begins(b, 0xFF, 3, 29, source) && LowFirst(b, 8, dest as int) && b[12] as int == |children|
              && ListAt(b, 13, children)
              && forall i :: 13 + 4 * |children| <= i < 29 ==> b[i] == 0
            case Ack(source, dest, n) =>
              && Begins(b, 0xFF, 4, 14, source) && LowFirst(b, 8, dest as int)
              && b[12] as int == n % 256 && b[13] as int == n / 256
            case Nak(source, dest, n, error) =>
              && Begins(b, 0xFF, 5, 15, source) && LowFirst(b, 8, dest as int)
              && b[12] as int == n % 256 && b[13] as int == n / 256 && b[14] == error
  {
    var b := Encode(m);
    HeaderBytes(m);
    match m
    case Init(_, p) =>
      Fields(b, Word(p), [], []);
      WordAt(b, 8, p);
    case Data(_, d, p) =>
      var q := p[..Min(|p|, MAX_MESSAGE_LENGTH)];
      Fields(b, Word(d), Le16(|p|), q);
      WordAt(b, 8, d);
      HalfAt(b, 12, |p|);
      BytesAt(b, 14, q);
    case Disconnect(_) =>
      BytesAt(b, 8, Zeros(22));
    case Update(_, d, children) =>
      UpdateBytes(b, d, children, Words(children), Zeros(16 - 4 * |children|), 4 * |children|);
    case Ack(_, d, n) =>
      Fields(b, Word(d), Le16(n), []);
      WordAt(b, 8, d);
      HalfAt(b, 12, n);
    case Nak(_, d, n, e) =>
      Fields(b, Word(d), Le16(n), [e]);
      WordAt(b, 8, d);
      HalfAt(b, 12, n);
      assert b[14..15][0] == b[14];
  }

  lemma HeaderBytes(m: Msg)
    requires Fits(m)
    ensures Begins(Encode(m), if m.Data? then 0x7F else 0xFF, MsgId(m) as int, Length(m), m.source)
    ensures Encode(m)[8..Length(m)] == Body(m)
  {
    var b, h := Encode(m), Header(if m.Data? then 0x7F else 0xFF, MsgId(m), Length(m), m.source);
    Sequences.Joined(h, Body(m));
    HeaderAt(b, if m.Data? then 0x7F else 0xFF, MsgId(m), Length(m), m.source);
  }

  lemma HeaderAt(b: seq<Byte>, priority: Byte, id: Byte, len: nat, source: Id)
    requires len < 0x1_0000 && |b| == len >= 8 && b[..8] == Header(priority, id, len, source)
    ensures Begins(b, priority as int, id as int, len, source)
  {
    var h := [priority, id] + Le16(len) + Word(source);
    assert b[0..0 + |h|] == h;
    Sequences.ThreeParts(b, 0, [priority, id], Le16(len), Word(source));
    assert b[0..2][0] == b[0] && b[0..2][1] == b[1];
    HalfAt(b, 2, len);
    WordAt(b, 4, source);
  }

  lemma UpdateBytes(b: seq<Byte>, d: Id, children: seq<Id>, w: seq<Byte>, z: seq<Byte>, n: nat)
    requires |b| == 29 && |children| <= 4 && w == Words(children) && |w| == n == 4 * |children|
    requires |w + z| == 16 && (forall k :: 0 <= k < |z| ==> z[k] == 0)
    requires b[8..29] == Word(d) + [|children| as Byte] + (w + z)
    ensures LowFirst(b, 8, d as int) && b[12] as int == |children|
    ensures ListAt(b, 13, children)
    ensures forall i :: 13 + n <= i < 29 ==> b[i] == 0
  {
    UpdateFields(b, d, |children| as Byte, w, z);
    WordsAt(b, 13, children, n);
  }

  lemma UpdateFields(b: seq<Byte>, d: Id, n: Byte, w: seq<Byte>, z: seq<Byte>)
    requires |b| == 29 && |w + z| == 16 && (forall k :: 0 <= k < |z| ==> z[k] == 0)
    requires b[8..29] == Word(d) + [n] + (w + z)
    ensures LowFirst(b, 8, d as int) && b[12] == n && b[13..13 + |w|] == w
    ensures forall i :: 13 + |w| <= i < 29 ==> b[i] == 0
  {
    Fields(b, Word(d), [n], w + z);
    assert b[12..13][0] == b[12];
    FilledUp(b, 13, w, z);
    WordAt(b, 8, d);
  }

  lemma FilledUp(b: seq<Byte>, i: nat, w: seq<Byte>, z: seq<Byte>)
    requires i + |w + z| <= |b| && b[i..i + |w + z|] == w + z && forall k :: 0 <= k < |z| ==> z[k] == 0
    ensures b[i..i + |w|] == w
    ensures forall k :: i + |w| <= k < i + |w + z| ==> b[k] == 0
  {
    Sequences.Joined(w, z);
    Sequences.SliceOfSlice(b, i, i + |w + z|, 0, |w|);
    BytesAt(b, i, w + z);
  }

  lemma BytesAt(b: seq<Byte>, i: nat, v: seq<Byte>)
    requires i + |v| <= |b| && b[i..i + |v|] == v
    ensures forall k :: 0 <= k < |v| ==> b[i + k] == v[k]
    ensures forall k :: i <= k < i + |v| ==> b[k] == v[k - i]
  {
    forall k | 0 <= k < |v| ensures b[i + k] == v[k] { assert b[i..i + |v|][k] == b[i + k]; }
    forall k | i <= k < i + |v| ensures b[k] == v[k - i] { assert b[i + (k - i)] == v[k - i]; }
  }

  /** The 128 bytes of a UART message: the id, the length 11, 11, 7 or that of the tunnelled
      bytes and 5, and the fields. Behind short ones stands what lies behind them in memory,
      behind tunnelled bytes zeros. */
  lemma SerialLayout(x: Serial, behind: seq<Byte>)
    requires (x.Tunnel? ==> Fits(x.msg)) && |behind| >= 128
    ensures var b := EncodeSerial(x, behind);
            && |b| == 128
            && match x
               case NodeAdd(p, c) =>
                 && b[0] == 0 && b[1] == 11 && b[2] == 0
                 && LowFirst(b, 3, p as int) && LowFirst(b, 7, c as int)
                 && forall i :: 11 <= i < 128 ==> b[i] == behind[i - 11]
               case NodeRemove(n) =>
                 && b[0] == 1 && b[1] == 11 && b[2] == 0 && LowFirst(b, 3, n as int)
                 && forall i :: 7 <= i < 128 ==> b[i] == behind[i - 7]
               case Tunnel(m) =>
                 var e := Encode(m);
                 var k := if |e| > 123 then 123 else |e|;
                 && b[0] == 2 && b[1] as int == k + 5 && b[2] == 0 && b[3] as int == k && b[4] == 0
                 && forall i :: 5 <= i < 128 ==> b[i] == if i < 5 + k then e[i - 5] else 0
               case FatalError(e) =>
                 && b[0] == 3 && b[1] == 7 && b[2] == 0 && LowFirst(b, 3, e as int)
                 && forall i :: 7 <= i < 128 ==> b[i] == behind[i - 7]
  {
    match x
    case NodeAdd(p, c) =>
      WordBytes(p);
      WordBytes(c);
    case NodeRemove(n) => WordBytes(n);
    case Tunnel(m) =>
    case FatalError(e) => WordBytes(e);
  }
}
