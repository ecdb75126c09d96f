/** The DNS server: it answers every question with its own address, in the buffer that
    the query came in (RFC 1035, section 4.1).
  */
module Dns {
  import opened Bytes
  import Sequences
  import opened Trees

  const SIZE: nat := 300
  const HEADER: nat := 12

  // -------------------------------------------------------------------- queries

  function Length(p: seq<Byte>): nat {
    if |p| <= SIZE then |p| else SIZE
  }

  function Be16(b: seq<Byte>, i: nat): nat
    requires i + 2 <= |b|
  {
    256 * (b[i] as int) + b[i + 1] as int
  }

  /** The label walk from `q`: where it ends, unless a label is over-long. A name that
      runs out of the packet ends where its last label would. */
  function Walk(b: seq<Byte>, q: nat, end: nat): (r: Option<nat>)
    requires end <= |b|
    ensures r.Some? ==> q <= r.value
    decreases end - q
  {
    if q >= end then Some(q)
    else if b[q] == 0 then Some(q + 1)
    else if b[q] > 63 then None
    else Walk(b, q + 1 + b[q] as int, end)
  }

  /** Where the question section ends, for a packet that gets an answer. */
  function Question(p: seq<Byte>, stack: seq<Byte>): (r: Option<nat>)
    requires |stack| == SIZE
    ensures r.Some? ==> HEADER <= r.value <= HEADER + 255 + 4
  {
    var b, n := Received(p, stack), Length(p);
    if n < HEADER || Be16(b, 2) / 0x8000 % 2 != 0 || Be16(b, 2) / 0x800 % 16 != 0 || Be16(b, 4) < 1 then None
    else
      var q := Walk(b, HEADER, n);
      if q.None? || q.value > HEADER + 255 then None else Some(q.value + 4)
  }

  /** Flags and counts of an answer: a response, authoritative, recursion available; one
      question, one answer, nothing else. */
  const HEADER_OUT: seq<Byte> := [0x84, 0x80, 0, 1, 0, 1, 0, 0, 0, 0]

  /** One address record for the name at offset 12. */
  function Answer(ip: Ip): (r: seq<Byte>)
    ensures |r| == 16
  {
    [0xC0, 12] + [0, 1] + [0, 1] + [0, 0, 0, 60] + [0, 4] + ip
  }

  function Reply(p: seq<Byte>, stack: seq<Byte>, ip: Ip): (r: Option<seq<Byte>>)
    requires |stack| == SIZE
    ensures r.Some? ==> |r.value| <= 287
  {
    var b, q := Received(p, stack), Question(p, stack);
    if q.None? then None
    else Some(b[..2] + HEADER_OUT + b[HEADER..q.value] + Answer(ip))
  }

  // --------------------------------------------------------------------- server

  method WriteAnswer(msg: array<Byte>, at: nat, ip: Ip)
    requires at + 16 <= msg.Length
    modifies msg
    ensures msg[..] == Splice(old(msg[..]), at, Answer(ip))
  {
    ghost var was := msg[..];
    ghost var a2: seq<Byte> := [0xC0, 12];
    ghost var a4 := a2 + [0, 1];
    ghost var a6 := a4 + [0, 1];
    ghost var a10 := a6 + [0, 0, 0, 60];
    ghost var a12 := a10 + [0, 4];
    Copy(msg, at, [0xC0, 12]);
    Extend(msg, was, at, 2, a2, [0, 1]);
    Extend(msg, was, at, 4, a4, [0, 1]);
    Extend(msg, was, at, 6, a6, [0, 0, 0, 60]);
    Extend(msg, was, at, 10, a10, [0, 4]);
    Extend(msg, was, at, 12, a12, ip);
  }

  method WriteHeader(msg: array<Byte>)
    requires msg.Length >= HEADER
    modifies msg
    ensures msg[..] == Splice(old(msg[..]), 2, HEADER_OUT)
  {
    ghost var was := msg[..];
    ghost var h2: seq<Byte> := [0x84, 0x80];
    ghost var h4 := h2 + [0, 1];
    ghost var h6 := h4 + [0, 1];
    ghost var h8 := h6 + [0, 0];
    Copy(msg, 2, [0x84, 0x80]);
    Extend(msg, was, 2, 2, h2, [0, 1]);
    Extend(msg, was, 2, 4, h4, [0, 1]);
    Extend(msg, was, 2, 6, h6, [0, 0]);
    Extend(msg, was, 2, 8, h8, [0, 0]);
    assert h8 + [0, 0] == HEADER_OUT;
  }

  /** The answer to a packet, or nothing if it is ignored. No packet makes it leave the
      buffer. */
  method Process(p: seq<Byte>, stack: seq<Byte>, ip: Ip) returns (reply: Option<seq<Byte>>)
    requires |stack| == SIZE
    ensures reply == Reply(p, stack, ip)
  {
    var msg := new Byte[SIZE](i requires 0 <= i < SIZE => stack[i]);
    assert msg[..] == stack;
    var n := Length(p);
    Copy(msg, 0, p[..n]);
    ghost var b := Received(p, stack);
    assert msg[..] == b;
    if n < HEADER { return None; }
    var flags, questions := Be16(msg[..], 2), Be16(msg[..], 4);
    if flags / 0x8000 % 2 != 0 { return None; }
    if flags / 0x800 % 16 != 0 { return None; }
    if questions < 1 { return None; }
    var end := WalkLabels(msg, n);
    if end.None? { return None; }
    var q := end.value;
    if q - HEADER > 255 { return None; }
    q := q + 4;
    WriteAnswer(msg, q, ip);
    WriteHeader(msg);
    ReplyInPlace(b, q, ip);
    reply := Some(msg[..q + 16]);
  }

  method WalkLabels(msg: array<Byte>, n: nat) returns (end: Option<nat>)
    requires n <= msg.Length
    ensures end == Walk(msg[..], HEADER, n)
  {
    var q := HEADER;
    while q < n
      invariant HEADER <= q && Walk(msg[..], HEADER, n) == Walk(msg[..], q, n)
      decreases n - q
    {
      assert msg[..][q] == msg[q];
      if msg[q] == 0 {
        q := q + 1;
        return Some(q);
      }
      var labelLen := msg[q] as int;
      q := q + 1;
      if labelLen > 63 { return None; }
      q := q + labelLen;
    }
    end := Some(q);
  }

  lemma ReplyInPlace(b: seq<Byte>, q: nat, ip: Ip)
    requires |b| == SIZE && HEADER <= q <= SIZE - 16
    ensures Splice(Splice(b, q, Answer(ip)), 2, HEADER_OUT)[..q + 16] == b[..2] + HEADER_OUT + b[HEADER..q] + Answer(ip)
  {
    var c := Splice(b, q, Answer(ip));
    var r := Splice(c, 2, HEADER_OUT);
    SpliceKeeps(c, 2, HEADER_OUT, 0, 2);
    SpliceKeeps(c, 2, HEADER_OUT, HEADER, q);
    SpliceKeeps(c, 2, HEADER_OUT, q, q + 16);
    SpliceKeeps(b, q, Answer(ip), 0, 2);
    SpliceKeeps(b, q, Answer(ip), HEADER, q);
    assert r[..q + 16] == r[0..2] + r[2..12] + r[12..q] + r[q..q + 16];
  }

  // --------------------------------------------------------------- what it means

  predicate IsLabel(l: seq<Byte>) {
    1 <= |l| <= 63
  }

  function EncodeName(labels: seq<seq<Byte>>): (r: seq<Byte>)
    requires forall i :: 0 <= i < |labels| ==> IsLabel(labels[i])
    ensures |r| >= 1
  {
    if labels == [] then [0] else assert IsLabel(labels[0]); [|labels[0]| as Byte] + labels[0] + EncodeName(labels[1..])
  }

  /** The name at `pos`; a pointer leads to something before `limit`. */
  function ReadName(b: seq<Byte>, pos: nat, limit: nat): Option<seq<seq<Byte>>>
    decreases limit, |b| - pos
  {
    if pos >= |b| then None
    else
      var n := b[pos] as int;
      if n == 0 then Some([])
      else if n < 64 then
        if pos + 1 + n > |b| then None
        else
          var rest := ReadName(b, pos + 1 + n, limit);
          if rest.None? then None else Some([b[pos + 1..pos + 1 + n]] + rest.value)
      else if n < 192 || pos + 1 >= |b| then None
      else
        var to: nat := 256 * (n - 192) + b[pos + 1] as int;
        if to >= limit then None else ReadName(b, to, to)
  }

  /** `name` stands at `q`, as far as `end` lets it. */
  predicate Stands(b: seq<Byte>, q: nat, end: nat, name: seq<Byte>) {
    q <= end <= |b| && b[q..if q + |name| <= end then q + |name| else end] ==
                       name[..if q + |name| <= end then |name| else end - q]
  }

  lemma StandsOn(b: seq<Byte>, q: nat, end: nat, first: seq<Byte>, rest: seq<Byte>)
    requires Stands(b, q, end, first + rest) && q + |first| <= end
    ensures Stands(b, q + |first|, end, rest)
  {
    var next, stop := q + |first|, if q + |first + rest| <= end then q + |first + rest| else end;
    Sequences.SliceOfSlice(b, q, stop, |first|, stop - q);
    Sequences.SliceOfSlice(first + rest, 0, stop - q, |first|, stop - q);
    Sequences.Joined(first, rest);
    Sequences.SliceOfSlice(first + rest, |first|, |first + rest|, 0, stop - next);
  }

  lemma {:induction false} WalksName(b: seq<Byte>, q: nat, end: nat, labels: seq<seq<Byte>>)
    requires forall i :: 0 <= i < |labels| ==> IsLabel(labels[i])
    requires Stands(b, q, end, EncodeName(labels))
    ensures var w, stop := Walk(b, q, end), q + |EncodeName(labels)|;
            w.Some? && (if stop <= end then w.value == stop else w.value >= end)
    decreases |labels|
  {
    var e := EncodeName(labels);
    if q < end {
      assert b[q] == e[0];
      if labels != [] {
        var next := q + 1 + |labels[0]|;
        var rest := EncodeName(labels[1..]);
        if next <= end {
          StandsOn(b, q, end, [|labels[0]| as Byte] + labels[0], rest);
          WalksName(b, next, end, labels[1..]);
        }
      }
    }
  }

  lemma {:induction false} ReadsName(b: seq<Byte>, q: nat, limit: nat, labels: seq<seq<Byte>>)
    requires forall i :: 0 <= i < |labels| ==> IsLabel(labels[i])
    requires q + |EncodeName(labels)| <= |b| && b[q..q + |EncodeName(labels)|] == EncodeName(labels)
    ensures ReadName(b, q, limit) == Some(labels)
    decreases |labels|
  {
    var e := EncodeName(labels);
    assert b[q] == e[0];
    if labels != [] {
      var next := q + 1 + |labels[0]|;
      Sequences.ThreeParts(b, q, [|labels[0]| as Byte], labels[0], EncodeName(labels[1..]));
      ReadsName(b, next, limit, labels[1..]);
      assert labels == [labels[0]] + labels[1..];
    }
  }

  /** A complete standard query for a name. */
  predicate Queries(p: seq<Byte>, labels: seq<seq<Byte>>) {
    && (forall i :: 0 <= i < |labels| ==> IsLabel(labels[i]))
    && |p| >= HEADER + |EncodeName(labels)| + 4
    && Be16(p, 2) / 0x8000 % 2 == 0 && Be16(p, 2) / 0x800 % 16 == 0 && Be16(p, 4) >= 1
    && p[HEADER..HEADER + |EncodeName(labels)|] == EncodeName(labels)
  }

  lemma SameFields(p: seq<Byte>, b: seq<Byte>, n: nat)
    requires HEADER <= n <= |p| && n <= |b| && b[..n] == p[..n]
    ensures Be16(b, 2) == Be16(p, 2) && Be16(b, 4) == Be16(p, 4)
  {
    assert forall i :: 0 <= i < n ==> b[i] == b[..n][i] == p[i];
  }

  lemma QueryWalk(p: seq<Byte>, stack: seq<Byte>, labels: seq<seq<Byte>>)
    requires |stack| == SIZE && Queries(p, labels)
    ensures var e := HEADER + |EncodeName(labels)|;
            Question(p, stack) == if e <= HEADER + 255 then Some(e + 4) else None
  {
    var b, n, name := Received(p, stack), Length(p), EncodeName(labels);
    var stop := if HEADER + |name| <= n then HEADER + |name| else n;
    assert b[..n] == p[..n];
    Sequences.SameFront(b, p, n, HEADER, stop);
    Sequences.SliceOfSlice(p, HEADER, HEADER + |name|, 0, stop - HEADER);
    SameFields(p, b, n);
    WalksName(b, HEADER, n, labels);
  }

  /** A complete query is answered exactly if its name is at most 255 bytes long. */
  lemma AnsweredExactly(p: seq<Byte>, stack: seq<Byte>, ip: Ip, labels: seq<seq<Byte>>)
    requires |stack| == SIZE && Queries(p, labels)
    ensures Reply(p, stack, ip).Some? <==> |EncodeName(labels)| <= 255
  {
    QueryWalk(p, stack, labels);
  }

  /** The answer keeps the id and the question, says one question and one answer,
      authoritative, and its record is for the name that was asked, which a reader finds
      through the pointer: class IN, type A, sixty seconds, the server's address. */
  lemma AnswerIsForTheQuestion(p: seq<Byte>, stack: seq<Byte>, ip: Ip, labels: seq<seq<Byte>>)
    requires |stack| == SIZE && Queries(p, labels) && |EncodeName(labels)| <= 255
    ensures var r, e := Reply(p, stack, ip), HEADER + |EncodeName(labels)| + 4;
            && r.Some? && |r.value| == e + 16
            && r.value[..2] == p[..2] && r.value[HEADER..e] == p[HEADER..e]
            && Be16(r.value, 2) == 0x8480
            && Be16(r.value, 4) == 1 && Be16(r.value, 6) == 1 && Be16(r.value, 8) == 0 && Be16(r.value, 10) == 0
            && ReadName(r.value, HEADER, HEADER) == Some(labels)
            && ReadName(r.value, e, e) == Some(labels)
            && Be16(r.value, e + 2) == 1 && Be16(r.value, e + 4) == 1
            && Be16(r.value, e + 6) == 0 && Be16(r.value, e + 8) == 60
            && Be16(r.value, e + 10) == 4 && r.value[e + 12..] == ip
  {
    var b, name := Received(p, stack), EncodeName(labels);
    var e := HEADER + |name| + 4;
    QueryWalk(p, stack, labels);
    assert b[..2] == p[..2] && b[HEADER..e] == p[HEADER..e];
    var question := b[HEADER..e];
    var r := b[..2] + HEADER_OUT + question + Answer(ip);
    assert Reply(p, stack, ip) == Some(r);
    assert r[..2] == b[..2] == p[..2] && r[2..HEADER] == HEADER_OUT && r[e..] == Answer(ip);
    HeaderFields(r);
    AnswerFields(r, e, ip);
    assert r[HEADER..e] == question == p[HEADER..e];
    QuestionStays(r, p, e, name);
    ReadsName(r, HEADER, HEADER, labels);
  }

  // ------------------------------------------------------------ which are ignored

  /** The way along the label bytes: from offset 12 each is a label of 1 to 63 bytes and
      leads to the next; at the last the packet, of which 300 bytes are read, is over, or the
      name is, or the label is over-long. */
  predicate LabelWay(p: seq<Byte>, n: nat, at: seq<nat>) {
    && n <= |p| && n <= 300 && (n == |p| || n == 300)
    && at != [] && at[0] == 12
    && (forall i {:trigger at[i]} :: 0 <= i < |at| - 1 ==>
          at[i] < n && 1 <= p[at[i]] <= 63 && at[i + 1] == at[i] + 1 + p[at[i]] as int)
    && var last := at[|at| - 1]; last >= n || p[last] == 0 || p[last] > 63
  }

  /** Where such a way has led, the name is over. */
  function NameEnd(p: seq<Byte>, n: nat, at: seq<nat>): nat
    requires LabelWay(p, n, at)
  {
    var last := at[|at| - 1];
    if last < n then last + 1 else last
  }

  /** There is such a way along every packet. */
  lemma {:induction false} WayExists(p: seq<Byte>, n: nat, q: nat) returns (at: seq<nat>)
    requires n <= |p|
    ensures at != [] && at[0] == q
    ensures forall i {:trigger at[i]} :: 0 <= i < |at| - 1 ==>
              at[i] < n && 1 <= p[at[i]] <= 63 && at[i + 1] == at[i] + 1 + p[at[i]] as int
    ensures var last := at[|at| - 1]; last >= n || p[last] == 0 || p[last] > 63
    decreases n - q
  {
    if q >= n || p[q] == 0 || p[q] > 63 {
      at := [q];
    } else {
      var more := WayExists(p, n, q + 1 + p[q] as int);
      at := [q] + more;
    }
  }

  lemma EveryPacketHasAWay(p: seq<Byte>) returns (n: nat, at: seq<nat>)
    ensures LabelWay(p, n, at)
  {
    n := if |p| <= 300 then |p| else 300;
    at := WayExists(p, n, 12);
  }

  /** The walk of the server comes along it. */
  lemma {:induction false} WalksAlong(b: seq<Byte>, p: seq<Byte>, n: nat, at: seq<nat>, k: nat)
    requires LabelWay(p, n, at) && k < |at| && n <= |b| && b[..n] == p[..n]
    ensures Walk(b, at[k], n) == if at[|at| - 1] < n && p[at[|at| - 1]] > 63 then None else Some(NameEnd(p, n, at))
    decreases |at| - k
  {
    if at[k] < n { assert b[at[k]] == b[..n][at[k]] == p[at[k]]; }
    if k < |at| - 1 { WalksAlong(b, p, n, at, k + 1); }
  }

  /** The packet has one of the five faults. */
  predicate Faulty(p: seq<Byte>, n: nat, at: seq<nat>)
    requires LabelWay(p, n, at)
  {
    || |p| < 12
    || p[2] >= 128                                       // QR: a response
    || p[2] as int / 8 % 16 != 0                         // the opcode
    || (p[4] == 0 && p[5] == 0)                          // no question
    || (at[|at| - 1] < n && p[at[|at| - 1]] > 63)        // an over-long label
    || NameEnd(p, n, at) > 12 + 255
  }

  lemma QuestionAt(p: seq<Byte>, stack: seq<Byte>, n: nat, at: seq<nat>)
    requires |stack| == 300 && LabelWay(p, n, at)
    ensures Question(p, stack) == if Faulty(p, n, at) then None else Some(NameEnd(p, n, at) + 4)
  {
    ReceivedFront(p, stack, n);
    if |p| >= 12 {
      SameFields(p, Received(p, stack), n);
      Flags(p[2] as int, p[3] as int);
    }
    WalksAlong(Received(p, stack), p, n, at, 0);
  }

  lemma ReceivedFront(p: seq<Byte>, stack: seq<Byte>, n: nat)
    requires |stack| == 300 && n <= |p| && n <= 300
    ensures Received(p, stack)[..n] == p[..n]
  {
  }

  /** A packet is ignored if and only if it is shorter than a header, a response, not a
      standard query or without a question, or comes to an over-long label, or its name takes
      more than 255 bytes; whatever else it holds it is answered. */
  lemma IgnoredExactly(p: seq<Byte>, stack: seq<Byte>, ip: Ip, n: nat, at: seq<nat>)
    requires |stack| == 300 && LabelWay(p, n, at)
    ensures Reply(p, stack, ip).None? <==> Faulty(p, n, at)
  {
    QuestionAt(p, stack, n, at);
  }

  lemma Flags(x: int, y: int)
    requires 0 <= x < 256 && 0 <= y < 256
    ensures (256 * x + y) / 0x8000 % 2 == 0 <==> x < 128
    ensures (256 * x + y) / 0x800 % 16 == x / 8 % 16
  {
    assert (256 * x + y) / 0x8000 == x / 128;
    assert (256 * x + y) / 0x800 == x / 8;
  }

  /** Every reply, byte by byte: the id, the ten bytes of flags and counts, what was received
      of the question, and the record with the pointer to offset 12 and the address. */
  lemma ReplyBytes(p: seq<Byte>, stack: seq<Byte>, ip: Ip, n: nat, at: seq<nat>)
    requires |stack| == 300 && LabelWay(p, n, at) && Reply(p, stack, ip).Some?
    ensures var r, e := Reply(p, stack, ip).value, NameEnd(p, n, at) + 4;
            && e + 16 <= 300 && |r| == e + 16
            && r[0] == p[0] && r[1] == p[1]
            && r[2..12] == [0x84, 0x80, 0, 1, 0, 1, 0, 0, 0, 0]
            && (forall i :: 12 <= i < e ==> r[i] == if i < n then p[i] else stack[i])
            && r[e..e + 12] == [0xC0, 12, 0, 1, 0, 1, 0, 0, 0, 60, 0, 4] && r[e + 12..] == ip
  {
    ReplyMade(p, stack, ip, n, at);
    ReceivedBytes(p, stack, n);
    AnswerBytes(ip);
    Assembled(Received(p, stack), HEADER_OUT, Answer(ip), NameEnd(p, n, at) + 4);
  }

  lemma ReplyMade(p: seq<Byte>, stack: seq<Byte>, ip: Ip, n: nat, at: seq<nat>)
    requires |stack| == 300 && LabelWay(p, n, at) && Reply(p, stack, ip).Some?
    ensures var b, e := Received(p, stack), NameEnd(p, n, at) + 4;
            && |p| >= 12 && n >= 12 && 12 <= e <= 271
            && Reply(p, stack, ip) == Some(b[..2] + HEADER_OUT + b[12..e] + Answer(ip))
  {
    QuestionAt(p, stack, n, at);
  }

  lemma ReceivedBytes(p: seq<Byte>, stack: seq<Byte>, n: nat)
    requires |stack| == 300 && n <= |p| && n <= 300 && (n == |p| || n == 300)
    ensures forall i :: 0 <= i < 300 ==> Received(p, stack)[i] == if i < n then p[i] else stack[i]
  {
  }

  lemma AnswerBytes(ip: Ip)
    ensures Answer(ip)[..12] == [0xC0, 12, 0, 1, 0, 1, 0, 0, 0, 60, 0, 4] && Answer(ip)[12..] == ip
  {
    var head := [0xC0, 12] + [0, 1] + [0, 1] + [0, 0, 0, 60] + [0, 4];
    assert head == [0xC0, 12, 0, 1, 0, 1, 0, 0, 0, 60, 0, 4];
    Sequences.Joined(head, ip);
  }

  lemma Assembled(b: seq<Byte>, header: seq<Byte>, record: seq<Byte>, e: nat)
    requires 12 <= e <= |b| && |header| == 10 && |record| == 16
    ensures var r := b[..2] + header + b[12..e] + record;
            && r[0] == b[0] && r[1] == b[1] && r[2..12] == header
            && (forall i :: 12 <= i < e ==> r[i] == b[i])
            && r[e..e + 12] == record[..12] && r[e + 12..] == record[12..]
  {
  }

  lemma QuestionStays(r: seq<Byte>, p: seq<Byte>, e: nat, name: seq<Byte>)
    requires HEADER + |name| <= e <= |r| && e <= |p| && r[HEADER..e] == p[HEADER..e]
    requires p[HEADER..HEADER + |name|] == name
    ensures r[HEADER..HEADER + |name|] == name
  {
    Sequences.SliceOfSlice(r, HEADER, e, 0, |name|);
    Sequences.SliceOfSlice(p, HEADER, e, 0, |name|);
  }

  lemma HeaderFields(r: seq<Byte>)
    requires |r| >= HEADER && r[2..HEADER] == HEADER_OUT
    ensures Be16(r, 2) == 0x8480
    ensures Be16(r, 4) == 1 && Be16(r, 6) == 1 && Be16(r, 8) == 0 && Be16(r, 10) == 0
  {
    assert forall i :: 0 <= i < 10 ==> r[2 + i] == r[2..HEADER][i];
  }

  lemma AnswerFields(r: seq<Byte>, e: nat, ip: Ip)
    requires e + 16 == |r| && HEADER < e && r[e..] == Answer(ip)
    ensures ReadName(r, e, e) == ReadName(r, HEADER, HEADER)
    ensures Be16(r, e + 2) == 1 && Be16(r, e + 4) == 1 && Be16(r, e + 6) == 0 && Be16(r, e + 8) == 60
    ensures Be16(r, e + 10) == 4 && r[e + 12..] == ip
  {
    assert forall i :: 0 <= i < 16 ==> r[e + i] == r[e..][i];
    assert r[e + 12..] == r[e..][12..];
  }
}
