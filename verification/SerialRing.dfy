/** The ring of buffers that UART messages are received into. It hands out slots, not
    copies: a slot that has been taken out is overwritten some puts later.
  */
module SerialRing {
  import opened Bytes
  import opened Trees

  const SIZE: nat := 15

  datatype Ring = Ring(putIdx: nat, getIdx: nat, count: nat)

  predicate RingOk(r: Ring) {
    r.putIdx < SIZE && r.getIdx < SIZE && r.count <= SIZE && r.putIdx == Slot(r.getIdx, r.count)
  }

  /** The slots in use, oldest first. */
  function Queue(r: Ring): (q: seq<nat>)
    ensures |q| == r.count && forall i :: 0 <= i < |q| ==> q[i] == Slot(r.getIdx, i) < SIZE
  {
    seq(r.count, i requires 0 <= i => Slot(r.getIdx, i))
  }

  /** The slot `k` places on. */
  function Slot(i: nat, k: nat): nat {
    (i + k) % SIZE
  }

  function Advance(i: nat): nat {
    if i + 1 == SIZE then 0 else i + 1
  }

  lemma SlotIs(i: nat, k: nat)
    requires i < SIZE && k <= SIZE
    ensures Slot(i, k) == if i + k < SIZE then i + k else i + k - SIZE
  {
  }

  lemma SlotAfter(i: nat, k: nat)
    requires i < SIZE
    ensures Slot(Advance(i), k) == Slot(i, k + 1)
  {
  }

  function Put(r: Ring): (Ring, Option<nat>) {
    if r.count == SIZE then (r, None)
    else (Ring(Advance(r.putIdx), r.getIdx, r.count + 1), Some(r.putIdx))
  }

  function Get(r: Ring): (Ring, Option<nat>) {
    if r.count == 0 then (r, None)
    else (Ring(r.putIdx, Advance(r.getIdx), r.count - 1), Some(r.getIdx))
  }

  /** A put goes to a slot that is not in use, at the end of a queue that holds fifteen. */
  lemma PutAppends(r: Ring)
    requires RingOk(r)
    ensures var (r1, slot) := Put(r);
            && RingOk(r1) && (slot.None? <==> |Queue(r)| == 15)
            && Queue(r1) == (if slot.Some? then Queue(r) + [slot.value] else Queue(r))
            && (slot.Some? ==> slot.value < SIZE && slot.value !in Queue(r))
  {
    var r1 := Put(r).0;
    SlotIs(r.getIdx, r.count);
    forall i | 0 <= i < r.count ensures Queue(r1)[i] == Queue(r)[i] && (r.count < SIZE ==> Queue(r)[i] != r.putIdx) {
      SlotIs(r.getIdx, i);
    }
    if r.count < SIZE { SlotAfter(r.putIdx, 0); SlotIs(r.putIdx, 0); SlotIs(r1.getIdx, r1.count); }
  }

  /** A get takes the oldest. */
  lemma GetTakesOldest(r: Ring)
    requires RingOk(r)
    ensures var (r1, slot) := Get(r);
            && RingOk(r1) && (slot.None? <==> Queue(r) == [])
            && Queue(r) == (if slot.Some? then [slot.value] + Queue(r1) else Queue(r1))
            && (slot.Some? ==> slot.value < SIZE)
  {
    if r.count > 0 {
      var r1 := Get(r).0;
      forall i | 0 <= i < r1.count ensures Queue(r1)[i] == Queue(r)[i + 1] { SlotAfter(r.getIdx, i); }
      assert Queue(r) == [r.getIdx] + Queue(r1);
    }
  }

  // -------------------------------------------------------------------- lifetime

  datatype Op = Puts | Gets

  function Step(r: Ring, op: Op): (Ring, Option<nat>) {
    if op.Puts? then Put(r) else Get(r)
  }

  /** The slots handed out for writing during `ops`. */
  function Handed(r: Ring, ops: seq<Op>): seq<nat>
    decreases |ops|
  {
    if ops == [] then []
    else
      var (r1, slot) := Step(r, ops[0]);
      (if ops[0].Puts? && slot.Some? then [slot.value] else []) + Handed(r1, ops[1..])
  }

  /** Whatever gets come in between, puts go round the slots. */
  lemma {:induction false} HandedInTurn(r: Ring, ops: seq<Op>)
    requires RingOk(r)
    ensures forall i :: 0 <= i < |Handed(r, ops)| ==> Handed(r, ops)[i] == Slot(r.putIdx, i)
    decreases |ops|
  {
    if ops != [] {
      PutAppends(r);
      GetTakesOldest(r);
      var (r1, slot) := Step(r, ops[0]);
      HandedInTurn(r1, ops[1..]);
      var h := Handed(r1, ops[1..]);
      if ops[0].Puts? && slot.Some? {
        assert Handed(r, ops) == [slot.value] + h;
        forall i | 0 < i <= |h| ensures ([slot.value] + h)[i] == Slot(r.putIdx, i) {
          assert ([slot.value] + h)[i] == h[i - 1] == Slot(r1.putIdx, i - 1);
          SlotAfter(r.putIdx, i - 1);
        }
      } else {
        assert Handed(r, ops) == h && r1.putIdx == r.putIdx;
      }
    }
  }

  /** A slot taken out when `n` messages were queued stays intact for exactly 15 - n
      further puts: the next one reuses it. */
  lemma IntactExactly(r: Ring, ops: seq<Op>)
    requires RingOk(r) && r.count > 0
    ensures var (r1, slot) := Get(r);
            var h, n := Handed(r1, ops), r.count;
            && (slot.value in h <==> |h| > 15 - n)
            && (|h| > 15 - n ==> h[15 - n] == slot.value)
            && slot.value !in h[..if |h| > 15 - n then 15 - n else |h|]
  {
    GetTakesOldest(r);
    var r1, slot, n := Get(r).0, Get(r).1.value, r.count;
    HandedInTurn(r1, ops);
    var h := Handed(r1, ops);
    forall i | 0 <= i < |h| && i <= SIZE - n ensures h[i] == slot <==> i == SIZE - n {
      SlotIs(slot, n);
      SlotIs(r1.putIdx, i);
      assert h[i] == Slot(r1.putIdx, i) && r1.putIdx == Slot(slot, n);
    }
    if |h| > SIZE - n { assert h[SIZE - n] == slot; }
  }

  /** And that many puts and one more do fit in before anything else is taken out. */
  lemma {:induction false} PutsFit(r: Ring, k: nat)
    requires RingOk(r) && r.count + k <= SIZE
    ensures |Handed(r, seq(k, _ => Puts))| == k
    decreases k
  {
    if k > 0 {
      PutAppends(r);
      assert seq(k, _ => Puts)[1..] == seq(k - 1, _ => Puts);
      PutsFit(Put(r).0, k - 1);
    }
  }

  // --------------------------------------------------------------------- buffer

  function Picked<T>(b: seq<T>, q: seq<nat>): (r: seq<T>)
    requires forall i :: 0 <= i < |q| ==> q[i] < |b|
    ensures |r| == |q| && forall i :: 0 <= i < |q| ==> r[i] == b[q[i]]
  {
    seq(|q|, i requires 0 <= i < |q| => b[q[i]])
  }

  class SerialRingBuffer {
    var putIdx: nat
    var getIdx: nat
    var count: nat
    const bufs: array<seq<Byte>>

    ghost predicate Valid()
      reads this
    {
      bufs.Length == SIZE && RingOk(State())
    }

    ghost function State(): Ring
      reads this
    {
      Ring(putIdx, getIdx, count)
    }

    /** The messages received and not yet taken out. */
    ghost function Contents(): seq<seq<Byte>>
      reads this, bufs
      requires Valid()
    {
      Picked(bufs[..], Queue(State()))
    }

    constructor ()
      ensures Valid() && fresh(bufs) && Contents() == [] && State() == Ring(0, 0, 0)
    {
      putIdx, getIdx, count := 0, 0, 0;
      bufs := new seq<Byte>[SIZE](_ => []);
    }

    method NumOfMessages() returns (n: nat)
      requires Valid()
      ensures n == |Contents()|
    {
      n := count;
    }

    method BufferPut() returns (slot: Option<nat>)
      requires Valid()
      modifies this
      ensures Valid() && (State(), slot) == Put(old(State()))
    {
      PutAppends(State());
      if count == SIZE { return None; }
      slot := Some(putIdx);
      putIdx := putIdx + 1;
      count := count + 1;
      if putIdx == SIZE { putIdx := 0; }
    }

    method BufferGet() returns (slot: Option<nat>)
      requires Valid()
      modifies this
      ensures Valid() && (State(), slot) == Get(old(State()))
    {
      GetTakesOldest(State());
      if count == 0 { return None; }
      slot := Some(getIdx);
      getIdx := getIdx + 1;
      count := count - 1;
      if getIdx == SIZE { getIdx := 0; }
    }

    /** The receive interrupt: the message goes straight into the slot. When the ring is
        full the interrupt never returns. */
    method Receive(message: seq<Byte>) returns (ok: bool)
      requires Valid()
      modifies this, bufs
      ensures Valid() && ok == (|old(Contents())| < SIZE)
      ensures Contents() == if ok then old(Contents()) + [message] else old(Contents())
    {
      ghost var r := State();
      PutAppends(r);
      var slot := BufferPut();
      if slot.None? { return false; }
      bufs[slot.value] := message;
      ok := true;
    }

    /** What the poll loop reads: the oldest message. Its slot is what `IntactExactly`
        speaks of. */
    method ReadBuffer() returns (message: seq<Byte>)
      requires Valid() && count > 0
      modifies this
      ensures Valid() && old(Contents()) == [message] + Contents()
    {
      GetTakesOldest(State());
      var slot := BufferGet();
      message := bufs[slot.value];
    }
  }
}
