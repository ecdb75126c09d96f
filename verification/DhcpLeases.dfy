/** The lease table of the DHCP server: eight slots, an expiry of 16 bits each.

    Time is kept in milliseconds without bound; the server only sees it modulo 2^32.
  */
module DhcpLeases {
  import opened Bytes

  const MAX_IP: nat := 8
  const LEASE_MS: int := 24 * 60 * 60 * 1000
  const WORD: int := 0x1_0000_0000

  type Mac = m: seq<Byte> | |m| == 6 witness [0, 0, 0, 0, 0, 0]

  const NO_MAC: Mac := [0, 0, 0, 0, 0, 0]

  datatype Lease = Lease(mac: Mac, expiry: nat)

  function Clock(t: nat): nat {
    t % WORD
  }

  /** The upper half of the wrapped deadline. */
  function Stamp(clock: nat): nat {
    (clock + LEASE_MS) % WORD / 0x1_0000
  }

  /** The sign test on the wrapped 32-bit difference to the end of the stamp. */
  predicate Expired(expiry: nat, clock: nat) {
    (expiry * 0x1_0000 + 0xFFFF - clock) % WORD >= WORD / 2
  }

  // ------------------------------------------------------------------- expiry

  /** The last millisecond of the stamp of a lease granted at `g`. */
  function StampEnd(g: nat): int {
    (g + LEASE_MS) / 0x1_0000 * 0x1_0000 + 0xFFFF
  }

  lemma StampIsUpperHalf(g: nat)
    ensures (Stamp(Clock(g)) * 0x1_0000 + 0xFFFF - StampEnd(g)) % WORD == 0
  {
    var d := g + LEASE_MS;
    assert g == WORD * (g / WORD) + Clock(g);
    ModShift(d, Clock(g) + LEASE_MS, 0);
    assert d == WORD * (d / WORD) + d % WORD;
    assert d / 0x1_0000 == 0x1_0000 * (d / WORD) + d % WORD / 0x1_0000;
    assert StampEnd(g) - (Stamp(Clock(g)) * 0x1_0000 + 0xFFFF) == WORD * (d / WORD);
  }

  lemma ModShift(a: int, b: int, t: int)
    requires (a - b) % WORD == 0
    ensures (a - t % WORD) % WORD == (b - t) % WORD
  {
    var k, j := (a - b) / WORD, t / WORD;
    assert a - t % WORD == b - t + WORD * (k + j);
    assert (b - t + WORD * (k + j)) % WORD == (b - t) % WORD;
  }

  /** A lease counts as expired during the 2^31 ms after the end of its stamp, then for
      as long as not, and so on, whatever the clock showed at the grant. */
  lemma ExpiredExactly(g: nat, t: nat)
    ensures Expired(Stamp(Clock(g)), Clock(t)) <==> (t - StampEnd(g) - 1) % WORD < WORD / 2
  {
    StampIsUpperHalf(g);
    ModShift(Stamp(Clock(g)) * 0x1_0000 + 0xFFFF, StampEnd(g), t);
    var x := StampEnd(g) - t;
    Complement(x);
  }

  lemma Complement(x: int)
    ensures (x % WORD >= WORD / 2) <==> (-x - 1) % WORD < WORD / 2
  {
    var q, r := x / WORD, x % WORD;
    assert -x - 1 == WORD * (-q - 1) + (WORD - 1 - r);
    assert (-x - 1) % WORD == WORD - 1 - r;
  }

  /** Hence never within the lease, and always from 65,536 ms after its deadline until
      just under 2^31 ms after it. */
  lemma ExpiryWindow(g: nat, t: nat)
    requires g <= t
    ensures t <= g + 86_400_000 ==> !Expired(Stamp(Clock(g)), Clock(t))
    ensures g + 86_400_000 + 65_536 <= t < g + 86_400_000 + 0x8000_0000 ==> Expired(Stamp(Clock(g)), Clock(t))
  {
    ExpiredExactly(g, t);
    var late := t - StampEnd(g) - 1;
    assert g + LEASE_MS <= StampEnd(g) <= g + LEASE_MS + 0xFFFF;
    if t <= g + LEASE_MS {
      assert late % WORD == late + WORD;
    }
  }

  // ---------------------------------------------------------------- DISCOVER

  predicate Free(l: Lease, clock: nat) {
    l.mac == NO_MAC || Expired(l.expiry, clock)
  }

  /** The first slot from `i` on that holds the address; the table's size if none. */
  function FirstOf(t: seq<Lease>, mac: Mac, i: nat): (r: nat)
    requires i <= |t|
    ensures i <= r <= |t| && (r < |t| ==> t[r].mac == mac)
    ensures forall k :: i <= k < r ==> t[k].mac != mac
    decreases |t| - i
  {
    if i == |t| || t[i].mac == mac then i else FirstOf(t, mac, i + 1)
  }

  /** The first slot from `i` on that is free or has expired. */
  function FirstFree(t: seq<Lease>, clock: nat, i: nat): (r: nat)
    requires i <= |t|
    ensures i <= r <= |t| && (r < |t| ==> Free(t[r], clock))
    ensures forall k :: i <= k < r ==> !Free(t[k], clock)
    decreases |t| - i
  {
    if i == |t| || Free(t[i], clock) then i else FirstFree(t, clock, i + 1)
  }

  /** The slot to offer, or the table's size, and the table after the scan. */
  function Offer(t: seq<Lease>, mac: Mac, clock: nat): (seq<Lease>, nat) {
    var mine, open := FirstOf(t, mac, 0), FirstFree(t, clock, 0);
    (if open < mine then t[open := t[open].(mac := NO_MAC)] else t,
     if mine < |t| then mine else open)
  }

  /** The client gets back its own slot if it has one, else the first one that is free
      or expired, which is free then; nothing but an expired slot is cleared; nobody
      is turned away unless every slot is held, unexpired, by another. */
  lemma OfferChoice(t: seq<Lease>, mac: Mac, clock: nat)
    ensures var (u, yi) := Offer(t, mac, clock);
            && |u| == |t| && yi <= |t|
            && ((exists i :: 0 <= i < |t| && t[i].mac == mac) ==>
                  yi < |t| && t[yi].mac == mac && u[yi] == t[yi] && forall k :: 0 <= k < yi ==> t[k].mac != mac)
            && ((forall i :: 0 <= i < |t| ==> t[i].mac != mac) && yi < |t| ==>
                  Free(t[yi], clock) && u[yi].mac == NO_MAC && forall k :: 0 <= k < yi ==> !Free(t[k], clock))
            && (forall i :: 0 <= i < |t| ==>
                  u[i] == t[i] || (Expired(t[i].expiry, clock) && u[i] == Lease(NO_MAC, t[i].expiry)))
            && (yi == |t| <==> forall i :: 0 <= i < |t| ==> t[i].mac != mac && !Free(t[i], clock))
  {
    var mine, open := FirstOf(t, mac, 0), FirstFree(t, clock, 0);
  }

  /** The scan over the slots. */
  method Discover(lease: array<Lease>, mac: Mac, clock: nat) returns (yi: nat)
    requires lease.Length == MAX_IP
    modifies lease
    ensures (lease[..], yi) == Offer(old(lease[..]), mac, clock)
  {
    yi := MAX_IP;
    ghost var t := lease[..];
    ghost var open := FirstFree(t, clock, 0);
    for i := 0 to MAX_IP
      invariant FirstOf(t, mac, 0) == FirstOf(t, mac, i)
      invariant yi == if open < i then open else MAX_IP
      invariant lease[..] == if open < i then t[open := t[open].(mac := NO_MAC)] else t
    {
      assert lease[..][i] == t[i];
      if lease[i].mac == mac {
        yi := i;
        break;
      }
      if yi == MAX_IP {
        if lease[i].mac == NO_MAC {
          yi := i;
        }
        if Expired(lease[i].expiry, clock) {
          lease[i] := lease[i].(mac := NO_MAC);
          yi := i;
        }
      }
    }
  }

  // ----------------------------------------------------------------- REQUEST

  /** Granting slot `yi` to the client, if it holds it or nobody does. */
  function Grant(t: seq<Lease>, mac: Mac, yi: nat, clock: nat): (r: (seq<Lease>, bool))
    requires yi < |t|
    ensures |r.0| == |t|
  {
    if t[yi].mac == mac || t[yi].mac == NO_MAC then (t[yi := Lease(mac, Stamp(clock))], true) else (t, false)
  }

  method Request(lease: array<Lease>, mac: Mac, yi: nat, clock: nat) returns (ok: bool)
    requires lease.Length == MAX_IP && yi < MAX_IP
    modifies lease
    ensures (lease[..], ok) == Grant(old(lease[..]), mac, yi, clock)
  {
    ghost var t := lease[..];
    if lease[yi].mac == mac {
    } else if lease[yi].mac == NO_MAC {
      lease[yi] := lease[yi].(mac := mac);
    } else {
      return false;
    }
    lease[yi] := lease[yi].(expiry := Stamp(clock));
    ok := true;
    assert lease[..] == t[yi := Lease(mac, Stamp(clock))];
  }

  // -------------------------------------------------------------------- runs

  /** A message the server acts on: a DISCOVER, or a REQUEST for a slot. */
  datatype Event = Discovers(mac: Mac, at: nat) | Requests(mac: Mac, slot: nat, at: nat)

  type Table = t: seq<Lease> | |t| == MAX_IP witness seq(MAX_IP, _ => Lease(NO_MAC, 0))

  function After(t: Table, e: Event): Table {
    match e
    case Discovers(mac, at) => OfferChoice(t, mac, Clock(at)); Offer(t, mac, Clock(at)).0
    case Requests(mac, slot, at) => if slot < MAX_IP then Grant(t, mac, slot, Clock(at)).0 else t
  }

  function Run(t: Table, es: seq<Event>): Table
    decreases |es|
  {
    if es == [] then t else Run(After(t, es[0]), es[1..])
  }

  /** The server answers the event with an ACK for the slot. */
  predicate Acks(t: Table, e: Event, slot: nat) {
    e.Requests? && e.slot == slot < MAX_IP && Grant(t, e.mac, slot, Clock(e.at)).1
  }

  /** A REQUEST is acknowledged if and only if the slot is one of the eight and is the
      client's own or nobody's; then it is the client's, and nothing else changes. */
  lemma GrantedExactly(t: Table, mac: Mac, slot: nat, at: nat)
    ensures var e := Requests(mac, slot, at);
            var open := slot < 8 && (t[slot].mac == mac || t[slot].mac == [0, 0, 0, 0, 0, 0]);
            && (Acks(t, e, slot) <==> open)
            && |After(t, e)| == 8
            && forall i :: 0 <= i < 8 ==>
                 if open && i == slot then Held(After(t, e), i, mac, at) else After(t, e)[i] == t[i]
  {
  }

  /** The slot is the client's or nobody's. */
  predicate Reserved(t: Table, slot: nat, mac: Mac) {
    slot < MAX_IP && (t[slot].mac == mac || t[slot].mac == NO_MAC)
  }

  /** What is offered to a client is its own or nobody's, and stays so whatever the client
      sends next. */
  lemma OfferReserves(t: Table, mac: Mac, at: nat)
    ensures var slot := Offer(t, mac, Clock(at)).1;
            slot < MAX_IP ==> Reserved(After(t, Discovers(mac, at)), slot, mac)
  {
    OfferChoice(t, mac, Clock(at));
  }

  lemma {:induction false} StaysReserved(t: Table, slot: nat, mac: Mac, es: seq<Event>)
    requires Reserved(t, slot, mac) && forall i :: 0 <= i < |es| ==> es[i].mac == mac
    ensures Reserved(Run(t, es), slot, mac)
    decreases |es|
  {
    if es != [] {
      if es[0].Discovers? { OfferChoice(t, mac, Clock(es[0].at)); }
      StaysReserved(After(t, es[0]), slot, mac, es[1..]);
    }
  }

  predicate InOrder(es: seq<Event>) {
    forall i, j :: 0 <= i < j < |es| ==> es[i].at <= es[j].at
  }

  /** The slot is the client's, by a grant at `g`. */
  predicate Held(t: Table, slot: nat, mac: Mac, g: nat) {
    slot < MAX_IP && t[slot] == Lease(mac, Stamp(Clock(g)))
  }

  /** Within the lease only the holder can touch its slot. */
  lemma StaysHeld(t: Table, slot: nat, mac: Mac, g: nat, e: Event)
    requires Held(t, slot, mac, g) && mac != NO_MAC && g <= e.at <= g + LEASE_MS
    ensures Held(After(t, e), slot, mac, g) || (Acks(t, e, slot) && e.mac == mac && Held(After(t, e), slot, mac, e.at))
  {
    ExpiryWindow(g, e.at);
    if e.Discovers? { OfferChoice(t, e.mac, Clock(e.at)); }
  }

  lemma {:induction false} HeldThrough(t: Table, slot: nat, mac: Mac, g: nat, es: seq<Event>, until: nat)
    returns (h: nat)
    requires Held(t, slot, mac, g) && mac != NO_MAC && InOrder(es)
    requires forall i :: 0 <= i < |es| ==> g <= es[i].at <= until
    requires until <= g + LEASE_MS
    ensures g <= h <= until || h == g
    ensures Held(Run(t, es), slot, mac, h)
    decreases |es|
  {
    h := g;
    if es != [] {
      StaysHeld(t, slot, mac, g, es[0]);
      var g1 := if Held(After(t, es[0]), slot, mac, g) then g else es[0].at;
      h := HeldThrough(After(t, es[0]), slot, mac, g1, es[1..], until);
    }
  }

  /** Exclusive leases: once a slot has been acknowledged to a client, no later run of
      DISCOVERs and REQUESTs gets it acknowledged to another before 86,400,000 ms are
      over. */
  lemma LeasesAreExclusive(t: Table, first: Event, es: seq<Event>, last: Event, slot: nat)
    requires InOrder([first] + es + [last])
    requires Acks(t, first, slot) && first.mac != NO_MAC
    requires Acks(Run(After(t, first), es), last, slot) && last.mac != first.mac
    ensures last.at > first.at + 86_400_000
  {
    var all := [first] + es + [last];
    assert all[0] == first && all[|es| + 1] == last && forall i :: 0 <= i < |es| ==> all[i + 1] == es[i];
    if last.at <= first.at + LEASE_MS {
      var t1 := After(t, first);
      assert Held(t1, slot, first.mac, first.at);
      forall i, j | 0 <= i < j < |es| ensures es[i].at <= es[j].at {
        assert all[i + 1].at <= all[j + 1].at;
      }
      var h := HeldThrough(t1, slot, first.mac, first.at, es, last.at);
      assert false;
    }
  }
}
