/** The two halves of a node keep the same tree, one UART queue apart: along every run the
    STA comes to the trees the AP had, in their order, and meets each message with the
    tree the AP had when it sent it.
  */
module Replication {
  import opened Trees
  import opened TreeOps
  import opened Mesh
  import opened Network
  import opened NetworkInvariant
  import opened NetworkSteps
  import opened NetworkTheorems

  /** How many UART messages the STA of `n` has handled during the enabled ones of `steps`. */
  function Taken(s: Net, n: Id, steps: seq<Step>): nat
    decreases |steps|
  {
    if steps == [] then 0
    else if !Enabled(s, steps[0]) then Taken(s, n, steps[1..])
    else (if steps[0] == SerialUp(n) then 1 else 0) + Taken(Next(s, steps[0]), n, steps[1..])
  }

  // --------------------------------------------------------------------- one step

  /** The AP of `n` adds to the UART queue at its end, the STA takes from its front, and
      nobody else touches it. */
  lemma UartStep(s: Net, step: Step, n: Id)
    requires Enabled(s, step) && n in s.nodes
    ensures n in Next(s, step).nodes
    ensures var q, r := s.nodes[n].toSta, Next(s, step).nodes[n].toSta;
            if step == SerialUp(n) then q != [] && r == q[1..] else q <= r
  {
  }

  /** The STA's tree after a step: the head of the queue put in, if it took it. */
  lemma TreeStep(s: Net, step: Step, n: Id)
    requires Reachable(s) && Enabled(s, step) && n in s.nodes
    ensures n in Next(s, step).nodes
    ensures var x := s.nodes[n];
            Next(s, step).nodes[n].sta.tree ==
            if step == SerialUp(n) then After(x.sta.tree, x.toSta[..1]) else x.sta.tree
  {
    if step == SerialUp(n) {
      OwnStepsOnTree(s, step, n);
      assert s.nodes[n].toSta[..1][1..] == [];
    } else {
      OnlyNodeAddsReachTheSta(s, step, n);
    }
  }

  // ---------------------------------------------------------------------- whole runs

  /** After `k` of the messages `q` that were at the front of its queue, the STA has the
      tree that these `k` make, and the rest of them is still at the front. */
  lemma {:induction false} Replays(s: Net, n: Id, q: seq<Serial>, steps: seq<Step>)
    requires Reachable(s) && n in s.nodes && q <= s.nodes[n].toSta && Taken(s, n, steps) <= |q|
    ensures var e, k := Run(s, steps), Taken(s, n, steps);
            && n in e.nodes && q[k..] <= e.nodes[n].toSta
            && e.nodes[n].sta.tree == After(s.nodes[n].sta.tree, q[..k])
    decreases |steps|
  {
    if steps == [] {
      assert q[0..] == q && q[..0] == [];
    } else if !Enabled(s, steps[0]) {
      Replays(s, n, q, steps[1..]);
    } else {
      var s1, k := Next(s, steps[0]), Taken(s, n, steps);
      UartStep(s, steps[0], n);
      TreeStep(s, steps[0], n);
      ReachableNext(s, steps[0]);
      if steps[0] == SerialUp(n) {
        Replays(s1, n, q[1..], steps[1..]);
        assert q[1..][k - 1..] == q[k..];
        AfterHead(s.nodes[n].sta.tree, s.nodes[n].toSta, q, k);
      } else {
        Replays(s1, n, q, steps[1..]);
      }
    }
  }

  lemma AfterHead(t: Tree<Id>, r: seq<Serial>, q: seq<Serial>, k: nat)
    requires 0 < k <= |q| && q <= r
    ensures After(t, q[..k]) == After(After(t, r[..1]), q[1..][..k - 1])
  {
    assert q[..k][1..] == q[1..][..k - 1] && q[..k][0] == r[..1][0] && r[..1][1..] == [];
  }

  /** The STA comes to every tree the AP has: when it has handled exactly the messages
      that are queued now, however the steps in between went, its tree is what the AP's is
      now; and after `k` of them, what these `k` make of its own. */
  lemma StaCatchesUp(s: Net, n: Id, steps: seq<Step>)
    requires Reachable(s) && n in s.nodes && Taken(s, n, steps) <= |s.nodes[n].toSta|
    ensures var x, e, k := s.nodes[n], Run(s, steps), Taken(s, n, steps);
            && n in e.nodes
            && e.nodes[n].sta.tree == After(x.sta.tree, x.toSta[..k])
            && (k == |x.toSta| ==> e.nodes[n].sta.tree == x.ap.tree)
  {
    ReachableInv(s);
    assert NodeOk(s, n);
    Replays(s, n, s.nodes[n].toSta, steps);
    assert s.nodes[n].toSta[..|s.nodes[n].toSta|] == s.nodes[n].toSta;
  }

  // ------------------------------------------------------------- message by message

  /** The UART messages that a step of the AP of `n` sends. */
  function Sent(s: Net, step: Step, n: Id): (r: seq<Serial>)
    requires Enabled(s, step) && n in s.nodes && step != SerialUp(n)
    ensures Next(s, step).nodes[n].toSta == s.nodes[n].toSta + r
  {
    UartStep(s, step, n);
    Next(s, step).nodes[n].toSta[|s.nodes[n].toSta|..]
  }

  /** Each message is handled with the tree the AP had when it sent it. A step sends `out`;
      the AP's tree before the step, with the first `j` of `out` put in, is the tree it has
      when it comes to sending the next. However the run goes on: when the STA has handled
      all before `out[j]`, that message is at the front, and that is the STA's tree. */
  lemma HandledWithTreeOfSending(s: Net, step: Step, n: Id, j: nat, steps: seq<Step>)
    requires Reachable(s) && Enabled(s, step) && n in s.nodes && step != SerialUp(n) && j < |Sent(s, step, n)|
    requires Taken(Next(s, step), n, steps) == |s.nodes[n].toSta| + j
    ensures var x, y, out, e := s.nodes[n], Next(s, step).nodes[n], Sent(s, step, n), Run(Next(s, step), steps);
            && n in e.nodes && e.nodes[n].toSta != [] && e.nodes[n].toSta[0] == out[j]
            && e.nodes[n].sta.tree == After(x.ap.tree, out[..j])
            && After(x.ap.tree, out) == y.ap.tree
            && (out[j].Tunnel? && |out| == 1 ==> e.nodes[n].sta.tree == x.ap.tree == y.ap.tree)
  {
    var s1, x, out := Next(s, step), s.nodes[n], Sent(s, step, n);
    ReachableNext(s, step);
    StaReplicates(s, n);
    StaReplicates(s1, n);
    TreeStep(s, step, n);
    HandledLater(s1, n, x.toSta, out, j, steps);
  }

  lemma HandledLater(s: Net, n: Id, q: seq<Serial>, out: seq<Serial>, j: nat, steps: seq<Step>)
    requires Reachable(s) && n in s.nodes && s.nodes[n].toSta == q + out && j < |out|
    requires Taken(s, n, steps) == |q| + j
    ensures var t, e := s.nodes[n].sta.tree, Run(s, steps);
            && n in e.nodes && e.nodes[n].toSta != [] && e.nodes[n].toSta[0] == out[j]
            && e.nodes[n].sta.tree == After(After(t, q), out[..j])
            && After(t, q + out) == After(After(t, q), out)
            && (|out| == 1 && out[j].Tunnel? ==> e.nodes[n].sta.tree == After(t, q) == After(t, q + out))
  {
    Replays(s, n, q + out, steps);
    var k := Taken(s, n, steps);
    TreeBetween(s.nodes[n].sta.tree, q, out, j, k);
    SameHead((q + out)[k..], Run(s, steps).nodes[n].toSta);
  }

  lemma SameHead<T>(a: seq<T>, b: seq<T>)
    requires a != [] && a <= b
    ensures b != [] && b[0] == a[0]
  {
  }

  lemma StaReplicates(s: Net, n: Id)
    requires Reachable(s) && n in s.nodes
    ensures After(s.nodes[n].sta.tree, s.nodes[n].toSta) == s.nodes[n].ap.tree
  {
    ReachableInv(s);
    assert NodeOk(s, n);
  }

  lemma TreeBetween(t: Tree<Id>, q: seq<Serial>, out: seq<Serial>, j: nat, k: nat)
    requires j < |out| && k == |q| + j
    ensures After(t, (q + out)[..k]) == After(After(t, q), out[..j])
    ensures After(t, q + out) == After(After(t, q), out)
    ensures (q + out)[k..] != [] && (q + out)[k..][0] == out[j]
    ensures |out| == 1 && out[j].Tunnel? ==> After(After(t, q), out[..j]) == After(t, q) == After(t, q + out)
  {
    assert (q + out)[..k] == q + out[..j];
    AfterAppend(t, q, out[..j]);
    AfterAppend(t, q, out);
    if |out| == 1 { assert out[..0] == [] && out[1..] == []; }
  }

  lemma {:induction false} AfterAppend(t: Tree<Id>, q: seq<Serial>, r: seq<Serial>)
    ensures After(t, q + r) == After(After(t, q), r)
    decreases |q|
  {
    if q == [] {
      assert q + r == r;
    } else {
      assert (q + r)[1..] == q[1..] + r;
      AfterAppend(if q[0].NodeAdd? then AddAnyChild(t, q[0].parent, q[0].child).0 else t, q[1..], r);
    }
  }
}
