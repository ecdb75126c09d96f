/** Data and its ACK together: what is left in the network when both have come to their
    ends, by their own steps and by every schedule of deliveries.
  */
module Exchange {
  import opened Bytes
  import opened Trees
  import opened Mesh
  import opened Network
  import opened NetworkInvariant
  import opened NetworkSteps
  import opened NetworkTheorems
  import opened Routing
  import opened TurningPoint
  import opened Drain
  import opened Delivery

  // ------------------------------------------------------------- the last of an ACK

  /** Where an ACK stops it leaves nothing: no answer, no change. */
  lemma AckVanishes(s: Net, at: Place, m: Msg)
    requires Carried(s, at, m) && m.Ack? && QuietHop(s.top, at, m).Gone?
    ensures Enabled(Carrying(s, at, m), StepAt(at)) && Next(Carrying(s, at, m), StepAt(at)) == s
  {
    var n := at.node;
    var c := Carrying(s, at, m);
    var x := c.nodes[n];
    assert Idle(s.nodes[n]);
    Moved(s, at, m);
    match at {
      case Down(_) =>
        HopDown(c, n, m);
        assert x.(down := x.down[1..]) == s.nodes[n];
      case ToSta(_) =>
        HopToSta(c, n, m);
        assert x.(toSta := x.toSta[1..]) == s.nodes[n];
    }
    WithTwice(s, n, x, s.nodes[n]);
    WithSame(s, n);
  }

  lemma RankFalls(s: Net, at: Place, m: Msg)
    requires Carried(s, at, m)
    ensures Rank(s.top, at, m.dest) > Rank(s.top, QuietHop(s.top, at, m), m.dest)
  {
    Moved(s, at, m);
    HopDescends(Carrying(s, at, m), at, m);
  }

  /** With hops enough, a way ends where the message goes no further. */
  lemma {:induction false} WayIsDone(s: Net, at: Place, m: Msg, k: nat, r: seq<Place>)
    requires Carried(s, at, m) && k >= Rank(s.top, at, m.dest) && r == QuietRoute(s.top, at, m, k)
    ensures r != [] && QuietHop(s.top, Last(r), m).Gone?
    decreases k
  {
    var h := QuietHop(s.top, at, m);
    RouteUnfolds(s.top, at, m, k);
    RankFalls(s, at, m);
    if !h.Gone? {
      CarriedOn(s, at, m);
      WayIsDone(s, h, m, k - 1, QuietRoute(s.top, h, m, k - 1));
      LastOf([at], QuietRoute(s.top, h, m, k - 1));
    }
  }

  /** Of an ACK on its way alone nothing is left when it has made its own steps. */
  lemma AckEnds(s: Net, at: Place, m: Msg, k: nat)
    requires Carried(s, at, m) && m.Ack? && k >= Rank(s.top, at, m.dest)
    ensures var c := Carrying(s, at, m); Run(c, OwnSteps(Follow(c, at, m, Waits(k)))) == s
  {
    var c, r := Carrying(s, at, m), QuietRoute(s.top, at, m, k);
    RouteIsQuiet(s, at, m, k);
    JourneyEnds(s, at, m, k, c, r);
    WayIsDone(s, at, m, k, r);
    AckVanishes(s, Last(r), m);
  }

  /** So any ACK that a STA sends with `send_msg` at rest leaves the network as it was,
      whoever it is for. */
  lemma AcksLeaveNothing(s: Net, x: Id, m: Msg, k: nat)
    requires Reachable(s) && Quiet(s) && x in s.nodes && m.Ack? && k >= 2 * DepthOf(s.top, x) + 4
    ensures AfterJourney(s, x, m, k) == s
  {
    ReachableInv(s);
    SentAlone(s, x, m);
    FirstRank(s.top, x, m.dest, k);
    AnswerEnds(s, FirstPlace(s, x, m), m, AfterSta(s, x, StaSend(s.nodes[x].sta, m)), k);
  }

  lemma FirstRank(top: Topology, x: Id, d: Id, k: nat)
    requires k >= 2 * DepthOf(top, x) + 4
    ensures k >= Rank(top, FirstQuiet(top, x, d), d)
  {
  }

  // ----------------------------------------------------------------- the exchange

  /** The ACK of data `m`. */
  function AckOf(m: Msg): Msg
    requires m.Data?
  {
    Ack(m.dest, m.source, Length(m))
  }

  /** Where the ACK stands when the journey of the data is over, if there is one. */
  ghost function AckPlace(s: Net, x: Id, d: Id): Place
    requires TopologyOk(s.top) && s.nodes.Keys == s.top.depth.Keys && x in s.nodes
  {
    if ComesFromAbove(s, x, d) then Up(d)
    else if ComesFromBelow(s, x, d) && Near(s.top, d, x) then Down(FirstHop(s.top, d, x))
    else Gone
  }

  /** The state after the data has made its own steps, and then its ACK. */
  ghost function AfterExchange(s: Net, x: Id, m: Msg, k: nat): Net
    requires TopologyOk(s.top) && s.nodes.Keys == s.top.depth.Keys && x in s.nodes && m.Data?
  {
    var e := AfterJourney(s, x, m, k);
    Run(e, OwnSteps(Follow(e, AckPlace(s, x, m.dest), AckOf(m), Waits(k))))
  }

  /** A network at rest in which the application of `d` has been given `m` besides. */
  function Given(s: Net, d: Id, m: Msg): Net
    requires d in s.nodes
  {
    var y := s.nodes[d];
    With(s, d, y.(sta := y.sta.(delivered := y.sta.delivered + [m])))
  }

  /** What is left of data from `x` when all is over. */
  ghost function Settled(s: Net, x: Id, m: Msg): Net
    requires TopologyOk(s.top) && s.nodes.Keys == s.top.depth.Keys && x in s.nodes && m.Data?
  {
    if ComesFromAbove(s, x, m.dest) then Given(s, m.dest, m) else s
  }

  lemma GivenOk(s: Net, d: Id, m: Msg)
    requires Inv(s) && Quiet(s) && d in s.nodes
    ensures Inv(Given(s, d, m)) && Quiet(Given(s, d, m))
  {
    var x, y := s.nodes[d], Given(s, d, m).nodes[d];
    assert NodeOk(s, d) && Idle(x);
    assert LinkedUp(s, d, y);
    OneStation(s, d, y);
    forall n | n in s.nodes ensures Idle(Given(s, d, m).nodes[n]) { assert Idle(s.nodes[n]); }
  }

  /** After the data's journey the network is at rest, or it is at rest but for the ACK. */
  lemma AnswerStands(s: Net, x: Id, m: Msg, e: Net)
    requires Inv(s) && Quiet(s) && x in s.nodes && m.Data? && m.source == x && Inv(e)
    requires Outcome(s, x, m, e)
    ensures Inv(Settled(s, x, m)) && Quiet(Settled(s, x, m)) && Settled(s, x, m).top == s.top
    ensures var u, at := Settled(s, x, m), AckPlace(s, x, m.dest);
            e == Carrying(u, at, AckOf(m)) && (!at.Gone? ==> Carried(u, at, AckOf(m)))
  {
    var d, u := m.dest, Settled(s, x, m);
    if ComesFromAbove(s, x, d) {
      GivenOk(s, d, m);
      assert Idle(s.nodes[d]);
      WithTwice(s, d, u.nodes[d], Delivered(s.nodes[d], d, m));
    }
  }

  lemma JourneyOk(s: Net, x: Id, m: Msg, k: nat)
    requires Inv(s) && Quiet(s) && x in s.nodes && IsRelay(m)
    ensures Inv(AfterSta(s, x, StaSend(s.nodes[x].sta, m))) && Inv(AfterJourney(s, x, m, k))
  {
    FirstIsQuiet(s, x, m);
    var sent := AfterSta(s, x, StaSend(s.nodes[x].sta, m));
    RunOk(sent, OwnSteps(Follow(sent, FirstPlace(s, x, m), m, Waits(k))));
  }

  /** The whole exchange: when the data and its ACK have come to their ends, the network
      is as it was, but that the application of the destination has the data if it came
      from above. */
  lemma ExchangeLeaves(s: Net, x: Id, m: Msg, k: nat)
    requires Reachable(s) && Quiet(s) && x in s.nodes && m.Data? && m.source == x
    requires k >= 2 * DepthOf(s.top, x) + 4 && k >= 2 * DepthOf(s.top, m.dest) + 4
    ensures TopologyOk(s.top) && s.nodes.Keys == s.top.depth.Keys
    ensures AfterExchange(s, x, m, k) ==
            if ComesFromAbove(s, x, m.dest) then Given(s, m.dest, m) else s
  {
    ReachableInv(s);
    WhatBecomesOfData(s, x, m, k);
    JourneyOk(s, x, m, k);
    var e, at := AfterJourney(s, x, m, k), AckPlace(s, x, m.dest);
    AnswerStands(s, x, m, e);
    AnswerRank(s, x, m.dest, k);
    AnswerEnds(Settled(s, x, m), at, AckOf(m), e, k);
  }

  lemma AnswerRank(s: Net, x: Id, d: Id, k: nat)
    requires TopologyOk(s.top) && s.nodes.Keys == s.top.depth.Keys && x in s.nodes
    requires k >= 4 && k >= 2 * DepthOf(s.top, d) + 4
    ensures k >= Rank(s.top, AckPlace(s, x, d), x)
  {
  }

  lemma AnswerEnds(u: Net, at: Place, ack: Msg, e: Net, k: nat)
    requires ack.Ack? && e == Carrying(u, at, ack) && (!at.Gone? ==> Carried(u, at, ack))
    requires k >= Rank(u.top, at, ack.dest)
    ensures Run(e, OwnSteps(Follow(e, at, ack, Waits(k)))) == u
  {
    if at.Gone? { assert OwnSteps([]) == []; } else { AckEnds(u, at, ack, k); }
  }

  // --------------------------------------------------------- whoever is served first

  /** A lone message leaves no choice: no delivery but its own is enabled. */
  lemma NoOtherStep(s: Net, at: Place, m: Msg, step: Step)
    requires Carried(s, at, m) && Drain.Delivers(step) && Enabled(Carrying(s, at, m), step)
    ensures step == StepAt(at)
  {
    assert Idle(s.nodes[step.node]);
  }

  lemma ScheduleBegins(s: Net, at: Place, m: Msg, steps: seq<Step>)
    requires Carried(s, at, m) && Schedule(Carrying(s, at, m), steps) && Quiet(Run(Carrying(s, at, m), steps))
    ensures steps != [] && steps[0] == StepAt(at)
  {
    NotAtRest(s, at, m);
    if steps != [] { NoOtherStep(s, at, m, steps[0]); }
  }

  lemma NotAtRest(s: Net, at: Place, m: Msg)
    requires Carried(s, at, m)
    ensures !Quiet(Carrying(s, at, m))
  {
    Moved(s, at, m);
    assert !Idle(Carrying(s, at, m).nodes[at.node]);
  }

  lemma RestStays(s: Net, steps: seq<Step>)
    requires Inv(s) && Quiet(s) && Schedule(s, steps)
    ensures Run(s, steps) == s
  {
    AtRest(s);
  }

  lemma {:induction false} AckSchedule(s: Net, at: Place, m: Msg, c: Net, steps: seq<Step>)
    requires Carried(s, at, m) && m.Ack? && c == Carrying(s, at, m)
    requires Schedule(c, steps) && Quiet(Run(c, steps))
    ensures Run(c, steps) == s
    decreases |steps|
  {
    ScheduleBegins(s, at, m, steps);
    var h := QuietHop(s.top, at, m);
    if h.Gone? {
      AckVanishes(s, at, m);
      RestStays(s, steps[1..]);
    } else {
      Moved(s, at, m);
      AckSchedule(s, h, m, Carrying(s, h, m), steps[1..]);
    }
  }

  /** No schedule can do anything but these steps first. */
  ghost predicate Forced(c: Net, own: seq<Step>)
    decreases |own|
  {
    own != [] ==>
      && !Quiet(c) && Enabled(c, own[0])
      && (forall step :: Drain.Delivers(step) && Enabled(c, step) ==> step == own[0])
      && Forced(Next(c, own[0]), own[1..])
  }

  lemma {:induction false} ForcedFirst(c: Net, own: seq<Step>, steps: seq<Step>) returns (rest: seq<Step>)
    requires Forced(c, own) && Schedule(c, steps) && Quiet(Run(c, steps))
    ensures Schedule(Run(c, own), rest) && Run(Run(c, own), rest) == Run(c, steps)
    decreases |own|
  {
    if own == [] {
      rest := steps;
    } else {
      assert steps != [];
      rest := ForcedFirst(Next(c, own[0]), own[1..], steps[1..]);
    }
  }

  /** Such are the own steps of a lone message. */
  lemma {:induction false} JourneyForced(s: Net, at: Place, m: Msg, k: nat, c: Net, r: seq<Place>)
    requires Carried(s, at, m) && c == Carrying(s, at, m) && r == QuietRoute(s.top, at, m, k)
    ensures Forced(c, OwnSteps(r))
    decreases k
  {
    var h := QuietHop(s.top, at, m);
    RouteUnfolds(s.top, at, m, k);
    if k > 0 && !h.Gone? {
      var c1, r1 := Carrying(s, h, m), QuietRoute(s.top, h, m, k - 1);
      CarriedOn(s, at, m);
      JourneyForced(s, h, m, k - 1, c1, r1);
      ForcedBehind(s, at, m, c, c1, r1);
    } else {
      assert [at] + [] == [at];
      ForcedBehind(s, at, m, c, c, []);
    }
  }

  lemma ForcedBehind(s: Net, at: Place, m: Msg, c: Net, c1: Net, r: seq<Place>)
    requires Carried(s, at, m) && c == Carrying(s, at, m)
    requires r != [] ==> !QuietHop(s.top, at, m).Gone? && c1 == Carrying(s, QuietHop(s.top, at, m), m)
    requires r != [] ==> Forced(c1, OwnSteps(r))
    ensures Forced(c, OwnSteps([at] + r))
  {
    NotAtRest(s, at, m);
    Moved(s, at, m);
    OwnStepsOf(at, r);
    forall step | Drain.Delivers(step) && Enabled(c, step) ensures step == StepAt(at) { NoOtherStep(s, at, m, step); }
    assert ([StepAt(at)] + OwnSteps(r))[1..] == OwnSteps(r);
  }

  /** So a schedule that begins when the STA of `x` has sent the message begins with them. */
  lemma JourneyFirst(s: Net, x: Id, m: Msg, k: nat, steps: seq<Step>) returns (rest: seq<Step>)
    requires Inv(s) && Quiet(s) && x in s.nodes && IsRelay(m) && k >= 2 * DepthOf(s.top, x) + 4
    requires var sent := AfterSta(s, x, StaSend(s.nodes[x].sta, m));
             Schedule(sent, steps) && Quiet(Run(sent, steps))
    ensures var e := AfterJourney(s, x, m, k);
            Schedule(e, rest) && Run(e, rest) == Run(AfterSta(s, x, StaSend(s.nodes[x].sta, m)), steps)
  {
    var sent, first := AfterSta(s, x, StaSend(s.nodes[x].sta, m)), FirstPlace(s, x, m);
    SentAlone(s, x, m);
    if first.Gone? {
      rest := steps;
      assert OwnSteps([]) == [];
    } else {
      RouteIsQuiet(s, first, m, k);
      var r := QuietRoute(s.top, first, m, k);
      JourneyForced(s, first, m, k, sent, r);
      rest := ForcedFirst(sent, OwnSteps(r), steps);
    }
  }

  /** Whichever queue is served first: when the network has come to rest after data was sent
      with `send_msg`, the application of its destination has it if it came from above, and
      all else is as before. */
  lemma EveryScheduleSettles(s: Net, x: Id, m: Msg, steps: seq<Step>)
    requires Reachable(s) && Quiet(s) && x in s.nodes && m.Data? && m.source == x
    requires var sent := AfterSta(s, x, StaSend(s.nodes[x].sta, m));
             Schedule(sent, steps) && Quiet(Run(sent, steps))
    ensures TopologyOk(s.top) && s.nodes.Keys == s.top.depth.Keys
    ensures Run(AfterSta(s, x, StaSend(s.nodes[x].sta, m)), steps) ==
            if ComesFromAbove(s, x, m.dest) then Given(s, m.dest, m) else s
  {
    ReachableInv(s);
    var k := 2 * DepthOf(s.top, x) + 4;
    var e := AfterJourney(s, x, m, k);
    WhatBecomesOfData(s, x, m, k);
    JourneyOk(s, x, m, k);
    AnswerStands(s, x, m, e);
    var rest := JourneyFirst(s, x, m, k, steps);
    AnswerSettles(Settled(s, x, m), AckPlace(s, x, m.dest), AckOf(m), e, rest);
  }

  lemma AnswerSettles(u: Net, at: Place, ack: Msg, e: Net, rest: seq<Step>)
    requires Inv(u) && Quiet(u) && ack.Ack? && e == Carrying(u, at, ack) && (!at.Gone? ==> Carried(u, at, ack))
    requires Schedule(e, rest) && Quiet(Run(e, rest))
    ensures Run(e, rest) == u
  {
    if at.Gone? { RestStays(e, rest); } else { AckSchedule(u, at, ack, e, rest); }
  }
}
