/** Exactly-once completion, per-address order and conservation, over every run. */
module ExactlyOnce {
  import opened Wrappers
  import opened Metering
  import opened UartMatching
  import opened MeterSystem
  import opened MeterInvariant

  /** A position that holds an unreported dispatched request. */
  datatype Spot = ChannelAt(i: nat) | TableAt(num: SeqNum) | HandAt(i: nat) | LostAt(i: nat)

  function LiveSpots(s: System, addr: Addr): set<Spot> {
    (set i: nat | i < |s.sched.channel| && s.sched.channel[i].req.addr == addr :: ChannelAt(i)) +
    (set n | n in s.uart.table && s.uart.table[n].req.addr == addr :: TableAt(n)) +
    (set i: nat | i < |s.hand| && s.hand[i].req.addr == addr :: HandAt(i))
  }

  function LostSpots(s: System, addr: Addr): set<Spot> {
    set i: nat | i < |s.lost| && s.lost[i].addr == addr :: LostAt(i)
  }

  /** The request a position holds. */
  function At(s: System, spot: Spot): Option<Request> {
    match spot
    case ChannelAt(i) => if i < |s.sched.channel| then Some(s.sched.channel[i].req) else None
    case TableAt(n) => if n in s.uart.table then Some(s.uart.table[n].req) else None
    case HandAt(i) => if i < |s.hand| then Some(s.hand[i].req) else None
    case LostAt(i) => if i < |s.lost| then Some(s.lost[i]) else None
  }

  ghost predicate Holds(s: System, spot: Spot, addr: Addr) {
    At(s, spot).Some? && At(s, spot).value.addr == addr
  }

  lemma SpotsHold(s: System, addr: Addr, spot: Spot)
    ensures spot in LiveSpots(s, addr) + LostSpots(s, addr) <==> Holds(s, spot, addr)
    ensures spot in LostSpots(s, addr) <==> spot.LostAt? && Holds(s, spot, addr)
  {
  }

  /** Every holder of an address holds its one request in flight, at the place the history names. */
  lemma HolderIsFlight(s: System, addr: Addr, spot: Spot)
    requires PlacesOk(s) && Holds(s, spot, addr)
    ensures addr in s.flight && At(s, spot).value == s.flight[addr].req
    ensures match spot
            case ChannelAt(_) => s.flight[addr].place == InChannel
            case TableAt(n) => s.flight[addr].place == InTable(n)
            case HandAt(_) => s.flight[addr].place == InHand
            case LostAt(_) => s.flight[addr].place == Lost
  {
    match spot
    case ChannelAt(i) => assert ChannelReqs(s.sched.channel)[i] == s.sched.channel[i].req;
    case HandAt(i) => assert HandReqs(s.hand)[i] == s.hand[i].req;
    case _ =>
  }

  lemma OneHolder(s: System, addr: Addr, spot: Spot, spot': Spot)
    requires PlacesOk(s) && Holds(s, spot, addr) && Holds(s, spot', addr)
    ensures spot == spot'
  {
    HolderIsFlight(s, addr, spot);
    HolderIsFlight(s, addr, spot');
    match spot
    case ChannelAt(i) =>
      assert ChannelReqs(s.sched.channel)[i].addr == ChannelReqs(s.sched.channel)[spot'.i].addr;
    case HandAt(i) =>
      assert HandReqs(s.hand)[i].addr == HandReqs(s.hand)[spot'.i].addr;
    case _ =>
  }

  lemma FlightIsHeld(s: System, addr: Addr) returns (spot: Spot)
    requires PlacesOk(s) && addr in s.flight
    ensures Holds(s, spot, addr)
  {
    var r := s.flight[addr].req;
    match s.flight[addr].place
    case InChannel =>
      var i: nat :| i < |s.sched.channel| && ChannelReqs(s.sched.channel)[i] == r;
      spot := ChannelAt(i);
    case InTable(n) => spot := TableAt(n);
    case InHand =>
      var i: nat :| i < |s.hand| && HandReqs(s.hand)[i] == r;
      spot := HandAt(i);
    case Lost =>
      var i: nat :| i < |s.lost| && s.lost[i] == r;
      spot := LostAt(i);
  }

  lemma SpotCount(s: System, addr: Addr)
    requires PlacesOk(s)
    ensures |LiveSpots(s, addr) + LostSpots(s, addr)| == |Current(s.flight, addr)|
    ensures forall spot :: spot in LiveSpots(s, addr) + LostSpots(s, addr) ==>
              At(s, spot) == Some(s.flight[addr].req)
  {
    var spots := LiveSpots(s, addr) + LostSpots(s, addr);
    forall spot ensures spot in spots <==> Holds(s, spot, addr) {
      SpotsHold(s, addr, spot);
    }
    if addr in s.flight {
      var one := FlightIsHeld(s, addr);
      forall spot | spot in spots ensures spot == one {
        OneHolder(s, addr, spot, one);
      }
      HolderIsFlight(s, addr, one);
      assert spots == {one};
    } else {
      forall spot ensures spot !in spots {
        if Holds(s, spot, addr) {
          HolderIsFlight(s, addr, spot);
        }
      }
      assert spots == {};
    }
  }

  /** In every reachable state an address is waiting exactly when one of its requests is at
      one place between dispatch and report, and otherwise none is. A stuck address is one
      whose request was lost. After a panic the flags mean nothing. */
  lemma {:induction false} WaitingMeansOneOutstanding(cfg: Config, steps: seq<Step>, addr: Addr)
    requires Possible(cfg, steps)
    ensures var s := Run(cfg, steps);
            && |LiveSpots(s, addr)| + |LostSpots(s, addr)| == |Current(s.flight, addr)| <= 1
            && (!s.panicked ==> |Current(s.flight, addr)| == if Waiting(s.sched.cache, addr) then 1 else 0)
  {
    InvHolds(cfg, steps);
    var s := Run(cfg, steps);
    SpotCount(s, addr);
    assert LiveSpots(s, addr) !! LostSpots(s, addr) by {
      forall spot ensures !(spot in LiveSpots(s, addr) && spot in LostSpots(s, addr)) {
        SpotsHold(s, addr, spot);
      }
    }
  }

  // ---- counting one request ----

  lemma {:induction false} OfCount(reqs: seq<Request>, r: Request)
    ensures multiset(Of(reqs, r.addr))[r] == multiset(reqs)[r]
  {
    if reqs != [] {
      OfCount(reqs[..|reqs| - 1], r);
      assert reqs == reqs[..|reqs| - 1] + [reqs[|reqs| - 1]];
    }
  }

  lemma {:induction false} DistinctCount(reqs: seq<Request>, r: Request)
    requires forall i, j :: 0 <= i < j < |reqs| ==> reqs[i].id < reqs[j].id
    ensures multiset(reqs)[r] == if r in reqs then 1 else 0
  {
    if reqs != [] {
      var init, last := reqs[..|reqs| - 1], reqs[|reqs| - 1];
      DistinctCount(init, r);
      assert reqs == init + [last];
    }
  }

  function Reports(s: System, r: Request): nat {
    multiset(ReportReqs(s.reports))[r]
  }

  /** The places between dispatch and report that hold `r` itself. */
  function Outstanding(s: System, r: Request): set<Spot> {
    set spot | spot in LiveSpots(s, r.addr) + LostSpots(s, r.addr) && At(s, spot) == Some(r)
  }

  function Queued(s: System, r: Request): nat {
    multiset(Queue(s.sched.cache, r.addr))[r]
  }

  lemma OutstandingCount(s: System, r: Request)
    requires PlacesOk(s)
    ensures |Outstanding(s, r)| == multiset(Current(s.flight, r.addr))[r]
  {
    SpotCount(s, r.addr);
    var spots := LiveSpots(s, r.addr) + LostSpots(s, r.addr);
    if r.addr in s.flight && s.flight[r.addr].req == r {
      assert Outstanding(s, r) == spots;
    } else {
      assert Outstanding(s, r) == {};
    }
  }

  /** Every accepted request is, in every reachable state, at exactly one place: reported
      once, or at one place between dispatch and report, or at one place of its queue. A
      request that was not accepted is nowhere. */
  lemma {:induction false} ExactlyOncePlace(cfg: Config, steps: seq<Step>, r: Request)
    requires Possible(cfg, steps)
    ensures var s := Run(cfg, steps);
            Reports(s, r) + |Outstanding(s, r)| + Queued(s, r) == if r in s.accepted then 1 else 0
  {
    InvHolds(cfg, steps);
    var s := Run(cfg, steps);
    OutstandingCount(s, r);
    assert LedgerAt(s.dispatched, s.reports, s.flight, r.addr);
    assert ConservedAt(s.accepted, s.dispatched, s.sched.cache, r.addr);
    OfCount(s.accepted, r);
    OfCount(ReportReqs(s.reports), r);
    DistinctCount(s.accepted, r);
  }

  // ---- what loses a request ----

  /** The next request to take from a queue, or the one arriving, cannot be made a frame. */
  predicate Panics(cfg: Config, s: System, step: Step)
    requires Enabled(s, step)
  {
    match step
    case Arrive(addr, payload, metering, _) =>
      Decide(cfg, s.sched.cache, Request(s.arrivals, addr, payload), metering) == Fatal
    case Finish(index) =>
      !s.panicked && Reportable(s.hand[index].kind) && HeadPanics(s.sched.cache, s.hand[index].req.addr)
    case Sweep(addr) => SweepPanics(s.sched.cache, addr)
    case _ => false
  }

  /** The steps after which some request can never be reported, or none at all: a concurrent
      frame is not written or displaces a live entry of the table, a reply does not decode, a
      report of the module consumes an entry, a request that cannot be sent brings a panic, or
      a timer finds no entry. */
  predicate Loses(cfg: Config, s: System, step: Step)
    requires Enabled(s, step)
  {
    || Panics(cfg, s, step)
    || match step
       case ConcurrentWrite(ok) => !ok || s.sched.channel[0].Seq() in s.uart.table
       case Finish(index) => !Reportable(s.hand[index].kind)
       case TimerMisses(_) => true
       case _ => false
  }

  /** Losses are final, and a step adds to them or poisons a lock exactly when it loses. */
  lemma LostGrows(cfg: Config, s: System, step: Step)
    requires Enabled(s, step)
    ensures var s' := Apply(cfg, s, step);
            && s.lost <= s'.lost && (s.panicked ==> s'.panicked) && (s.stopped ==> s'.stopped)
            && (Loses(cfg, s, step) <==> s'.lost != s.lost || s'.panicked != s.panicked || s'.stopped != s.stopped)
  {
    hide Arrived, Relaunched, Decide, AfterAging, Sweepable, HeadPanics, Kills, Reportable, Route;
    match step
    case Arrive(addr, payload, metering, now) => ArrivalChanges(cfg, s, addr, payload, metering, now);
    case Finish(index) => RelaunchLoses(Handed(s, index), s.hand[index].req.addr);
    case Sweep(addr) => RelaunchLoses(s, addr);
    case _ =>
  }

  lemma RelaunchLoses(s: System, addr: Addr)
    ensures var s' := Relaunched(s, addr);
            && s'.stopped == s.stopped
            && (HeadPanics(s.sched.cache, addr) ==> s'.panicked && s'.lost == s.lost + [Queue(s.sched.cache, addr)[0]])
            && (!HeadPanics(s.sched.cache, addr) ==> s'.panicked == s.panicked && s'.lost == s.lost)
  {
    hide AfterReport, Request.Sendable;
  }

  predicate LosesNothing(cfg: Config, steps: seq<Step>)
    requires Possible(cfg, steps)
    decreases |steps|
  {
    steps == [] ||
    (LosesNothing(cfg, steps[..|steps| - 1]) && !Loses(cfg, Run(cfg, steps[..|steps| - 1]), steps[|steps| - 1]))
  }

  predicate Intact(s: System) {
    s.lost == [] && !s.panicked && !s.stopped
  }

  lemma {:induction false} NothingLost(cfg: Config, steps: seq<Step>)
    requires Possible(cfg, steps)
    ensures Intact(Run(cfg, steps)) <==> LosesNothing(cfg, steps)
    decreases |steps|
  {
    hide Apply, Loses;
    if steps != [] {
      var prefix := steps[..|steps| - 1];
      NothingLost(cfg, prefix);
      LostGrows(cfg, Run(cfg, prefix), steps[|steps| - 1]);
    }
  }

  /** While nothing is lost, waiting means exactly one request in the channel, the table or
      a handler's hand; and a run loses nothing exactly when none of its steps loses. */
  lemma {:induction false} WaitingIffInProgress(cfg: Config, steps: seq<Step>)
    requires Possible(cfg, steps)
    ensures var s := Run(cfg, steps);
            LosesNothing(cfg, steps) <==>
            !s.panicked && !s.stopped && forall a :: |LiveSpots(s, a)| == if Waiting(s.sched.cache, a) then 1 else 0
  {
    var s := Run(cfg, steps);
    NothingLost(cfg, steps);
    forall a ensures |LiveSpots(s, a)| + |LostSpots(s, a)| == |Current(s.flight, a)|
      ensures !s.panicked ==> |Current(s.flight, a)| == if Waiting(s.sched.cache, a) then 1 else 0 {
      WaitingMeansOneOutstanding(cfg, steps, a);
    }
    if s.lost != [] {
      var a := s.lost[0].addr;
      assert LostAt(0) in LostSpots(s, a);
      assert |LostSpots(s, a)| != 0;
    } else {
      forall a ensures LostSpots(s, a) == {} {
      }
    }
  }
}
