/** What is not blocked can be led to its report. The runs made here use only steps that one
    reader and one timer thread can take, and sweep nothing. */
module Progress {
  import opened Wrappers
  import opened Metering
  import opened UartMatching
  import opened MeterSystem
  import opened MeterInvariant
  import opened ExactlyOnce
  import opened MeterOrder
  import opened Completion

  /** From `n` on, no step is a sweep. */
  predicate NoSweep(steps: seq<Step>, n: nat) {
    forall i :: n <= i < |steps| ==> !steps[i].Sweep?
  }

  // ---- one thread, one exchange ----

  ghost predicate ThreadsOk(s: System) {
    && (forall i :: 0 <= i < |s.hand| ==> s.hand[i].kind.By() !in s.dead)
    && (forall i, j :: 0 <= i < j < |s.hand| ==> s.hand[i].kind.By() != s.hand[j].kind.By())
  }

  lemma ThreadsFinish(cfg: Config, s: System, index: nat)
    requires ThreadsOk(s) && index < |s.hand|
    ensures ThreadsOk(Apply(cfg, s, Finish(index)))
  {
    hide AfterReport, Kills, Without;
    var s' := Apply(cfg, s, Finish(index));
    HandShrinks(cfg, s, index);
    assert s'.dead <= s.dead + {s.hand[index].kind.By()};
    forall j | 0 <= j < |s'.hand| ensures s'.hand[j] == s.hand[if j < index then j else j + 1] {
      WithoutAt(s.hand, index, j);
    }
  }

  lemma ThreadsKept(cfg: Config, s: System, step: Step)
    requires ThreadsOk(s) && Enabled(s, step)
    ensures ThreadsOk(Apply(cfg, s, step))
  {
    hide Decide, AfterArrival, AfterReport, AfterAging;
    if step.Finish? {
      ThreadsFinish(cfg, s, step.index);
    }
  }

  /** A thread holds one exchange at a time, and a dead one holds none. */
  lemma {:induction false} ThreadsHold(cfg: Config, steps: seq<Step>)
    requires Possible(cfg, steps)
    ensures ThreadsOk(Run(cfg, steps))
    decreases |steps|
  {
    hide Apply, ThreadsOk;
    if steps != [] {
      var prefix := steps[..|steps| - 1];
      ThreadsHold(cfg, prefix);
      ThreadsKept(cfg, Run(cfg, prefix), steps[|steps| - 1]);
    } else {
      assert ThreadsOk(Initial()) by { NoThreadYet(); }
    }
  }

  lemma NoThreadYet()
    ensures ThreadsOk(Initial())
  {
  }

  // ---- what keeps a request open ----

  /** Nothing at the address of this unreported request blocks it. */
  predicate Open(s: System, r: Request) {
    && r in s.accepted && Reports(s, r) == 0
    && LostSpots(s, r.addr) == {} && !HeldSpoilt(s, r.addr) && !Behind(Queue(s.sched.cache, r.addr), r)
    && (s.panicked ==> r !in Queue(s.sched.cache, r.addr))
  }

  /** The thread is free to take the next exchange. */
  predicate Free(s: System, t: Thread) {
    Ready(s, t) && !s.stopped
  }

  lemma FinishQueue(cfg: Config, s: System, index: nat)
    requires index < |s.hand| && !Kills(s, s.hand[index])
    ensures var s', addr := Apply(cfg, s, Finish(index)), s.hand[index].req.addr;
            && s'.accepted == s.accepted && s'.panicked == s.panicked && s'.stopped == s.stopped && s'.dead == s.dead
            && s'.hand == Without(s.hand, index)
            && (forall a :: a != addr ==> Queue(s'.sched.cache, a) == Queue(s.sched.cache, a))
            && (Reportable(s.hand[index].kind) ==>
                  && s'.lost == s.lost
                  && var queue := Queue(s.sched.cache, addr);
                     Queue(s'.sched.cache, addr) == if queue == [] then [] else queue[1..])
            && (!Reportable(s.hand[index].kind) ==> s'.lost == s.lost + [s.hand[index].req] && s'.sched == s.sched)
  {
    hide Request.Sendable;
  }

  lemma BehindTail(queue: seq<Request>, r: Request)
    requires queue != [] && Behind(queue[1..], r)
    ensures Behind(queue, r)
  {
    var i, j :| 0 <= i <= j < |queue[1..]| && !queue[1..][i].Sendable() && queue[1..][j] == r;
    assert !queue[i + 1].Sendable() && queue[j + 1] == r;
  }

  lemma SpoiltLess(s: System, s': System, index: nat, addr: Addr)
    requires index < |s.hand| && s'.hand == Without(s.hand, index) && HeldSpoilt(s', addr)
    ensures HeldSpoilt(s, addr)
  {
    var j :| 0 <= j < |s'.hand| && s'.hand[j].req.addr == addr && !Reportable(s'.hand[j].kind);
    WithoutAt(s.hand, index, j);
  }

  lemma LostElsewhere(s: System, s': System, r: Request, addr: Addr)
    requires LostSpots(s, addr) == {} && (s'.lost == s.lost || (s'.lost == s.lost + [r] && r.addr != addr))
    ensures LostSpots(s', addr) == {}
  {
    forall spot ensures spot !in LostSpots(s', addr) {
      if spot.LostAt? && spot.i < |s.lost| {
        assert spot !in LostSpots(s, addr);
      }
    }
  }

  /** The end of another exchange, by a thread that survives it, keeps a request open and
      leaves the thread free. */
  lemma FinishKeepsOpen(cfg: Config, s: System, index: nat, r: Request)
    requires index < |s.hand| && !Kills(s, s.hand[index]) && s.hand[index].req != r && Open(s, r)
    ensures Open(Apply(cfg, s, Finish(index)), r)
  {
    hide Apply, Kills, HeldSpoilt, Behind, Reports, LostSpots, Queue;
    var s', h := Apply(cfg, s, Finish(index)), s.hand[index];
    FinishQueue(cfg, s, index);
    ReportedBy(cfg, s, Finish(index), r);
    if HeldSpoilt(s', r.addr) {
      SpoiltLess(s, s', index, r.addr);
    }
    if !Reportable(h.kind) {
      SpoiltAt(s, index);
    }
    LostElsewhere(s, s', h.req, r.addr);
    var queue := Queue(s.sched.cache, r.addr);
    if h.req.addr == r.addr && queue != [] && Behind(queue[1..], r) {
      BehindTail(queue, r);
    }
  }

  lemma SpoiltAt(s: System, index: nat)
    requires index < |s.hand| && !Reportable(s.hand[index].kind)
    ensures HeldSpoilt(s, s.hand[index].req.addr)
  {
  }

  lemma FinishFrees(cfg: Config, s: System, index: nat, t: Thread)
    requires ThreadsOk(s) && index < |s.hand| && !Kills(s, s.hand[index]) && !s.stopped
    requires s.hand[index].kind.By() == t || Free(s, t)
    ensures Free(Apply(cfg, s, Finish(index)), t)
  {
    hide Apply, Kills, Without;
    FinishQueue(cfg, s, index);
    var s' := Apply(cfg, s, Finish(index));
    forall j | 0 <= j < |s'.hand| ensures s'.hand[j] == s.hand[if j < index then j else j + 1] {
      WithoutAt(s.hand, index, j);
    }
  }

  // ---- an exchange brought into a thread's hand ----

  function TakenBy(t: Thread): Kind {
    if t.Timer? then Timeout else Reply
  }

  /** Only the exchange has moved. */
  predicate SameAround(s: System, s': System) {
    && s'.sched.cache == s.sched.cache && s'.accepted == s.accepted && s'.reports == s.reports
    && s'.panicked == s.panicked && s'.stopped == s.stopped && s'.dead == s.dead
  }

  lemma WriteHead(s: System, ok: bool, addr: Addr)
    requires PlacesOk(s) && s.sched.channel != [] && addr in s.flight && s.flight[addr].place == InChannel
    ensures var s', o := ConcurrentWritten(s, ok), s.sched.channel[0];
            && SameAround(s, s') && s'.hand == s.hand && s'.sched.channel == s.sched.channel[1..]
            && addr in s'.flight && s'.flight[addr].req == s.flight[addr].req
            && (o.req.addr != addr ==> s'.flight[addr].place == InChannel)
            && (o.req.addr == addr && ok ==> s'.flight[addr].place == InTable(o.Seq()))
  {
    HeadInFlight(s);
  }

  lemma ChannelNotEmpty(s: System, addr: Addr)
    requires PlacesOk(s) && addr in s.flight && s.flight[addr].place == InChannel
    ensures s.sched.channel != []
  {
    assert s.flight[addr].req in ChannelReqs(s.sched.channel);
  }

  /** The frame of this address is written; those before it are not. */
  lemma {:induction false} BringToTable(cfg: Config, steps: seq<Step>, addr: Addr) returns (steps': seq<Step>)
    requires Possible(cfg, steps) && !Run(cfg, steps).stopped
    requires addr in Run(cfg, steps).flight && Run(cfg, steps).flight[addr].place == InChannel
    ensures Possible(cfg, steps') && steps <= steps' && NoSweep(steps', |steps|)
    ensures var s, s' := Run(cfg, steps), Run(cfg, steps');
            && SameAround(s, s') && s'.hand == s.hand
            && addr in s'.flight && s'.flight[addr].req == s.flight[addr].req && s'.flight[addr].place.InTable?
    decreases |Run(cfg, steps).sched.channel|
  {
    hide PlacesOk, LedgerOk, Conserved, NumberedOk, QueueOk, FlagsOk, ConcurrentWritten, Possible, Run;
    InvHolds(cfg, steps);
    var s := Run(cfg, steps);
    ChannelNotEmpty(s, addr);
    var ok := s.sched.channel[0].req.addr == addr;
    WriteHead(s, ok, addr);
    steps' := Extend(cfg, steps, ConcurrentWrite(ok));
    if !ok {
      steps' := BringToTable(cfg, steps', addr);
    }
  }

  lemma TakeRow(cfg: Config, s: System, addr: Addr, t: Thread)
    requires PlacesOk(s) && Free(s, t) && addr in s.flight && s.flight[addr].place.InTable?
    ensures var step := TakeStep(s, addr, t);
            && Enabled(s, step)
            && var s' := Apply(cfg, s, step);
               && SameAround(s, s') && s'.hand == s.hand + [Held(s.flight[addr].req, TakenBy(t))]
               && addr in s'.flight && s'.flight[addr] == Flight(s.flight[addr].req, InHand)
               && s'.sched == s.sched && s'.lost == s.lost
  {
  }

  function TakeStep(s: System, addr: Addr, t: Thread): Step
    requires addr in s.flight && s.flight[addr].place.InTable?
  {
    var num := s.flight[addr].place.num;
    if t.Timer? then TimerFires(num) else Receive(false, num, true)
  }

  lemma {:induction false} Bring(cfg: Config, steps: seq<Step>, addr: Addr, t: Thread) returns (steps': seq<Step>)
    requires Possible(cfg, steps) && Free(Run(cfg, steps), t) && addr in Run(cfg, steps).flight
    requires var place := Run(cfg, steps).flight[addr].place; place.InChannel? || place.InTable?
    ensures Possible(cfg, steps') && steps <= steps' && NoSweep(steps', |steps|)
    ensures var s, s' := Run(cfg, steps), Run(cfg, steps');
            && SameAround(s, s') && s'.hand == s.hand + [Held(s.flight[addr].req, TakenBy(t))]
  {
    hide PlacesOk, LedgerOk, Conserved, NumberedOk, QueueOk, FlagsOk, Possible, Run, TakeStep, Apply;
    steps' := steps;
    if Run(cfg, steps).flight[addr].place.InChannel? {
      steps' := BringToTable(cfg, steps, addr);
    }
    InvHolds(cfg, steps');
    var s := Run(cfg, steps');
    assert !TakeStep(s, addr, t).Sweep? by { TakeNotSweep(s, addr, t); }
    TakeRow(cfg, s, addr, t);
    steps' := Extend(cfg, steps', TakeStep(s, addr, t));
  }

  lemma TakeNotSweep(s: System, addr: Addr, t: Thread)
    requires addr in s.flight && s.flight[addr].place.InTable?
    ensures !TakeStep(s, addr, t).Sweep?
  {
  }

  /** With its exchange in a hand that can report it, an address has lost nothing and holds
      nothing spoilt. */
  lemma BroughtIsOpen(s: System, s': System, r: Request, f: Request, kind: Kind)
    requires PlacesOk(s') && Open(s, r) && SameAround(s, s') && s'.hand == s.hand + [Held(f, kind)]
    requires f.addr == r.addr && Reportable(kind)
    ensures Open(s', r)
  {
    hide PlacesOk, Behind;
    assert s'.hand[|s.hand|] == Held(f, kind);
    HandIsOnly(s', |s.hand|);
  }

  // ---- a request led to its report ----

  function Position(queue: seq<Request>, r: Request): (n: nat)
    ensures n <= |queue|
    ensures r in queue ==> n < |queue| && queue[n] == r
  {
    if queue == [] || queue[0] == r then 0 else 1 + Position(queue[1..], r)
  }

  lemma HeadSendable(queue: seq<Request>, r: Request)
    requires r in queue && !Behind(queue, r)
    ensures queue[0].Sendable() && r.Sendable()
  {
    var j :| 0 <= j < |queue| && queue[j] == r;
    assert queue[0].Sendable();
  }

  /** An open request is in a hand, on its way to one, or queued. */
  lemma {:induction false} OpenIsSomewhere(cfg: Config, steps: seq<Step>, r: Request)
    requires Possible(cfg, steps) && Open(Run(cfg, steps), r)
    ensures var s := Run(cfg, steps);
            || r in Queue(s.sched.cache, r.addr)
            || (r.addr in s.flight && s.flight[r.addr].req == r && !s.flight[r.addr].place.Lost?)
  {
    hide Behind, HeldSpoilt;
    InvHolds(cfg, steps);
    ExactlyOncePlace(cfg, steps, r);
    var s := Run(cfg, steps);
    if r.addr in s.flight && s.flight[r.addr].place.Lost? {
      LostIsSpot(s, r.addr);
    }
    if r !in Queue(s.sched.cache, r.addr) {
      assert Queued(s, r) == 0;
      assert |Outstanding(s, r)| == 1;
      var spot :| spot in Outstanding(s, r);
      SpotsHold(s, r.addr, spot);
      HolderIsFlight(s, r.addr, spot);
    }
  }

  lemma LostIsSpot(s: System, addr: Addr)
    requires PlacesOk(s) && addr in s.flight && s.flight[addr].place.Lost?
    ensures LostSpots(s, addr) != {}
  {
    var i :| 0 <= i < |s.lost| && s.lost[i] == s.flight[addr].req;
    assert LostAt(i) in LostSpots(s, addr);
  }

  /** How many exchanges of its address must end before that of `r` begins. */
  function Ahead(s: System, r: Request): nat {
    var queue := Queue(s.sched.cache, r.addr);
    if r in queue then 1 + Position(queue, r) else 0
  }

  lemma AheadLess(queue: seq<Request>, r: Request)
    requires r in queue && queue[0] != r
    ensures r in queue[1..] && Position(queue[1..], r) < Position(queue, r)
  {
  }

  lemma {:induction false} Freed(cfg: Config, steps: seq<Step>, r: Request, t: Thread) returns (steps': seq<Step>)
    requires Possible(cfg, steps) && Open(Run(cfg, steps), r) && !IsHeld(Run(cfg, steps), r)
        && !Spent(Run(cfg, steps), t)
    ensures Possible(cfg, steps') && steps <= steps' && NoSweep(steps', |steps|)
    ensures Open(Run(cfg, steps'), r) && Free(Run(cfg, steps'), t)
  {
    hide Apply, Kills, Open, Possible, Run;
    var s := Run(cfg, steps);
    steps' := steps;
    if !Ready(s, t) {
      ThreadsHold(cfg, steps);
      var i :| 0 <= i < |s.hand| && s.hand[i].kind.By() == t;
      FinishKeepsOpen(cfg, s, i, r);
      FinishFrees(cfg, s, i, t);
      steps' := Extend(cfg, steps, Finish(i));
    }
  }

  lemma SameFrame(r: Request, id: nat)
    requires r.Sendable()
    ensures Request(id, r.addr, r.payload).Sendable()
  {
  }

  /** Another message for the idle address of a queued request goes out at once. */
  lemma Woken(cfg: Config, s: System, r: Request)
    requires Open(s, r) && r in Queue(s.sched.cache, r.addr) && r.addr !in s.flight && FlagsOk(s)
    ensures !s.panicked && Enabled(s, Arrive(r.addr, r.payload, false, 0))
    ensures var s' := Apply(cfg, s, Arrive(r.addr, r.payload, false, 0));
            && Open(s', r) && r.addr in s'.flight && s'.hand == s.hand && s'.dead == s.dead && s'.stopped == s.stopped
            && Queue(s'.sched.cache, r.addr) == Queue(s.sched.cache, r.addr)
  {
    hide Request.Sendable, Behind, ActiveAddrs, HeldSpoilt, LostSpots;
    HeadSendable(Queue(s.sched.cache, r.addr), r);
    SameFrame(r, s.arrivals);
    var s' := Apply(cfg, s, Arrive(r.addr, r.payload, false, 0));
    assert Decide(cfg, s.sched.cache, Request(s.arrivals, r.addr, r.payload), false) == Launch;
    SameHeld(s, s', r.addr);
  }

  lemma SameHeld(s: System, s': System, addr: Addr)
    requires s'.hand == s.hand && s'.lost == s.lost
    ensures HeldSpoilt(s', addr) == HeldSpoilt(s, addr) && LostSpots(s', addr) == LostSpots(s, addr)
  {
  }

  /** The exchange of an open request's address comes into a hand that can report it. */
  lemma {:induction false} Begun(cfg: Config, steps: seq<Step>, r: Request, t: Thread)
    returns (steps': seq<Step>, i: nat)
    requires Possible(cfg, steps) && Open(Run(cfg, steps), r) && Free(Run(cfg, steps), t)
    requires r.addr in Run(cfg, steps).flight
    ensures Possible(cfg, steps') && steps <= steps' && NoSweep(steps', |steps|)
    ensures var s, s' := Run(cfg, steps), Run(cfg, steps');
            && Open(s', r) && i < |s'.hand| && s'.hand[i].req == s.flight[r.addr].req && Reportable(s'.hand[i].kind)
            && s'.sched.cache == s.sched.cache && !s'.stopped && (s'.hand[i].kind.By() == t || Free(s', t))
  {
    hide LedgerOk, Conserved, NumberedOk, QueueOk, FlagsOk, Possible, Run, Behind;
    InvHolds(cfg, steps);
    var s := Run(cfg, steps);
    var f := s.flight[r.addr].req;
    steps' := steps;
    if s.flight[r.addr].place.Lost? {
      LostIsSpot(s, r.addr);
    } else if s.flight[r.addr].place.InHand? {
      assert f in HandReqs(s.hand);
      i :| 0 <= i < |s.hand| && HandReqs(s.hand)[i] == f;
      assert s.hand[i].req == f;
    } else {
      steps' := Bring(cfg, steps, r.addr, t);
      InvHolds(cfg, steps');
      BroughtIsOpen(s, Run(cfg, steps'), r, f, TakenBy(t));
      i := |s.hand|;
    }
  }

  lemma {:induction false} Lead(cfg: Config, steps: seq<Step>, r: Request, t: Thread) returns (steps': seq<Step>)
    requires Possible(cfg, steps) && Open(Run(cfg, steps), r) && Free(Run(cfg, steps), t)
    ensures Possible(cfg, steps') && steps <= steps' && NoSweep(steps', |steps|) && Reports(Run(cfg, steps'), r) == 1
    decreases Ahead(Run(cfg, steps), r), if r.addr in Run(cfg, steps).flight then 0 else 1
  {
    hide Apply, Possible, Run, PlacesOk, LedgerOk, Conserved, NumberedOk, QueueOk, FlagsOk, Behind, HeldSpoilt,
        LostSpots, Reports, Request.Sendable, Position;
    InvHolds(cfg, steps);
    OpenIsSomewhere(cfg, steps, r);
    var s := Run(cfg, steps);
    if r.addr !in s.flight {
      Woken(cfg, s, r);
      var mid := Extend(cfg, steps, Arrive(r.addr, r.payload, false, 0));
      steps' := Lead(cfg, mid, r, t);
    } else {
      var mid, i := Begun(cfg, steps, r, t);
      var m := Run(cfg, mid);
      ReportedBy(cfg, m, Finish(i), r);
      var next := Extend(cfg, mid, Finish(i));
      if m.hand[i].req == r {
        steps' := next;
      } else {
        var queue := Queue(m.sched.cache, r.addr);
        HeadSendable(queue, r);
        assert m.hand[i].req.addr == r.addr by { FlightAddr(s, r.addr); }
        ThreadsHold(cfg, mid);
        FinishKeepsOpen(cfg, m, i, r);
        FinishFrees(cfg, m, i, t);
        FinishQueue(cfg, m, i);
        if queue[0] != r {
          AheadLess(queue, r);
        } else {
          HeadOnce(cfg, mid, r);
        }
        steps' := Lead(cfg, next, r, t);
      }
    }
  }

  lemma FlightAddr(s: System, addr: Addr)
    requires PlacesOk(s) && addr in s.flight
    ensures s.flight[addr].req.addr == addr
  {
  }

  /** No request is queued twice. */
  lemma {:induction false} HeadOnce(cfg: Config, steps: seq<Step>, r: Request)
    requires Possible(cfg, steps)
    requires var queue := Queue(Run(cfg, steps).sched.cache, r.addr); queue != [] && queue[0] == r
    ensures r !in Queue(Run(cfg, steps).sched.cache, r.addr)[1..]
  {
    ExactlyOncePlace(cfg, steps, r);
    var queue := Queue(Run(cfg, steps).sched.cache, r.addr);
    assert queue == [r] + queue[1..];
    assert multiset(queue)[r] == 1 + multiset(queue[1..])[r];
  }

  // ---- exactly when a request can be reported ----

  ghost predicate CanBeReported(cfg: Config, steps: seq<Step>, r: Request) {
    exists steps' :: Possible(cfg, steps') && steps <= steps' && Reports(Run(cfg, steps'), r) == 1
  }

  /** A request that is not blocked is led to its report, if need be as the last thing its
      thread does. */
  lemma {:induction false} LedToReport(cfg: Config, steps: seq<Step>, r: Request) returns (steps': seq<Step>)
    requires Possible(cfg, steps) && r in Run(cfg, steps).accepted && !Blocked(Run(cfg, steps), r)
    ensures Possible(cfg, steps') && steps <= steps' && NoSweep(steps', |steps|) && Reports(Run(cfg, steps'), r) == 1
  {
    hide Apply, Possible, Run, Behind, HeldSpoilt, LostSpots, Reports, Spent, Free;
    var s := Run(cfg, steps);
    ExactlyOncePlace(cfg, steps, r);
    steps' := steps;
    if Reports(s, r) == 0 {
      if IsHeld(s, r) {
        var i :| 0 <= i < |s.hand| && s.hand[i].req == r;
        if !Reportable(s.hand[i].kind) {
          SpoiltAt(s, i);
        }
        ReportedBy(cfg, s, Finish(i), r);
        steps' := Extend(cfg, steps, Finish(i));
      } else {
        var t := if Spent(s, Reader) then Timer else Reader;
        var mid := Freed(cfg, steps, r, t);
        steps' := Lead(cfg, mid, r, t);
      }
    }
  }

  /** In every reachable state, an accepted request can still be reported exactly when it is
      not blocked. */
  lemma {:induction false} ReportedIffNotBlocked(cfg: Config, steps: seq<Step>, r: Request)
    requires Possible(cfg, steps) && r in Run(cfg, steps).accepted
    ensures CanBeReported(cfg, steps, r) <==> !Blocked(Run(cfg, steps), r)
  {
    hide Run, Possible;
    if Blocked(Run(cfg, steps), r) {
      forall steps' | Possible(cfg, steps') && steps <= steps' ensures Reports(Run(cfg, steps'), r) == 0 {
        BlockedForever(cfg, steps, steps', r);
      }
    } else {
      var steps' := LedToReport(cfg, steps, r);
    }
  }

  // ---- all clear addresses at once ----

  /** Nothing at the address was lost or is to be, and none of its messages cannot be sent. */
  predicate Unspoilt(s: System, addr: Addr) {
    && LostSpots(s, addr) == {} && !HeldSpoilt(s, addr)
    && forall i :: 0 <= i < |Queue(s.sched.cache, addr)| ==> Queue(s.sched.cache, addr)[i].Sendable()
  }

  /** Also, nothing at the address waits for a sweep. */
  predicate Clear(s: System, addr: Addr) {
    Unspoilt(s, addr) && !Sweepable(s.sched.cache, addr)
  }

  /** From `n` on, exchanges only go on: frames are written, taken and ended. */
  predicate OnlyExchanges(steps: seq<Step>, n: nat) {
    forall i :: n <= i < |steps| ==>
      steps[i] == ConcurrentWrite(true) || steps[i].Receive? || steps[i].TimerFires? || steps[i].Finish?
  }

  /** A later state with nothing more accepted, no panic, and what was clear still clear. */
  ghost predicate Onward(s: System, s': System) {
    s'.accepted == s.accepted && !s'.panicked && forall a :: Clear(s, a) ==> Clear(s', a)
  }

  lemma OnwardSame(s: System)
    requires !s.panicked
    ensures Onward(s, s)
  {
  }

  lemma OnwardTwice(s: System, s': System, s'': System)
    requires Onward(s, s') && Onward(s', s'')
    ensures Onward(s, s'')
  {
    hide Clear;
  }

  lemma FinishSweepable(cfg: Config, s: System, index: nat, addr: Addr)
    requires index < |s.hand| && !Kills(s, s.hand[index]) && !Sweepable(s.sched.cache, addr)
    ensures !Sweepable(Apply(cfg, s, Finish(index)).sched.cache, addr)
  {
    hide Request.Sendable;
  }

  lemma FinishClear(cfg: Config, s: System, index: nat, addr: Addr)
    requires index < |s.hand| && !Kills(s, s.hand[index]) && Clear(s, addr)
    ensures Clear(Apply(cfg, s, Finish(index)), addr)
  {
    hide Apply, Kills, Reportable, HeldSpoilt, LostSpots, Sweepable, Queue, Request.Sendable;
    var s', h := Apply(cfg, s, Finish(index)), s.hand[index];
    FinishQueue(cfg, s, index);
    FinishSweepable(cfg, s, index, addr);
    if HeldSpoilt(s', addr) {
      SpoiltLess(s, s', index, addr);
    }
    if !Reportable(h.kind) {
      SpoiltAt(s, index);
    }
    LostElsewhere(s, s', h.req, addr);
  }

  lemma FinishOnward(cfg: Config, s: System, index: nat)
    requires index < |s.hand| && !Kills(s, s.hand[index]) && !s.panicked
    ensures Onward(s, Apply(cfg, s, Finish(index)))
  {
    hide Apply, Kills, Clear;
    FinishQueue(cfg, s, index);
    forall a | Clear(s, a) ensures Clear(Apply(cfg, s, Finish(index)), a) {
      FinishClear(cfg, s, index, a);
    }
  }

  lemma SpoiltNoMore(s: System, s': System, h: Held, addr: Addr)
    requires s'.hand == s.hand + [h] && Reportable(h.kind) && HeldSpoilt(s', addr)
    ensures HeldSpoilt(s, addr)
  {
    var i :| 0 <= i < |s'.hand| && s'.hand[i].req.addr == addr && !Reportable(s'.hand[i].kind);
    assert s'.hand[i] == s.hand[i];
  }

  lemma TakeOnward(s: System, s': System, h: Held)
    requires SameAround(s, s') && s'.lost == s.lost && s'.hand == s.hand + [h] && Reportable(h.kind) && !s.panicked
    ensures Onward(s, s')
  {
    hide Sweepable, Request.Sendable, Queue, Reportable, HeldSpoilt;
    forall a | Clear(s, a) ensures Clear(s', a) {
      if HeldSpoilt(s', a) {
        SpoiltNoMore(s, s', h, a);
      }
      LostElsewhere(s, s', h.req, a);
    }
  }

  /** Every entry of the table is one whose end would be fatal to the thread that takes it. */
  predicate AllFatal(s: System) {
    forall n :: n in s.uart.table ==> HeadPanics(s.sched.cache, s.uart.table[n].req.addr)
  }

  lemma WriteOnward(cfg: Config, s: System)
    requires Enabled(s, ConcurrentWrite(true)) && AllFatal(s) && !s.panicked
    ensures var s' := Apply(cfg, s, ConcurrentWrite(true));
            && Onward(s, s') && SameAround(s, s') && s'.hand == s.hand && s'.sched.channel == s.sched.channel[1..]
  {
    hide Sweepable, Request.Sendable, LostSpots, HeldSpoilt;
    var s' := Apply(cfg, s, ConcurrentWrite(true));
    var num := s.sched.channel[0].Seq();
    forall a | Clear(s, a) ensures Clear(s', a) {
      SameSpoilt(s, s', a);
      if num in s.uart.table {
        assert HeadPanics(s.sched.cache, s.uart.table[num].req.addr);
        LostElsewhere(s, s', s.uart.table[num].req, a);
      } else {
        LostElsewhere(s, s', s.sched.channel[0].req, a);
      }
    }
  }

  lemma SameSpoilt(s: System, s': System, addr: Addr)
    requires s'.hand == s.hand
    ensures HeldSpoilt(s', addr) == HeldSpoilt(s, addr)
  {
  }

  /** Nothing is left that can be done without loss. */
  predicate AtRest(s: System) {
    && s.sched.channel == [] && AllFatal(s)
    && forall i :: 0 <= i < |s.hand| ==> !Reportable(s.hand[i].kind) || Kills(s, s.hand[i])
  }

  lemma FinishReports(cfg: Config, s: System, index: nat)
    requires index < |s.hand| && Reportable(s.hand[index].kind)
    ensures |Apply(cfg, s, Finish(index)).reports| == |s.reports| + 1
  {
    hide AfterReport, Request.Sendable;
  }

  /** One exchange in a hand ends. */
  lemma {:induction false} Ended(cfg: Config, steps: seq<Step>, index: nat, t: Thread) returns (steps': seq<Step>)
    requires Possible(cfg, steps) && index < |Run(cfg, steps).hand|
    requires !Kills(Run(cfg, steps), Run(cfg, steps).hand[index])
    requires !Run(cfg, steps).panicked && !Run(cfg, steps).stopped
    requires Run(cfg, steps).hand[index].kind.By() == t || Free(Run(cfg, steps), t)
    ensures Possible(cfg, steps') && steps' == steps + [Finish(index)]
    ensures Onward(Run(cfg, steps), Run(cfg, steps')) && Free(Run(cfg, steps'), t)
    ensures Reportable(Run(cfg, steps).hand[index].kind) ==> |Run(cfg, steps').reports| == |Run(cfg, steps).reports| + 1
  {
    hide Apply, Kills, Reportable, Onward, Free, Possible, Run;
    var s := Run(cfg, steps);
    ThreadsHold(cfg, steps);
    FinishOnward(cfg, s, index);
    FinishFrees(cfg, s, index, t);
    if Reportable(s.hand[index].kind) {
      FinishReports(cfg, s, index);
    }
    steps' := Extend(cfg, steps, Finish(index));
  }

  /** The entry of a table row is taken and its exchange ends. */
  lemma {:induction false} RowEnded(cfg: Config, steps: seq<Step>, num: SeqNum, t: Thread) returns (steps': seq<Step>)
    requires Possible(cfg, steps) && Free(Run(cfg, steps), t) && !Run(cfg, steps).panicked
    requires num in Run(cfg, steps).uart.table
    requires !HeadPanics(Run(cfg, steps).sched.cache, Run(cfg, steps).uart.table[num].req.addr)
    ensures Possible(cfg, steps') && steps <= steps' && OnlyExchanges(steps', |steps|)
    ensures Onward(Run(cfg, steps), Run(cfg, steps')) && Free(Run(cfg, steps'), t)
    ensures |Run(cfg, steps').reports| == |Run(cfg, steps).reports| + 1
  {
    hide Onward, Possible, Run, HeadPanics, Apply, LedgerOk, Conserved, NumberedOk, QueueOk, FlagsOk;
    InvHolds(cfg, steps);
    var s := Run(cfg, steps);
    var addr := s.uart.table[num].req.addr;
    RowInFlight(s, num);
    TakeRow(cfg, s, addr, t);
    var mid := Extend(cfg, steps, TakeStep(s, addr, t));
    TakeOnward(s, Run(cfg, mid), Held(s.uart.table[num].req, TakenBy(t)));
    steps' := Ended(cfg, mid, |s.hand|, t);
    OnwardTwice(s, Run(cfg, mid), Run(cfg, steps'));
  }

  lemma RowInFlight(s: System, num: SeqNum)
    requires PlacesOk(s) && num in s.uart.table
    ensures var r := s.uart.table[num].req; r.addr in s.flight && s.flight[r.addr] == Flight(r, InTable(num))
  {
  }

  lemma {:induction false} ReachRest(cfg: Config, steps: seq<Step>, t: Thread) returns (steps': seq<Step>)
    requires Possible(cfg, steps) && !Run(cfg, steps).panicked && Free(Run(cfg, steps), t)
    ensures Possible(cfg, steps') && steps <= steps' && OnlyExchanges(steps', |steps|)
    ensures Onward(Run(cfg, steps), Run(cfg, steps')) && AtRest(Run(cfg, steps'))
    decreases |Run(cfg, steps).accepted| - |Run(cfg, steps).reports|, |Run(cfg, steps).sched.channel|
  {
    hide Apply, Clear, HeadPanics, Kills, Ready, Possible, Run;
    LogsBounded(cfg, steps);
    var s := Run(cfg, steps);
    steps' := steps;
    if AtRest(s) {
      OnwardSame(s);
    } else {
      var mid;
      if i: nat :| i < |s.hand| && Reportable(s.hand[i].kind) && !Kills(s, s.hand[i]) {
        mid := Ended(cfg, steps, i, t);
      } else if !AllFatal(s) {
        var num :| num in s.uart.table && !HeadPanics(s.sched.cache, s.uart.table[num].req.addr);
        mid := RowEnded(cfg, steps, num, t);
      } else {
        WriteOnward(cfg, s);
        mid := Extend(cfg, steps, ConcurrentWrite(true));
        assert Free(Run(cfg, mid), t) by { SameFree(s, Run(cfg, mid), t); }
      }
      LogsBounded(cfg, mid);
      steps' := ReachRest(cfg, mid, t);
      OnwardTwice(s, Run(cfg, mid), Run(cfg, steps'));
    }
  }

  lemma SameFree(s: System, s': System, t: Thread)
    requires SameAround(s, s') && s'.hand == s.hand && Free(s, t)
    ensures Free(s', t)
  {
  }

  /** At rest, every accepted request of a clear address is reported. */
  lemma {:induction false} RestMeansReported(cfg: Config, steps: seq<Step>, r: Request)
    requires Possible(cfg, steps) && AtRest(Run(cfg, steps)) && !Run(cfg, steps).panicked
    requires r in Run(cfg, steps).accepted && Clear(Run(cfg, steps), r.addr)
    ensures Reports(Run(cfg, steps), r) == 1
  {
    hide Request.Sendable, Run, Possible, LedgerOk, Conserved, NumberedOk, QueueOk, PlacesOk, LostSpots, HeldSpoilt,
        Outstanding, Reports;
    var s := Run(cfg, steps);
    InvHolds(cfg, steps);
    ExactlyOncePlace(cfg, steps, r);
    if r.addr in s.flight {
      InFlightAtRest(s, r.addr);
    } else {
      NoneOutstanding(s, r);
    }
  }

  lemma InFlightAtRest(s: System, addr: Addr)
    requires PlacesOk(s) && AtRest(s) && !s.panicked && addr in s.flight
    ensures !Clear(s, addr)
  {
    hide Request.Sendable;
    match s.flight[addr].place
    case InChannel => ChannelNotEmpty(s, addr);
    case InTable(n) => assert HeadPanics(s.sched.cache, s.uart.table[n].req.addr);
    case Lost => LostIsSpot(s, addr);
    case InHand =>
      assert s.flight[addr].req in HandReqs(s.hand);
      var i :| 0 <= i < |s.hand| && HandReqs(s.hand)[i] == s.flight[addr].req;
      assert s.hand[i].req.addr == addr;
      if !Reportable(s.hand[i].kind) {
        SpoiltAt(s, i);
      }
  }

  lemma NoneOutstanding(s: System, r: Request)
    requires PlacesOk(s) && r.addr !in s.flight
    ensures Outstanding(s, r) == {}
  {
    OutstandingCount(s, r);
  }

  /** From every reachable state without a panic in which some thread is not spent, exchanges
      alone, with nothing more accepted, lead to a state without a panic in which every
      accepted request of every clear address is reported exactly once. */
  lemma {:induction false} CanComplete(cfg: Config, steps: seq<Step>, t: Thread) returns (steps': seq<Step>)
    requires Possible(cfg, steps) && !Run(cfg, steps).panicked && !Spent(Run(cfg, steps), t)
    ensures Possible(cfg, steps') && steps <= steps' && OnlyExchanges(steps', |steps|)
    ensures var s, s' := Run(cfg, steps), Run(cfg, steps');
            && s'.accepted == s.accepted && !s'.panicked
            && forall r :: r in s.accepted && Clear(s, r.addr) ==> Reports(s', r) == 1
  {
    hide Clear, AtRest, Possible, Run, Kills, Free, Reports;
    var s, mid := Run(cfg, steps), steps;
    if !Ready(s, t) {
      var i :| 0 <= i < |s.hand| && s.hand[i].kind.By() == t;
      mid := Ended(cfg, steps, i, t);
    } else {
      OnwardSame(s);
      assert Free(s, t) by { ReadyIsFree(s, t); }
    }
    steps' := ReachRest(cfg, mid, t);
    OnwardTwice(s, Run(cfg, mid), Run(cfg, steps'));
    forall r | r in s.accepted && Clear(s, r.addr) ensures Reports(Run(cfg, steps'), r) == 1 {
      RestMeansReported(cfg, steps', r);
    }
  }

  lemma ReadyIsFree(s: System, t: Thread)
    requires Ready(s, t) && !s.stopped
    ensures Free(s, t)
  {
  }

  // ---- the sweep ----

  lemma SweepKeeps(cfg: Config, s: System, swept: Addr, addr: Addr)
    requires !s.panicked && !SweepPanics(s.sched.cache, swept)
    ensures var s' := Apply(cfg, s, Sweep(swept));
            && s'.accepted == s.accepted && !s'.panicked && s'.hand == s.hand && s'.lost == s.lost
            && s'.dead == s.dead && s'.stopped == s.stopped
            && (Sweepable(s'.sched.cache, addr) ==> Sweepable(s.sched.cache, addr) && addr != swept)
            && (SweepPanics(s'.sched.cache, addr) ==> SweepPanics(s.sched.cache, addr))
  {
    hide Request.Sendable;
  }

  lemma SweepClear(cfg: Config, s: System, swept: Addr, addr: Addr)
    requires !s.panicked && !SweepPanics(s.sched.cache, swept) && Unspoilt(s, addr)
    ensures Unspoilt(Apply(cfg, s, Sweep(swept)), addr)
  {
    hide Apply, Request.Sendable, LostSpots, HeldSpoilt, Sweepable, SweepPanics, Queue;
    var s' := Apply(cfg, s, Sweep(swept));
    SweepKeeps(cfg, s, swept, addr);
    SameHeld(s, s', addr);
    QueueSweeps(cfg, s, swept, addr);
    var queue, queue' := Queue(s.sched.cache, addr), Queue(s'.sched.cache, addr);
    forall i | 0 <= i < |queue'| ensures queue'[i].Sendable() {
      assert queue'[i] == if queue' == queue then queue[i] else queue[i + 1];
    }
  }

  /** A whole sweep that meets no message that cannot be sent starts every idle address: what
      only waited for it is clear then, and no thread is spent by it. */
  lemma {:induction false} SweepClears(cfg: Config, steps: seq<Step>, order: seq<Addr>) returns (steps': seq<Step>)
    requires Possible(cfg, steps) && !Run(cfg, steps).panicked
    requires forall a :: !SweepPanics(Run(cfg, steps).sched.cache, a)
    ensures Possible(cfg, steps') && |steps'| == |steps| + |order| && steps <= steps'
    ensures forall i :: 0 <= i < |order| ==> steps'[|steps| + i] == Sweep(order[i])
    ensures var s, s' := Run(cfg, steps), Run(cfg, steps');
            && (s'.sched, true) == SweepAll(s.sched, order)
            && s'.accepted == s.accepted && !s'.panicked && s'.hand == s.hand && s'.dead == s.dead
            && (forall a :: Unspoilt(s, a) ==> Unspoilt(s', a))
            && (forall a :: a in order || !Sweepable(s.sched.cache, a) ==> !Sweepable(s'.sched.cache, a))
            && (forall a :: !SweepPanics(s'.sched.cache, a))
    decreases |order|
  {
    hide Apply, Sweepable, SweepPanics, Unspoilt, SweepOne, Possible, Run;
    steps' := steps;
    if order != [] {
      var last := order[|order| - 1];
      var mid := SweepClears(cfg, steps, order[..|order| - 1]);
      var m := Run(cfg, mid);
      assert Swept(m, last).sched == SweepOne(m.sched, last) by { SweepIsOne(cfg, m, last); }
      SweepApplied(cfg, m, last);
      forall a { SweepKeeps(cfg, m, last, a); }
      forall a | Unspoilt(m, a) { SweepClear(cfg, m, last, a); }
      steps' := Extend(cfg, mid, Sweep(last));
    }
  }

  lemma SweepApplied(cfg: Config, s: System, addr: Addr)
    requires !s.panicked
    ensures Apply(cfg, s, Sweep(addr)) == Swept(s, addr)
  {
  }

  // ---- how the threads end ----

  lemma ReceivedChanges(s: System, isReport: bool, num: SeqNum, decodes: bool)
    ensures Received(s, isReport, num, decodes).dead == s.dead
  {
  }

  lemma TakenChanges(s: System, num: SeqNum, kind: Kind)
    requires num in s.uart.table
    ensures TakenFromTable(s, num, kind).dead == s.dead
  {
  }

  lemma WrittenChanges(s: System, ok: bool)
    requires s.sched.channel != []
    ensures ConcurrentWritten(s, ok).dead == s.dead
  {
  }

  /** A thread ends by a step exactly if it is the reader at a frame it does not survive, the
      timer thread at an entry that is not there or at the aging after a panic, or either with
      the report after which it meets the poisoned lock or poisons it. */
  lemma EndsExactly(cfg: Config, s: System, step: Step, t: Thread)
    requires Enabled(s, step)
    ensures t in Apply(cfg, s, step).dead <==>
            || t in s.dead
            || (step.ReaderEnds? && t == Reader) || (step.TimerMisses? && t == Timer)
            || (step.Age? && s.panicked && t == Timer)
            || (step.Finish?
                && var h := s.hand[step.index];
                   && ((h.kind == Timeout && t == Timer) || (h.kind == Reply && t == Reader))
                   && (s.panicked || HeadPanics(s.sched.cache, h.req.addr)))
  {
    hide Arrived, Relaunched, AfterAging, HeadPanics, Sweepable, Ready, Received, TakenFromTable, ConcurrentWritten;
    match step
    case Arrive(addr, payload, metering, now) => ArrivalChanges(cfg, s, addr, payload, metering, now);
    case Finish(index) => RelaunchChanges(Handed(s, index), s.hand[index].req.addr);
    case Sweep(addr) => RelaunchChanges(s, addr);
    case Receive(isReport, num, decodes) => ReceivedChanges(s, isReport, num, decodes);
    case TimerFires(num) => TakenChanges(s, num, Timeout);
    case ConcurrentWrite(ok) => WrittenChanges(s, ok);
    case _ =>
  }
}
