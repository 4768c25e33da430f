/** What keeps a request from its report, and that it is final. */
module Completion {
  import opened Wrappers
  import opened Metering
  import opened UartMatching
  import opened MeterSystem
  import opened MeterInvariant
  import opened ExactlyOnce
  import opened MeterOrder

  // ---- blocked for ever ----

  /** The reader holds an exchange of this address with no reply that decodes. */
  predicate HeldSpoilt(s: System, addr: Addr) {
    exists i :: 0 <= i < |s.hand| && s.hand[i].req.addr == addr && !Reportable(s.hand[i].kind)
  }

  /** A request that cannot be sent is in the queue before `r`, or is `r`. */
  predicate Behind(queue: seq<Request>, r: Request) {
    exists i, j :: 0 <= i <= j < |queue| && !queue[i].Sendable() && queue[j] == r
  }

  /** The thread never takes another exchange: it is gone, or ends with the one it holds, or
      cannot take the matcher's lock. */
  predicate Spent(s: System, t: Thread) {
    s.stopped || t in s.dead || exists i :: 0 <= i < |s.hand| && s.hand[i].kind.By() == t && Kills(s, s.hand[i])
  }

  predicate IsHeld(s: System, r: Request) {
    exists i :: 0 <= i < |s.hand| && s.hand[i].req == r
  }

  /** No thread holds `r` and none will ever take it. */
  predicate Unattended(s: System, r: Request) {
    !IsHeld(s, r) && Spent(s, Reader) && Spent(s, Timer)
  }

  predicate Blocked(s: System, r: Request) {
    && Reports(s, r) == 0
    && (|| LostSpots(s, r.addr) != {} || HeldSpoilt(s, r.addr) || Behind(Queue(s.sched.cache, r.addr), r)
        || (s.panicked && r in Queue(s.sched.cache, r.addr)) || Unattended(s, r))
  }

  lemma LostSpotsStay(s: System, s': System, addr: Addr)
    requires LostSpots(s, addr) != {} && s.lost <= s'.lost
    ensures LostSpots(s', addr) != {}
  {
    var spot :| spot in LostSpots(s, addr);
    assert spot in LostSpots(s', addr);
  }

  /** An address that lost its request waits in every continuation, with none in progress. */
  lemma {:induction false} StuckForever(cfg: Config, steps: seq<Step>, steps': seq<Step>, addr: Addr)
    requires Possible(cfg, steps') && steps <= steps'
    requires Possible(cfg, steps) && LostSpots(Run(cfg, steps), addr) != {}
    ensures var s' := Run(cfg, steps');
            LostSpots(s', addr) != {} && LiveSpots(s', addr) == {} && (!s'.panicked ==> Waiting(s'.sched.cache, addr))
  {
    LostForever(cfg, steps, steps');
    LostSpotsStay(Run(cfg, steps), Run(cfg, steps'), addr);
    WaitingMeansOneOutstanding(cfg, steps', addr);
  }

  lemma {:induction false} LostForever(cfg: Config, steps: seq<Step>, steps': seq<Step>)
    requires Possible(cfg, steps) && Possible(cfg, steps') && steps <= steps'
    ensures Run(cfg, steps).lost <= Run(cfg, steps').lost
    decreases |steps'|
  {
    hide Apply, Loses;
    if steps != steps' {
      var prefix := steps'[..|steps'| - 1];
      LostForever(cfg, steps, prefix);
      LostGrows(cfg, Run(cfg, prefix), steps'[|steps'| - 1]);
    }
  }

  /** A queue grows at its end or loses its head, which is then sent or lost. */
  lemma QueueMoves(cfg: Config, s: System, step: Step, addr: Addr)
    requires Enabled(s, step)
    ensures var queue, s' := Queue(s.sched.cache, addr), Apply(cfg, s, step);
            var queue' := Queue(s'.sched.cache, addr);
            || queue <= queue'
            || (queue != [] && queue' == queue[1..] && (queue[0].Sendable() || s'.lost == s.lost + [queue[0]]))
  {
    hide Request.Sendable, Apply;
    match step
    case Arrive(a, payload, metering, now) =>
      QueueArrives(cfg, s, a, payload, metering, now, addr);
    case Finish(index) =>
      QueueFinishes(cfg, s, index, addr);
    case Sweep(a) =>
      QueueSweeps(cfg, s, a, addr);
    case _ =>
      QuietStep(cfg, s, step, addr);
  }

  lemma QueueArrives(cfg: Config, s: System, a: Addr, payload: Payload, metering: bool, now: int, addr: Addr)
    requires !s.panicked
    ensures Queue(s.sched.cache, addr)
         <= Queue(Apply(cfg, s, Arrive(a, payload, metering, now)).sched.cache, addr)
  {
    ArrivedLogs(cfg, s, Request(s.arrivals, a, payload), metering, now);
  }

  lemma QueueFinishes(cfg: Config, s: System, index: nat, addr: Addr)
    requires index < |s.hand|
    ensures var queue, s' := Queue(s.sched.cache, addr), Apply(cfg, s, Finish(index));
            var queue' := Queue(s'.sched.cache, addr);
            queue' == queue || (queue != [] && queue' == queue[1..]
                && (queue[0].Sendable() || s'.lost == s.lost + [queue[0]]))
  {
    hide Request.Sendable;
  }

  lemma QueueSweeps(cfg: Config, s: System, a: Addr, addr: Addr)
    requires !s.panicked
    ensures var queue, s' := Queue(s.sched.cache, addr), Apply(cfg, s, Sweep(a));
            var queue' := Queue(s'.sched.cache, addr);
            queue' == queue || (queue != [] && queue' == queue[1..]
                && (queue[0].Sendable() || s'.lost == s.lost + [queue[0]]))
  {
    hide Request.Sendable;
  }

  lemma QueueIsOf(cfg: Config, cache: Cache, addr: Addr, r: Request)
    requires QueueOk(cfg, cache) && r in Queue(cache, addr)
    ensures r.addr == addr
  {
  }

  /** After a panic nothing leaves a queue. */
  lemma PanicFreezes(cfg: Config, s: System, step: Step)
    requires Enabled(s, step) && s.panicked
    ensures Apply(cfg, s, step).panicked && Apply(cfg, s, step).sched.cache == s.sched.cache
  {
    hide Route, Reportable, Kills, AfterAging, Arrived, Swept;
  }

  lemma ArrivalGrows(cfg: Config, s: Scheduler, r: Request, metering: bool, now: int)
    ensures s.channel <= AfterArrival(cfg, s, r, metering, now).channel
  {
    hide Decide;
  }

  lemma ReportGrows(s: Scheduler, addr: Addr)
    ensures s.channel <= AfterReport(s, addr).channel
  {
    hide Request.Sendable;
  }

  lemma SchedulerGrows(cfg: Config, s: System, step: Step)
    requires Enabled(s, step) && LocksScheduler(step)
    ensures var s' := Apply(cfg, s, step);
            s'.stopped == s.stopped && |s'.hand| <= |s.hand| && s.sched.channel <= s'.sched.channel
  {
    hide Arrived, Relaunched, AfterAging, AfterReport, AfterArrival, Sweepable, Kills, Reportable, Ready;
    match step
    case Arrive(addr, payload, metering, now) =>
      ArrivalChanges(cfg, s, addr, payload, metering, now);
      ArrivalGrows(cfg, s.sched, Request(s.arrivals, addr, payload), metering, now);
    case Finish(index) =>
      RelaunchChanges(Handed(s, index), s.hand[index].req.addr);
      ReportGrows(s.sched, s.hand[index].req.addr);
    case Sweep(addr) =>
      RelaunchChanges(s, addr);
      ReportGrows(s.sched, addr);
    case _ =>
  }

  /** After a panic under the matcher's lock nothing is written, received or taken any more. */
  lemma {:induction false} StoppedFreezes(cfg: Config, s: System, step: Step)
    requires Enabled(s, step) && s.stopped
    ensures var s' := Apply(cfg, s, step);
            && s'.stopped && s'.uart == s.uart && s'.awaiting == s.awaiting && |s'.hand| <= |s.hand|
            && s'.written == s.written && s'.resolved == s.resolved
            && s.sched.channel <= s'.sched.channel && s.inbox <= s'.inbox
  {
    hide Arrived, Finished, Swept, Aged;
    if LocksScheduler(step) {
      hide Apply, Ready;
      SchedulerOnly(cfg, s, step);
      SchedulerGrows(cfg, s, step);
    }
  }

  lemma BehindStays(cfg: Config, s: System, step: Step, r: Request)
    requires Enabled(s, step) && QueueOk(cfg, s.sched.cache) && Behind(Queue(s.sched.cache, r.addr), r)
    ensures var s' := Apply(cfg, s, step); LostSpots(s', r.addr) != {} || Behind(Queue(s'.sched.cache, r.addr), r)
  {
    hide Apply, Queue, Request.Sendable;
    QueueMoves(cfg, s, step, r.addr);
    var queue, s' := Queue(s.sched.cache, r.addr), Apply(cfg, s, step);
    var queue' := Queue(s'.sched.cache, r.addr);
    var i, j :| 0 <= i <= j < |queue| && !queue[i].Sendable() && queue[j] == r;
    if queue <= queue' {
      assert queue'[i] == queue[i] && queue'[j] == queue[j];
    } else if i > 0 {
      assert queue'[i - 1] == queue[i] && queue'[j - 1] == queue[j];
    } else {
      QueueIsOf(cfg, s.sched.cache, r.addr, queue[0]);
      assert s'.lost[|s.lost|] == queue[0];
      assert LostAt(|s.lost|) in LostSpots(s', r.addr);
    }
  }

  lemma HeldSpoiltStays(cfg: Config, s: System, step: Step, addr: Addr)
    requires Enabled(s, step) && HeldSpoilt(s, addr)
    ensures var s' := Apply(cfg, s, step); HeldSpoilt(s', addr) || LostSpots(s', addr) != {}
  {
    var s' := Apply(cfg, s, step);
    var i :| 0 <= i < |s.hand| && s.hand[i].req.addr == addr && !Reportable(s.hand[i].kind);
    if !step.Finish? {
      HandGrows(cfg, s, step);
      assert s'.hand[i] == s.hand[i];
    } else if step.index == i {
      assert s'.lost[|s.lost|] == s.hand[i].req;
      assert LostAt(|s.lost|) in LostSpots(s', addr);
    } else {
      HandShrinks(cfg, s, step.index);
      assert s'.hand[if i < step.index then i else i - 1] == s.hand[i];
    }
  }

  lemma HandGrows(cfg: Config, s: System, step: Step)
    requires Enabled(s, step) && !step.Finish?
    ensures s.hand <= Apply(cfg, s, step).hand
  {
    hide Decide, AfterArrival, AfterReport, AfterAging;
  }

  lemma HandShrinks(cfg: Config, s: System, index: nat)
    requires index < |s.hand|
    ensures Apply(cfg, s, Finish(index)).hand == Without(s.hand, index)
  {
    hide AfterReport;
  }

  predicate Concludes(s: System, step: Step)
    requires Enabled(s, step)
  {
    step.Finish? && Reportable(s.hand[step.index].kind)
  }

  lemma ReportsAfter(cfg: Config, s: System, step: Step)
    requires Enabled(s, step)
    ensures ReportReqs(Apply(cfg, s, step).reports) ==
            ReportReqs(s.reports) + if Concludes(s, step) then [s.hand[step.index].req] else []
  {
    hide Decide, AfterArrival, AfterReport, AfterAging, Request.Sendable, Route;
    if Concludes(s, step) {
      var h := s.hand[step.index];
      ReportReqsAppend(s.reports, Reported(h.req, if h.kind == Timeout then TimedOut else Answered));
    } else {
      assert ReportReqs(s.reports) + [] == ReportReqs(s.reports);
    }
  }

  /** Only the end of a request's own exchange reports it. */
  lemma ReportedBy(cfg: Config, s: System, step: Step, r: Request)
    requires Enabled(s, step)
    ensures Reports(Apply(cfg, s, step), r) ==
            Reports(s, r) + if Concludes(s, step) && s.hand[step.index].req == r then 1 else 0
  {
    hide Apply, ReportReqs, Concludes, Enabled;
    ReportsAfter(cfg, s, step);
  }

  /** What is in a hand is nowhere else. */
  lemma HandIsOnly(s: System, index: nat)
    requires PlacesOk(s) && index < |s.hand|
    ensures LostSpots(s, s.hand[index].req.addr) == {}
    ensures forall i :: 0 <= i < |s.hand| && s.hand[i].req.addr == s.hand[index].req.addr ==> i == index
    ensures HandAt(index) in Outstanding(s, s.hand[index].req)
  {
    var addr, spot := s.hand[index].req.addr, HandAt(index);
    assert Holds(s, spot, addr);
    SpotsHold(s, addr, spot);
    forall other | Holds(s, other, addr) ensures other == spot {
      OneHolder(s, addr, spot, other);
    }
    forall lost ensures lost !in LostSpots(s, addr) {
      SpotsHold(s, addr, lost);
    }
    forall i | 0 <= i < |s.hand| && s.hand[i].req.addr == addr ensures i == index {
      assert Holds(s, HandAt(i), addr);
    }
  }

  lemma BehindIsQueued(queue: seq<Request>, r: Request)
    requires Behind(queue, r) || r in queue
    ensures multiset(queue)[r] > 0
  {
  }

  /** The request of a blocked address that is in a handler's hand is not reported. */
  lemma {:induction false} NotFinished(cfg: Config, steps: seq<Step>, index: nat, r: Request)
    requires Possible(cfg, steps) && Blocked(Run(cfg, steps), r)
    requires index < |Run(cfg, steps).hand| && Run(cfg, steps).hand[index].req == r && r in Run(cfg, steps).accepted
    ensures !Reportable(Run(cfg, steps).hand[index].kind)
  {
    hide PlacesOk, LedgerOk, Conserved, NumberedOk, QueueOk, FlagsOk, Outstanding, Run, Possible, Behind, LostSpots;
    InvHolds(cfg, steps);
    ExactlyOncePlace(cfg, steps, r);
    var s := Run(cfg, steps);
    HandIsOnly(s, index);
    assert |Outstanding(s, r)| > 0;
    if Behind(Queue(s.sched.cache, r.addr), r) || r in Queue(s.sched.cache, r.addr) {
      BehindIsQueued(Queue(s.sched.cache, r.addr), r);
    }
  }

  lemma StoppedStays(cfg: Config, s: System, step: Step)
    requires Enabled(s, step)
    ensures var s' := Apply(cfg, s, step); s.dead <= s'.dead && (s.stopped ==> s'.stopped)
  {
    hide Decide, AfterArrival, AfterReport, AfterAging, Route, Request.Sendable;
  }

  /** As long as a request is in a hand, its address's queue only grows. */
  lemma QueueOfHeld(cfg: Config, s: System, step: Step, index: nat)
    requires Enabled(s, step) && PlacesOk(s) && FlagsOk(s) && index < |s.hand| && !s.panicked
    requires step.Finish? ==> step.index != index
    ensures var addr := s.hand[index].req.addr;
            Queue(s.sched.cache, addr) <= Queue(Apply(cfg, s, step).sched.cache, addr)
  {
    hide Apply, Request.Sendable, Queue;
    HandInFlight(s, index);
    var addr := s.hand[index].req.addr;
    match step
    case Arrive(a, payload, metering, now) => QueueArrives(cfg, s, a, payload, metering, now, addr);
    case Finish(other) => HandIsOnly(s, index); QueueOfOther(cfg, s, other, addr);
    case Sweep(a) => QueueNotSwept(cfg, s, a, addr);
    case _ => QuietStep(cfg, s, step, addr);
  }

  lemma QueueOfOther(cfg: Config, s: System, index: nat, addr: Addr)
    requires index < |s.hand| && s.hand[index].req.addr != addr
    ensures Queue(Apply(cfg, s, Finish(index)).sched.cache, addr) == Queue(s.sched.cache, addr)
  {
    hide Request.Sendable;
  }

  lemma QueueNotSwept(cfg: Config, s: System, a: Addr, addr: Addr)
    requires !s.panicked && Waiting(s.sched.cache, addr)
    ensures Queue(Apply(cfg, s, Sweep(a)).sched.cache, addr) == Queue(s.sched.cache, addr)
  {
    hide Request.Sendable;
  }

  lemma SpentStays(cfg: Config, s: System, step: Step, t: Thread)
    requires Enabled(s, step) && PlacesOk(s) && FlagsOk(s) && Spent(s, t)
    ensures Spent(Apply(cfg, s, step), t)
  {
    hide Apply, Request.Sendable, PlacesOk, Queue, FlagsOk;
    var s' := Apply(cfg, s, step);
    StoppedStays(cfg, s, step);
    LostGrows(cfg, s, step);
    if !s.stopped && t !in s.dead {
      var i :| 0 <= i < |s.hand| && s.hand[i].kind.By() == t && Kills(s, s.hand[i]);
      if step.Finish? && step.index == i {
        KilledIsDead(cfg, s, i);
      } else {
        if !s.panicked {
          QueueOfHeld(cfg, s, step, i);
        }
        var j := HandStays(cfg, s, step, i);
        assert Kills(s', s'.hand[j]);
      }
    }
  }

  lemma KilledIsDead(cfg: Config, s: System, index: nat)
    requires index < |s.hand| && Kills(s, s.hand[index])
    ensures s.hand[index].kind.By() in Apply(cfg, s, Finish(index)).dead
  {
    hide AfterReport, Request.Sendable;
  }

  lemma HandStays(cfg: Config, s: System, step: Step, i: nat) returns (j: nat)
    requires Enabled(s, step) && i < |s.hand| && (step.Finish? ==> step.index != i)
    ensures j < |Apply(cfg, s, step).hand| && Apply(cfg, s, step).hand[j] == s.hand[i]
  {
    hide Apply;
    if step.Finish? {
      HandShrinks(cfg, s, step.index);
      j := if i < step.index then i else i - 1;
    } else {
      HandGrows(cfg, s, step);
      j := i;
    }
  }

  /** Only a ready thread takes an exchange. */
  lemma HandSame(cfg: Config, s: System, step: Step)
    requires Enabled(s, step) && !step.Finish?
    requires !(step.Receive? && Ready(s, Reader) && !s.stopped) && !(step.TimerFires? && Ready(s, Timer) && !s.stopped)
    ensures Apply(cfg, s, step).hand == s.hand
  {
    hide Decide, AfterArrival, AfterReport, AfterAging;
  }

  lemma UnattendedStays(cfg: Config, s: System, step: Step, r: Request)
    requires Enabled(s, step) && PlacesOk(s) && FlagsOk(s) && Unattended(s, r)
    ensures Unattended(Apply(cfg, s, step), r)
  {
    hide Apply, Kills, PlacesOk, FlagsOk;
    SpentStays(cfg, s, step, Reader);
    SpentStays(cfg, s, step, Timer);
    if step.Finish? {
      HandShrinks(cfg, s, step.index);
    } else {
      HandSame(cfg, s, step);
    }
  }

  lemma {:induction false} BlockedStays(cfg: Config, steps: seq<Step>, step: Step, r: Request)
    requires Possible(cfg, steps) && Enabled(Run(cfg, steps), step)
    requires r in Run(cfg, steps).accepted && Blocked(Run(cfg, steps), r)
    ensures Blocked(Apply(cfg, Run(cfg, steps), step), r)
  {
    hide Apply, Possible, Run, Loses, Behind;
    var s := Run(cfg, steps);
    var s' := Apply(cfg, s, step);
    ReportedBy(cfg, s, step, r);
    if step.Finish? && s.hand[step.index].req == r {
      NotFinished(cfg, steps, step.index, r);
    }
    LostGrows(cfg, s, step);
    if LostSpots(s, r.addr) != {} {
      LostSpotsStay(s, s', r.addr);
    } else if HeldSpoilt(s, r.addr) {
      HeldSpoiltStays(cfg, s, step, r.addr);
    } else if Behind(Queue(s.sched.cache, r.addr), r) {
      InvHolds(cfg, steps);
      BehindStays(cfg, s, step, r);
    } else if s.panicked && r in Queue(s.sched.cache, r.addr) {
      PanicFreezes(cfg, s, step);
    } else {
      InvHolds(cfg, steps);
      UnattendedStays(cfg, s, step, r);
    }
  }

  lemma AcceptedGrows(cfg: Config, s: System, step: Step)
    requires Enabled(s, step)
    ensures s.accepted <= Apply(cfg, s, step).accepted
  {
    hide Decide, AfterArrival, AfterReport, AfterAging;
  }

  lemma {:induction false} BlockedForever(cfg: Config, steps: seq<Step>, steps': seq<Step>, r: Request)
    requires Possible(cfg, steps) && Possible(cfg, steps') && steps <= steps'
    requires r in Run(cfg, steps).accepted && Blocked(Run(cfg, steps), r)
    ensures r in Run(cfg, steps').accepted && Blocked(Run(cfg, steps'), r)
    decreases |steps'|
  {
    hide Apply, Blocked;
    if steps != steps' {
      var prefix, step := steps'[..|steps'| - 1], steps'[|steps'| - 1];
      BlockedForever(cfg, steps, prefix, r);
      BlockedStays(cfg, prefix, step, r);
      AcceptedGrows(cfg, Run(cfg, prefix), step);
    }
  }

  lemma {:induction false} LogsBounded(cfg: Config, steps: seq<Step>)
    requires Possible(cfg, steps)
    ensures |Run(cfg, steps).reports| <= |Run(cfg, steps).accepted|
    ensures |Run(cfg, steps).dispatched| <= |Run(cfg, steps).accepted|
  {
    InvHolds(cfg, steps);
    var s := Run(cfg, steps);
    var reported, dispatched, accepted := multiset(ReportReqs(s.reports)), multiset(s.dispatched), multiset(s.accepted);
    forall r ensures reported[r] <= accepted[r] && dispatched[r] <= accepted[r] {
      ExactlyOncePlace(cfg, steps, r);
      assert ConservedAt(s.accepted, s.dispatched, s.sched.cache, r.addr);
      OfCount(s.accepted, r);
      OfCount(s.dispatched, r);
    }
    assert accepted == reported + (accepted - reported) && accepted == dispatched + (accepted - dispatched);
  }
}
