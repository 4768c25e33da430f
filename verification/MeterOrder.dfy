/** Per-address order, the queue bound and the address limit. */
module MeterOrder {
  import opened Wrappers
  import opened Metering
  import opened UartMatching
  import opened MeterSystem
  import opened MeterInvariant

  /** The requests accepted for an address are those dispatched, then those queued, in order. */
  ghost predicate InOrder(s: System, addr: Addr) {
    Of(s.accepted, addr) == Of(s.dispatched, addr) + Queue(s.sched.cache, addr)
  }

  ghost predicate AllInOrder(s: System) {
    forall a :: InOrder(s, a)
  }

  /** A message that is sent at once although older ones of its address are queued. */
  predicate Overtakes(cfg: Config, s: System, step: Step) {
    step.Arrive? && Decide(cfg, s.sched.cache, Request(s.arrivals, step.addr, step.payload), step.metering) == Launch
    && Queue(s.sched.cache, step.addr) != []
  }

  lemma {:induction false} OfIn(reqs: seq<Request>, addr: Addr, r: Request)
    ensures r in Of(reqs, addr) ==> r in reqs
  {
    if reqs != [] {
      OfIn(reqs[..|reqs| - 1], addr, r);
    }
  }

  /** A new element put before a sequence is in its place only if the sequence is empty. */
  lemma InsertedBefore(older: seq<Request>, queue: seq<Request>, r: Request)
    requires r !in older + queue
    ensures older + queue + [r] == older + [r] + queue <==> queue == []
  {
    if queue != [] {
      assert (older + queue)[|older|] == queue[0];
      assert (older + queue + [r])[|older|] == queue[0];
      assert (older + [r] + queue)[|older|] == r;
    } else {
      assert older + queue + [r] == older + [r] + queue;
    }
  }

  lemma {:induction false} LaunchOrder(accepted: seq<Request>, dispatched: seq<Request>, queue: seq<Request>,
      r: Request)
    requires Of(accepted, r.addr) == Of(dispatched, r.addr) + queue && r !in accepted
    ensures Of(accepted + [r], r.addr) == Of(dispatched + [r], r.addr) + queue <==> queue == []
  {
    var older := Of(dispatched, r.addr);
    OfAppend(accepted, r, r.addr);
    OfAppend(dispatched, r, r.addr);
    OfIn(accepted, r.addr, r);
    InsertedBefore(older, queue, r);
  }

  lemma ParkOrder(accepted: seq<Request>, dispatched: seq<Request>, queue: seq<Request>, r: Request)
    requires Of(accepted, r.addr) == Of(dispatched, r.addr) + queue
    ensures Of(accepted + [r], r.addr) == Of(dispatched, r.addr) + (queue + [r])
  {
    OfAppend(accepted, r, r.addr);
  }

  lemma OtherOrder(reqs: seq<Request>, r: Request, addr: Addr)
    requires r.addr != addr
    ensures Of(reqs + [r], addr) == Of(reqs, addr)
  {
    OfAppend(reqs, r, addr);
  }

  lemma HeadMoved(accepted: seq<Request>, dispatched: seq<Request>, queue: seq<Request>, addr: Addr)
    requires queue != [] && queue[0].addr == addr && Of(accepted, addr) == Of(dispatched, addr) + queue
    ensures Of(accepted, addr) == Of(dispatched + [queue[0]], addr) + queue[1..]
  {
    OfAppend(dispatched, queue[0], addr);
    HeadAfter(Of(dispatched, addr), queue);
  }

  lemma HeadAfter(older: seq<Request>, queue: seq<Request>)
    requires queue != []
    ensures older + queue == older + [queue[0]] + queue[1..]
  {
  }

  /** What an arrival does to the logs and the queues. */
  lemma ArrivedLogs(cfg: Config, s: System, r: Request, metering: bool, now: int)
    requires r.id == s.arrivals
    ensures var s' := Arrived(cfg, s, r.addr, r.payload, metering, now);
            var d := Decide(cfg, s.sched.cache, r, metering);
            && s'.accepted == s.accepted + (if d == Launch || d == Park then [r] else [])
            && s'.dispatched == s.dispatched + (if d == Launch then [r] else [])
            && Queue(s'.sched.cache, r.addr) == Queue(s.sched.cache, r.addr) + (if d == Park then [r] else [])
            && forall a :: a != r.addr ==> Queue(s'.sched.cache, a) == Queue(s.sched.cache, a)
  {
    hide Decide;
  }

  lemma OrderArrive(cfg: Config, s: System, step: Step, addr: Addr)
    requires InOrder(s, addr) && step.Arrive? && NumberedOk(s.accepted, s.arrivals)
    ensures InOrder(Arrived(cfg, s, step.addr, step.payload, step.metering, step.now), addr) <==>
            !(Overtakes(cfg, s, step) && step.addr == addr)
  {
    hide Arrived, Decide;
    var r := Request(s.arrivals, step.addr, step.payload);
    var queue := Queue(s.sched.cache, addr);
    var d := Decide(cfg, s.sched.cache, r, step.metering);
    ArrivedLogs(cfg, s, r, step.metering, step.now);
    assert s.accepted + [] == s.accepted && s.dispatched + [] == s.dispatched && queue + [] == queue;
    if step.addr != addr {
      OtherOrder(s.accepted, r, addr);
      OtherOrder(s.dispatched, r, addr);
    } else if d == Launch {
      LaunchOrder(s.accepted, s.dispatched, queue, r);
    } else if d == Park {
      ParkOrder(s.accepted, s.dispatched, queue, r);
    }
  }

  /** What a relaunch does to the logs and the queues. */
  lemma RelaunchedLogs(s: System, relaunched: Addr)
    ensures var s', queue := Relaunched(s, relaunched), Queue(s.sched.cache, relaunched);
            && s'.accepted == s.accepted
            && s'.dispatched == s.dispatched + (if queue == [] then [] else [queue[0]])
            && Queue(s'.sched.cache, relaunched) == (if queue == [] then [] else queue[1..])
            && forall a :: a != relaunched ==> Queue(s'.sched.cache, a) == Queue(s.sched.cache, a)
  {
    hide Request.Sendable;
  }

  lemma OrderRelaunch(cfg: Config, s: System, relaunched: Addr, addr: Addr)
    requires InOrder(s, addr) && QueueOk(cfg, s.sched.cache)
    ensures InOrder(Relaunched(s, relaunched), addr)
  {
    hide Relaunched;
    var queue := Queue(s.sched.cache, relaunched);
    RelaunchedLogs(s, relaunched);
    if queue != [] {
      if addr == relaunched {
        HeadMoved(s.accepted, s.dispatched, queue, addr);
      } else {
        OtherOrder(s.dispatched, queue[0], addr);
      }
    } else {
      assert s.dispatched + [] == s.dispatched;
    }
  }

  lemma {:induction false} OrderFinish(cfg: Config, s: System, index: nat, addr: Addr)
    requires InOrder(s, addr) && QueueOk(cfg, s.sched.cache) && index < |s.hand|
    ensures InOrder(Finished(s, index), addr)
  {
    hide Relaunched;
    var h := s.hand[index];
    if Reportable(h.kind) {
      OrderRelaunch(cfg, Handed(s, index), h.req.addr, addr);
    }
  }

  /** The other steps touch neither log and no queue. */
  lemma QuietStep(cfg: Config, s: System, step: Step, addr: Addr)
    requires Enabled(s, step) && !step.Arrive? && !step.Finish? && !step.Sweep?
    ensures var s' := Apply(cfg, s, step);
            && s'.accepted == s.accepted && s'.dispatched == s.dispatched
            && Queue(s'.sched.cache, addr) == Queue(s.sched.cache, addr)
  {
    hide Route, AfterRoute, Queue, AfterAging;
    if step.Age? {
      AgingKeepsQueues(cfg, s.sched.cache, step.now, addr);
    }
  }

  lemma AgingKeepsQueues(cfg: Config, cache: Cache, now: int, addr: Addr)
    ensures Queue(AfterAging(cfg, cache, now), addr) == Queue(cache, addr)
  {
  }

  lemma OrderSame(s: System, s': System, addr: Addr)
    requires InOrder(s, addr) && s'.accepted == s.accepted && s'.dispatched == s.dispatched
    requires Queue(s'.sched.cache, addr) == Queue(s.sched.cache, addr)
    ensures InOrder(s', addr)
  {
  }

  lemma OrderSweep(cfg: Config, s: System, swept: Addr, addr: Addr)
    requires InOrder(s, addr) && QueueOk(cfg, s.sched.cache)
    ensures InOrder(Swept(s, swept), addr)
  {
    OrderRelaunch(cfg, s, swept, addr);
  }

  lemma {:induction false} OrderAt(cfg: Config, s: System, step: Step, addr: Addr)
    requires InOrder(s, addr) && NumberedOk(s.accepted, s.arrivals) && QueueOk(cfg, s.sched.cache) && Enabled(s, step)
    ensures InOrder(Apply(cfg, s, step), addr) <==> !(Overtakes(cfg, s, step) && step.addr == addr)
  {
    if step.Arrive? {
      OrderArrive(cfg, s, step, addr);
    } else if step.Finish? {
      OrderFinish(cfg, s, step.index, addr);
    } else if step.Sweep? {
      OrderSweep(cfg, s, step.addr, addr);
    } else {
      QuietStep(cfg, s, step, addr);
      OrderSame(s, Apply(cfg, s, step), addr);
    }
  }

  /** A step keeps the order of all addresses exactly when it does not overtake. */
  lemma OrderKept(cfg: Config, s: System, step: Step)
    requires AllInOrder(s) && NumberedOk(s.accepted, s.arrivals) && QueueOk(cfg, s.sched.cache) && Enabled(s, step)
    ensures AllInOrder(Apply(cfg, s, step)) <==> !Overtakes(cfg, s, step)
  {
    forall a ensures InOrder(Apply(cfg, s, step), a) <==> !(Overtakes(cfg, s, step) && step.addr == a) {
      assert InOrder(s, a);
      OrderAt(cfg, s, step, a);
    }
    if Overtakes(cfg, s, step) {
      assert !InOrder(Apply(cfg, s, step), step.addr);
    }
  }

  predicate NeverOvertakes(cfg: Config, steps: seq<Step>)
    requires Possible(cfg, steps)
    decreases |steps|
  {
    steps == [] ||
    (NeverOvertakes(cfg, steps[..|steps| - 1]) && !Overtakes(cfg, Run(cfg, steps[..|steps| - 1]), steps[|steps| - 1]))
  }

  lemma {:induction false} OrderHolds(cfg: Config, steps: seq<Step>)
    requires Possible(cfg, steps) && NeverOvertakes(cfg, steps)
    ensures AllInOrder(Run(cfg, steps))
    decreases |steps|
  {
    if steps == [] {
      forall a ensures InOrder(Run(cfg, steps), a) {
      }
    } else {
      var prefix := steps[..|steps| - 1];
      OrderHolds(cfg, prefix);
      InvHolds(cfg, prefix);
      OrderKept(cfg, Run(cfg, prefix), steps[|steps| - 1]);
    }
  }

  /** First in, first out for each address, up to the report: what was accepted is what was
      reported, then the request in flight, then the queue. */
  lemma {:induction false} FirstInFirstReported(cfg: Config, steps: seq<Step>, addr: Addr)
    requires Possible(cfg, steps) && NeverOvertakes(cfg, steps)
    ensures var s := Run(cfg, steps);
            Of(s.accepted, addr) ==
            Of(ReportReqs(s.reports), addr) + Current(s.flight, addr) + Queue(s.sched.cache, addr)
  {
    OrderHolds(cfg, steps);
    InvHolds(cfg, steps);
    var s := Run(cfg, steps);
    assert InOrder(s, addr);
    assert LedgerAt(s.dispatched, s.reports, s.flight, addr);
  }

  // ---- when nothing overtakes ----

  ghost predicate IdleMeansEmpty(cache: Cache) {
    forall a :: a in cache && !cache[a].waiting ==> cache[a].queue == []
  }

  predicate NoMeteringArrival(steps: seq<Step>) {
    forall i :: 0 <= i < |steps| ==> steps[i].Arrive? ==> !steps[i].metering
  }

  lemma IdleArrival(cfg: Config, s: Scheduler, r: Request, now: int)
    requires IdleMeansEmpty(s.cache)
    ensures IdleMeansEmpty(AfterArrival(cfg, s, r, false, now).cache)
    ensures Decide(cfg, s.cache, r, false) == Launch ==> Queue(s.cache, r.addr) == []
  {
    hide Request.Sendable, ActiveAddrs;
  }

  lemma IdleReport(s: Scheduler, addr: Addr)
    requires IdleMeansEmpty(s.cache)
    ensures IdleMeansEmpty(AfterReport(s, addr).cache)
  {
  }

  lemma IdleKept(cfg: Config, s: System, step: Step)
    requires IdleMeansEmpty(s.sched.cache) && Enabled(s, step) && (step.Arrive? ==> !step.metering)
    ensures IdleMeansEmpty(Apply(cfg, s, step).sched.cache) && !Overtakes(cfg, s, step)
  {
    hide Request.Sendable, Decide, AfterArrival, AfterReport, Route, IdleMeansEmpty;
    match step
    case Arrive(addr, payload, metering, now) => IdleArrival(cfg, s.sched, Request(s.arrivals, addr, payload), now);
    case Finish(index) => IdleReport(s.sched, s.hand[index].req.addr);
    case Sweep(addr) => IdleReport(s.sched, addr);
    case Age(now) => IdleAging(cfg, s.sched.cache, now);
    case _ =>
  }

  lemma IdleAging(cfg: Config, cache: Cache, now: int)
    requires IdleMeansEmpty(cache)
    ensures IdleMeansEmpty(AfterAging(cfg, cache, now))
  {
  }

  /** The dispatch thread sets and clears the metering flag inside one message, so no
      arrival sees it set; then nothing overtakes. */
  lemma {:induction false} MeteringOffNeverOvertakes(cfg: Config, steps: seq<Step>)
    requires Possible(cfg, steps) && NoMeteringArrival(steps)
    ensures NeverOvertakes(cfg, steps) && IdleMeansEmpty(Run(cfg, steps).sched.cache)
    decreases |steps|
  {
    if steps != [] {
      var prefix := steps[..|steps| - 1];
      assert forall i :: 0 <= i < |prefix| ==> prefix[i] == steps[i];
      MeteringOffNeverOvertakes(cfg, prefix);
      IdleKept(cfg, Run(cfg, prefix), steps[|steps| - 1]);
    }
  }

  /** A one-message run that parks its message, because the flag is set. */
  lemma ParkedFirst(cfg: Config, steps: seq<Step>)
    requires cfg == Config(1, 1, 0) && steps == [Arrive(METER, PAYLOAD, true, 0)]
    ensures Possible(cfg, steps) && !Run(cfg, steps).panicked && Run(cfg, steps).arrivals == 1
    ensures Run(cfg, steps).sched.cache == map[METER := SampleCache(false, [Request(0, METER, PAYLOAD)], 0)]
    ensures InOrder(Run(cfg, steps), METER)
  {
    hide Request.Sendable;
    assert steps[..0] == [];
    assert ActiveAddrs(map[]) == {};
    assert Decide(cfg, map[], Request(0, METER, PAYLOAD), true) == Park;
    OrderAt(cfg, Initial(), steps[0], METER);
  }

  /** With the flag set for one arrival only, order is lost: the second message of an
      address goes out before the first. */
  lemma {:induction false} MeteringBreaksOrder(cfg: Config, steps: seq<Step>)
    requires cfg == Config(1, 1, 0)
    requires steps == [Arrive(METER, PAYLOAD, true, 0), Arrive(METER, PAYLOAD, false, 0)]
    ensures Possible(cfg, steps) && !InOrder(Run(cfg, steps), METER)
  {
    hide InOrder, Apply, Request.Sendable;
    ParkedFirst(cfg, steps[..1]);
    InvHolds(cfg, steps[..1]);
    SampleIsSendable(1);
    var s := Run(cfg, steps[..1]);
    assert Overtakes(cfg, s, steps[1]);
    OrderAt(cfg, s, steps[1], METER);
  }

  // ---- bounds ----

  /** No queue outgrows its bound, and aging changes no queue and no waiting flag. */
  lemma {:induction false} QueueBoundAndAging(cfg: Config, steps: seq<Step>, addr: Addr, now: int)
    requires Possible(cfg, steps)
    ensures var cache := Run(cfg, steps).sched.cache;
            && |Queue(cache, addr)| <= cfg.queueLimit
            && Queue(AfterAging(cfg, cache, now), addr) == Queue(cache, addr)
            && Waiting(AfterAging(cfg, cache, now), addr) == Waiting(cache, addr)
            && (addr in cache && addr !in AfterAging(cfg, cache, now) <==>
                addr in cache && !Waiting(cache, addr) && Queue(cache, addr) == []
                && now - cache[addr].lastOperation >= cfg.agingTime)
  {
    InvHolds(cfg, steps);
  }

  lemma ActiveAt(cfg: Config, s: Scheduler, r: Request, metering: bool, now: int, a: Addr)
    ensures var d := Decide(cfg, s.cache, r, metering);
            a in ActiveAddrs(AfterArrival(cfg, s, r, metering, now).cache) <==>
            a in ActiveAddrs(s.cache) || ((d.Launch? || d.Park?) && a == r.addr)
  {
    hide Decide;
  }

  lemma ActiveAfterArrival(cfg: Config, s: Scheduler, r: Request, metering: bool, now: int)
    ensures var d := Decide(cfg, s.cache, r, metering);
            ActiveAddrs(AfterArrival(cfg, s, r, metering, now).cache) ==
            ActiveAddrs(s.cache) + if d.Launch? || d.Park? then {r.addr} else {}
  {
    hide AfterArrival, Decide, ActiveAddrs;
    var d := Decide(cfg, s.cache, r, metering);
    var cache' := AfterArrival(cfg, s, r, metering, now).cache;
    forall a ensures a in ActiveAddrs(cache') <==>
        a in ActiveAddrs(s.cache) || ((d.Launch? || d.Park?) && a == r.addr) {
      ActiveAt(cfg, s, r, metering, now, a);
    }
  }

  /** The limit is looked at only for an address not in the map: an idle address that is
      still there is made active without it. */
  lemma AddressLimit(cfg: Config, s: Scheduler, r: Request, metering: bool, now: int)
    requires |ActiveAddrs(s.cache)| <= cfg.addrLimit
    ensures |ActiveAddrs(AfterArrival(cfg, s, r, metering, now).cache)| <= cfg.addrLimit <==>
            !(r.addr in s.cache && r.addr !in ActiveAddrs(s.cache) && |ActiveAddrs(s.cache)| == cfg.addrLimit
              && (Decide(cfg, s.cache, r, metering).Launch? || Decide(cfg, s.cache, r, metering).Park?))
  {
    ActiveAfterArrival(cfg, s, r, metering, now);
  }
}
