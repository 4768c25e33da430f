/** What the time of an address's last operation is, and so when aging removes the address. */
module MeterTimes {
  import opened Wrappers
  import opened Metering
  import opened UartMatching
  import opened MeterSystem
  import opened MeterOrder

  /** A message for the address made its entry, or was queued. */
  predicate Touches(cfg: Config, s: System, step: Step, addr: Addr)
    requires Enabled(s, step)
  {
    && step.Arrive? && step.addr == addr
    && var cache, cache' := s.sched.cache, Apply(cfg, s, step).sched.cache;
       (addr !in cache && addr in cache') || |Queue(cache', addr)| > |Queue(cache, addr)|
  }

  lemma TouchedNow(cfg: Config, s: System, step: Step, addr: Addr)
    requires Enabled(s, step) && Touches(cfg, s, step, addr)
    ensures var cache' := Apply(cfg, s, step).sched.cache;
            addr in cache' && cache'[addr].lastOperation == step.now
  {
    hide Request.Sendable, ActiveAddrs;
  }

  lemma ArrivalElsewhere(cfg: Config, s: System, step: Step, addr: Addr)
    requires Enabled(s, step) && step.Arrive? && !Touches(cfg, s, step, addr)
    ensures var cache, cache' := s.sched.cache, Apply(cfg, s, step).sched.cache;
            addr in cache' ==> addr in cache && cache'[addr].lastOperation == cache[addr].lastOperation
  {
    hide Request.Sendable, ActiveAddrs;
  }

  lemma ReportKeepsTime(s: Scheduler, a: Addr, addr: Addr)
    ensures var cache' := AfterReport(s, a).cache;
            addr in cache' ==> addr in s.cache && cache'[addr].lastOperation == s.cache[addr].lastOperation
  {
    hide Request.Sendable;
  }

  lemma UntouchedKeeps(cfg: Config, s: System, step: Step, addr: Addr)
    requires Enabled(s, step) && !Touches(cfg, s, step, addr)
    ensures var cache, cache' := s.sched.cache, Apply(cfg, s, step).sched.cache;
            addr in cache' ==> addr in cache && cache'[addr].lastOperation == cache[addr].lastOperation
  {
    if step.Arrive? {
      ArrivalElsewhere(cfg, s, step, addr);
    } else {
      hide Touches, Arrived, AfterReport, Route, Reportable, Sweepable, Retained;
      match step
      case Finish(index) => ReportKeepsTime(s.sched, s.hand[index].req.addr, addr);
      case Sweep(a) => ReportKeepsTime(s.sched, a, addr);
      case _ =>
    }
  }

  ghost predicate TouchedAt(cfg: Config, steps: seq<Step>, i: nat, addr: Addr)
    requires Possible(cfg, steps) && i < |steps|
  {
    PrefixPossible(cfg, steps, i);
    StepEnabled(cfg, steps, i);
    Touches(cfg, Run(cfg, steps[..i]), steps[i], addr)
  }

  lemma StepEnabled(cfg: Config, steps: seq<Step>, i: nat)
    requires Possible(cfg, steps) && i < |steps|
    ensures Possible(cfg, steps[..i]) && Enabled(Run(cfg, steps[..i]), steps[i])
  {
    PrefixPossible(cfg, steps, i);
    PrefixPossible(cfg, steps, i + 1);
    assert steps[..i + 1][..i] == steps[..i] && steps[..i + 1][i] == steps[i];
  }

  /** Message `i` is the last that touched the address. */
  ghost predicate LastTouched(cfg: Config, steps: seq<Step>, i: nat, addr: Addr)
    requires Possible(cfg, steps)
  {
    i < |steps| && TouchedAt(cfg, steps, i, addr) && forall j :: i < j < |steps| ==> !TouchedAt(cfg, steps, j, addr)
  }

  lemma TouchedBefore(cfg: Config, prefix: seq<Step>, step: Step, i: nat, addr: Addr)
    requires Possible(cfg, prefix) && Possible(cfg, prefix + [step]) && i < |prefix|
    ensures TouchedAt(cfg, prefix + [step], i, addr) <==> TouchedAt(cfg, prefix, i, addr)
  {
    hide Touches, Possible, Run;
    assert (prefix + [step])[..i] == prefix[..i] && (prefix + [step])[i] == prefix[i];
  }

  lemma TouchedLast(cfg: Config, prefix: seq<Step>, step: Step, addr: Addr)
    requires Possible(cfg, prefix) && Possible(cfg, prefix + [step]) && Enabled(Run(cfg, prefix), step)
    ensures TouchedAt(cfg, prefix + [step], |prefix|, addr) <==> Touches(cfg, Run(cfg, prefix), step, addr)
  {
    hide Touches, Possible, Run;
    assert (prefix + [step])[..|prefix|] == prefix && (prefix + [step])[|prefix|] == step;
  }

  /** In every run the time kept for an address is that of the last message that made its entry
      or was queued for it. */
  lemma {:induction false} TimeIsOfLast(cfg: Config, steps: seq<Step>, addr: Addr) returns (i: nat)
    requires Possible(cfg, steps) && addr in Run(cfg, steps).sched.cache
    ensures LastTouched(cfg, steps, i, addr)
    ensures steps[i].Arrive? && steps[i].addr == addr && Run(cfg, steps).sched.cache[addr].lastOperation == steps[i].now
    decreases |steps|
  {
    hide Apply, Touches;
    if steps == [] {
      assert false;
    } else {
      var prefix, step := steps[..|steps| - 1], steps[|steps| - 1];
      assert steps == prefix + [step];
      TouchedLast(cfg, prefix, step, addr);
      if Touches(cfg, Run(cfg, prefix), step, addr) {
        TouchedNow(cfg, Run(cfg, prefix), step, addr);
        TouchIsArrival(cfg, Run(cfg, prefix), step, addr);
        i := |prefix|;
      } else {
        UntouchedKeeps(cfg, Run(cfg, prefix), step, addr);
        i := TimeIsOfLast(cfg, prefix, addr);
        forall j | 0 <= j < |prefix| ensures TouchedAt(cfg, steps, j, addr) <==> TouchedAt(cfg, prefix, j, addr) {
          TouchedBefore(cfg, prefix, step, j, addr);
        }
      }
    }
  }

  lemma TouchIsArrival(cfg: Config, s: System, step: Step, addr: Addr)
    requires Enabled(s, step) && Touches(cfg, s, step, addr)
    ensures step.Arrive? && step.addr == addr
  {
  }

  /** Aging removes an address exactly if it is idle, has nothing queued, and that message came
      at least the aging time ago. */
  lemma {:induction false} AgedExactly(cfg: Config, steps: seq<Step>, addr: Addr, now: int) returns (i: nat)
    requires Possible(cfg, steps) && Enabled(Run(cfg, steps), Age(now)) && !Run(cfg, steps).panicked
    requires addr in Run(cfg, steps).sched.cache
    ensures LastTouched(cfg, steps, i, addr) && steps[i].Arrive?
    ensures var s := Run(cfg, steps);
            addr !in Apply(cfg, s, Age(now)).sched.cache <==>
            !Waiting(s.sched.cache, addr) && Queue(s.sched.cache, addr) == [] && now - steps[i].now >= cfg.agingTime
  {
    hide Possible, Run, LastTouched;
    i := TimeIsOfLast(cfg, steps, addr);
    QueueBoundAndAging(cfg, steps, addr, now);
  }

  /** A message makes the entry of its address unless the limit of active addresses refuses it,
      whatever becomes of the message. */
  lemma EntryMade(cfg: Config, s: System, addr: Addr, payload: Payload, metering: bool, now: int)
    ensures var cache := s.sched.cache;
            addr in Arrived(cfg, s, addr, payload, metering, now).sched.cache <==>
            addr in cache || |set a | a in cache && (cache[a].waiting || cache[a].queue != [])| < cfg.addrLimit
  {
    hide Request.Sendable;
    var cache := s.sched.cache;
    assert ActiveAddrs(cache) == set a | a in cache && (cache[a].waiting || cache[a].queue != []);
  }
}
