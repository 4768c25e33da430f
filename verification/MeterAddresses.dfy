/** The scheduler tells meters apart by their address text, the module by its bytes. */
module MeterAddresses {
  import opened Wrappers
  import opened WireForm
  import opened Metering
  import opened UartMatching
  import opened MeterSystem

  predicate FromTexts(steps: seq<Step>, texts: set<Addr>) {
    forall i :: 0 <= i < |steps| && steps[i].Arrive? ==> steps[i].addr in texts
  }

  /** No meter is asked under one text while it is asked under another. */
  ghost predicate OneAtATime(s: System) {
    forall a, b :: Waiting(s.sched.cache, a) && Waiting(s.sched.cache, b) && Wire(a).Some? && Wire(a) == Wire(b) ==>
        a == b
  }

  ghost predicate AlwaysOneAtATime(cfg: Config, texts: set<Addr>) {
    forall steps :: Possible(cfg, steps) && FromTexts(steps, texts) ==> OneAtATime(Run(cfg, steps))
  }

  lemma KeysArrived(cfg: Config, s: System, addr: Addr, payload: Payload, metering: bool, now: int)
    ensures Arrived(cfg, s, addr, payload, metering, now).sched.cache.Keys <= s.sched.cache.Keys + {addr}
  {
    hide Decide, Arrived;
    ArrivalChanges(cfg, s, addr, payload, metering, now);
  }

  lemma KeysOnlyArrive(cfg: Config, s: System, step: Step)
    requires Enabled(s, step)
    ensures Apply(cfg, s, step).sched.cache.Keys <= s.sched.cache.Keys + (if step.Arrive? then {step.addr} else {})
  {
    hide Arrived, HeadPanics, Retained, Route, Reportable;
    if step.Arrive? {
      KeysArrived(cfg, s, step.addr, step.payload, step.metering, step.now);
    }
  }

  lemma {:induction false} KeysAreTexts(cfg: Config, steps: seq<Step>, texts: set<Addr>)
    requires Possible(cfg, steps) && FromTexts(steps, texts)
    ensures Run(cfg, steps).sched.cache.Keys <= texts
    decreases |steps|
  {
    hide Apply;
    if steps != [] {
      var prefix := steps[..|steps| - 1];
      assert forall i :: 0 <= i < |prefix| ==> prefix[i] == steps[i];
      KeysAreTexts(cfg, prefix, texts);
      KeysOnlyArrive(cfg, Run(cfg, prefix), steps[|steps| - 1]);
    }
  }

  // ---- a run that asks one meter twice ----

  lemma PayloadSendable(id: nat, addr: Addr)
    requires Wire(addr).Some?
    ensures Request(id, addr, PAYLOAD).Sendable()
  {
    SampleIsSendable(id);
  }

  lemma ArrivesIdle(cfg: Config, s: System, addr: Addr)
    requires Wire(addr).Some? && !Waiting(s.sched.cache, addr) && Queue(s.sched.cache, addr) == []
    requires addr in s.sched.cache || |ActiveAddrs(s.sched.cache)| < cfg.addrLimit
    ensures var s', r := Arrived(cfg, s, addr, PAYLOAD, false, 0), Request(s.arrivals, addr, PAYLOAD);
            && s'.panicked == s.panicked && s'.stopped == s.stopped && s'.dead == s.dead
            && s'.uart == s.uart && s'.hand == s.hand && s'.lost == s.lost && s'.reports == s.reports
            && s'.sched.channel == s.sched.channel + [Outgoing(r, s.sched.created)]
            && s'.sched.cache.Keys == s.sched.cache.Keys + {addr}
            && Waiting(s'.sched.cache, addr) && Queue(s'.sched.cache, addr) == []
            && forall a :: a in s.sched.cache && a != addr ==> s'.sched.cache[a] == s.sched.cache[a]
  {
    hide Request.Sendable;
    PayloadSendable(s.arrivals, addr);
  }

  /** One address in the cache, with nothing queued. */
  predicate Alone(cache: Cache, a: Addr, waiting: bool) {
    cache.Keys == {a} && cache[a].waiting == waiting && cache[a].queue == []
  }

  lemma OneWritten(cfg: Config, s: System, o: Outgoing)
    requires s.sched.channel == [o] && s.uart.table == map[] && !s.stopped
    ensures var s' := Apply(cfg, s, ConcurrentWrite(true));
            && s'.sched.cache == s.sched.cache && s'.uart.table == map[o.Seq() := o] && s'.hand == s.hand
            && s'.panicked == s.panicked && s'.stopped == s.stopped && s'.dead == s.dead
  {
  }

  lemma OneTaken(cfg: Config, s: System, o: Outgoing)
    requires s.uart.table == map[o.Seq() := o] && s.hand == [] && !s.stopped && Timer !in s.dead
    ensures var s' := Apply(cfg, s, TimerFires(o.Seq()));
            s'.sched.cache == s.sched.cache && s'.hand == [Held(o.req, Timeout)] && s'.panicked == s.panicked
  {
  }

  lemma OneReported(cfg: Config, s: System, r: Request)
    requires s.hand == [Held(r, Timeout)] && !s.panicked && Alone(s.sched.cache, r.addr, true)
    ensures var s' := Apply(cfg, s, Finish(0));
            Alone(s'.sched.cache, r.addr, false) && !s'.panicked
  {
    hide Request.Sendable;
    assert s.hand[0] == Held(r, Timeout);
  }

  /** One exchange with an address alone in the cache: dispatched, timed out, idle again. */
  lemma AskedOnce(cfg: Config, a: Addr) returns (steps: seq<Step>)
    requires Wire(a).Some? && cfg.addrLimit >= 1
    ensures Possible(cfg, steps) && FromTexts(steps, {a}) && !Run(cfg, steps).panicked
    ensures Alone(Run(cfg, steps).sched.cache, a, false)
  {
    hide Arrived, ConcurrentWritten, TakenFromTable, Finished, Possible, Run, Request.Sendable;
    assert Possible(cfg, []) && Run(cfg, []) == Initial() by { RunNothing(cfg); }
    assert ActiveAddrs(map[]) == {};
    ArrivesIdle(cfg, Initial(), a);
    var o := Outgoing(Request(0, a, PAYLOAD), 0);
    steps := Extend(cfg, [], Arrive(a, PAYLOAD, false, 0));
    OneWritten(cfg, Run(cfg, steps), o);
    steps := Extend(cfg, steps, ConcurrentWrite(true));
    OneTaken(cfg, Run(cfg, steps), o);
    steps := Extend(cfg, steps, TimerFires(o.Seq()));
    OneReported(cfg, Run(cfg, steps), o.req);
    steps := Extend(cfg, steps, Finish(0));
  }

  lemma RunNothing(cfg: Config)
    ensures Possible(cfg, []) && Run(cfg, []) == Initial()
  {
  }

  lemma NoneActive(cache: Cache, a: Addr)
    requires Alone(cache, a, false)
    ensures ActiveAddrs(cache) == {}
  {
  }

  /** Two texts for one meter: after one exchange both can be waiting at once, even where only
      one address may be active. */
  lemma AskedTwice(cfg: Config, a: Addr, b: Addr) returns (steps: seq<Step>)
    requires a != b && Wire(a).Some? && Wire(b).Some? && cfg.addrLimit >= 1
    ensures Possible(cfg, steps) && FromTexts(steps, {a, b})
    ensures Waiting(Run(cfg, steps).sched.cache, a) && Waiting(Run(cfg, steps).sched.cache, b)
  {
    hide Arrived, Possible, Run;
    steps := AskedOnce(cfg, a);
    NoneActive(Run(cfg, steps).sched.cache, a);
    ArrivesIdle(cfg, Run(cfg, steps), b);
    steps := Extend(cfg, steps, Arrive(b, PAYLOAD, false, 0));
    ArrivesIdle(cfg, Run(cfg, steps), a);
    steps := Extend(cfg, steps, Arrive(a, PAYLOAD, false, 0));
  }

  /** Over all runs whose messages use these texts, no meter is ever asked twice at once,
      exactly when no two of the texts are one meter. */
  lemma {:induction false} OneRequestPerMeter(cfg: Config, texts: set<Addr>)
    requires cfg.addrLimit >= 1
    ensures AlwaysOneAtATime(cfg, texts) <==> OneTextEach(texts)
  {
    hide Wire;
    if OneTextEach(texts) {
      forall steps | Possible(cfg, steps) && FromTexts(steps, texts) ensures OneAtATime(Run(cfg, steps)) {
        KeysAreTexts(cfg, steps, texts);
      }
    } else {
      var a, b :| a in texts && b in texts && Wire(a).Some? && Wire(a) == Wire(b) && a != b;
      var steps := AskedTwice(cfg, a, b);
      assert FromTexts(steps, texts);
      assert !OneAtATime(Run(cfg, steps));
    }
  }
}
