/** A run, without a panic, after which no thread is left to report a request. */
module SpentThreads {
  import opened Wrappers
  import opened WireForm
  import opened Metering
  import opened UartMatching
  import opened MeterSystem
  import opened ExactlyOnce
  import opened Completion
  import opened Progress
  import opened MeterAddresses

  /** No data of this message is hexadecimal. */
  const UNSENDABLE := Payload("1", "x")

  lemma NeverSendable(r: Request)
    requires r.payload == UNSENDABLE
    ensures !r.Sendable()
  {
    assert |"x"| % 2 == 1;
  }

  /** Nothing is on the way, and the scheduler and the matcher work. */
  predicate Quiet(s: System) {
    s.sched.channel == [] && s.uart.table == map[] && !s.panicked && !s.stopped && s.dead == {}
  }

  lemma Parked(cfg: Config, s: System, addr: Addr)
    requires Waiting(s.sched.cache, addr) && Queue(s.sched.cache, addr) == [] && cfg.queueLimit >= 1
    ensures var s', r := Arrived(cfg, s, addr, UNSENDABLE, false, 0), Request(s.arrivals, addr, UNSENDABLE);
            && Queue(s'.sched.cache, addr) == [r] && s'.sched.cache.Keys == s.sched.cache.Keys
            && (forall a :: a in s.sched.cache && a != addr ==> s'.sched.cache[a] == s.sched.cache[a])
            && s' == s.(sched := s.sched.(cache := s'.sched.cache), arrivals := s.arrivals + 1,
                accepted := s.accepted + [r])
  {
    hide Request.Sendable, ActiveAddrs;
    assert Decide(cfg, s.sched.cache, Request(s.arrivals, addr, UNSENDABLE), false) == Park;
  }

  lemma Written(cfg: Config, s: System, o: Outgoing)
    requires s.sched.channel == [o] && s.uart.table == map[] && !s.stopped
    ensures var s' := Apply(cfg, s, ConcurrentWrite(true));
            && s'.sched == s.sched.(channel := []) && s'.uart.table == map[o.Seq() := o] && s'.hand == s.hand
            && s'.panicked == s.panicked && s'.stopped == s.stopped && s'.dead == s.dead
            && s'.lost == s.lost && s'.reports == s.reports
  {
  }

  function TakeOf(o: Outgoing, t: Thread): Step {
    if t.Timer? then TimerFires(o.Seq()) else Receive(false, o.Seq(), true)
  }

  lemma Taken(cfg: Config, s: System, o: Outgoing, t: Thread)
    requires s.uart.table == map[o.Seq() := o] && Free(s, t)
    ensures Enabled(s, TakeOf(o, t))
    ensures var s' := Apply(cfg, s, TakeOf(o, t));
            && s'.sched == s.sched && s'.uart.table == map[] && s'.hand == s.hand + [Held(o.req, TakenBy(t))]
            && s'.panicked == s.panicked && s'.stopped == s.stopped && s'.dead == s.dead
            && s'.lost == s.lost && s'.reports == s.reports
  {
  }

  lemma FewActive(cache: Cache, addrs: set<Addr>)
    requires cache.Keys <= addrs
    ensures |ActiveAddrs(cache)| <= |addrs|
  {
    Fewer(ActiveAddrs(cache), addrs);
  }

  lemma {:induction false} Fewer(some: set<Addr>, all: set<Addr>)
    requires some <= all
    ensures |some| <= |all|
  {
    if some != {} {
      var a :| a in some;
      Fewer(some - {a}, all - {a});
    }
  }

  /** A thread takes the exchange of a new address behind which a message that cannot be sent
      is queued. */
  lemma {:induction false} Trap(cfg: Config, steps: seq<Step>, addr: Addr, t: Thread) returns (steps': seq<Step>)
    requires Possible(cfg, steps) && Quiet(Run(cfg, steps)) && Ready(Run(cfg, steps), t)
    requires Wire(addr).Some? && addr !in Run(cfg, steps).sched.cache
    requires |ActiveAddrs(Run(cfg, steps).sched.cache)| < cfg.addrLimit && cfg.queueLimit >= 1
    ensures Possible(cfg, steps') && Quiet(Run(cfg, steps'))
    ensures var s, s' := Run(cfg, steps), Run(cfg, steps');
            && s'.sched.cache.Keys == s.sched.cache.Keys + {addr} && HeadPanics(s'.sched.cache, addr)
            && (forall a :: a in s.sched.cache ==> s'.sched.cache[a] == s.sched.cache[a])
            && |s'.hand| == |s.hand| + 1 && s.hand <= s'.hand
            && s'.hand[|s.hand|].req.addr == addr && s'.hand[|s.hand|].kind == TakenBy(t)
            && s'.lost == s.lost && s'.reports == s.reports
  {
    hide Arrived, ConcurrentWritten, Received, TakenFromTable, Possible, Run, Request.Sendable, ActiveAddrs, Wire;
    var s0 := Run(cfg, steps);
    ArrivesIdle(cfg, s0, addr);
    steps' := Extend(cfg, steps, Arrive(addr, PAYLOAD, false, 0));
    var s1 := Run(cfg, steps');
    Parked(cfg, s1, addr);
    NeverSendable(Request(s1.arrivals, addr, UNSENDABLE));
    steps' := Extend(cfg, steps', Arrive(addr, UNSENDABLE, false, 0));
    var o := Outgoing(Request(s0.arrivals, addr, PAYLOAD), s0.sched.created);
    Written(cfg, Run(cfg, steps'), o);
    steps' := Extend(cfg, steps', ConcurrentWrite(true));
    Taken(cfg, Run(cfg, steps'), o, t);
    steps' := Extend(cfg, steps', TakeOf(o, t));
  }

  lemma QuietStart(cfg: Config)
    ensures Possible(cfg, []) && Run(cfg, []) == Initial() && Quiet(Initial())
    ensures Ready(Initial(), Reader) && Ready(Initial(), Timer) && Initial().sched.cache == map[]
  {
  }

  lemma SameHead(cache: Cache, cache': Cache, addr: Addr)
    requires HeadPanics(cache, addr) && addr in cache && addr in cache' && cache'[addr] == cache[addr]
    ensures HeadPanics(cache', addr)
  {
  }

  /** The reader ends with the exchange of `a` and the timer thread with that of `b`. */
  predicate BothTrapped(s: System, a: Addr, b: Addr) {
    && |s.hand| == 2 && s.hand[0].kind == Reply && s.hand[1].kind == Timeout
    && s.hand[0].req.addr == a && s.hand[1].req.addr == b
    && HeadPanics(s.sched.cache, a) && HeadPanics(s.sched.cache, b)
  }

  lemma {:induction false} TrapBoth(cfg: Config, a: Addr, b: Addr) returns (steps: seq<Step>)
    requires a != b && Wire(a).Some? && Wire(b).Some? && cfg.addrLimit >= 2 && cfg.queueLimit >= 1
    ensures Possible(cfg, steps) && Quiet(Run(cfg, steps)) && BothTrapped(Run(cfg, steps), a, b)
    ensures Run(cfg, steps).sched.cache.Keys == {a, b} && Run(cfg, steps).lost == [] && Run(cfg, steps).reports == []
  {
    hide Possible, Run, ActiveAddrs, Wire, HeadPanics;
    QuietStart(cfg);
    FewActive(map[], {});
    steps := Trap(cfg, [], a, Reader);
    var s := Run(cfg, steps);
    FewActive(s.sched.cache, {a});
    steps := Trap(cfg, steps, b, Timer);
    SameHead(s.sched.cache, Run(cfg, steps).sched.cache, a);
  }

  lemma BothSpent(s: System, a: Addr, b: Addr, r: Request)
    requires BothTrapped(s, a, b) && r.addr != a && r.addr != b
    ensures Unattended(s, r)
  {
    hide HeadPanics;
    assert Kills(s, s.hand[0]) && Kills(s, s.hand[1]);
  }

  lemma Another(cfg: Config, s: System, a: Addr, b: Addr, c: Addr)
    requires Wire(c).Some? && s.sched.cache.Keys == {a, b} && c !in s.sched.cache && cfg.addrLimit >= 3
    requires BothTrapped(s, a, b) && s.lost == [] && s.reports == []
    ensures var s', r := Arrived(cfg, s, c, PAYLOAD, false, 0), Request(s.arrivals, c, PAYLOAD);
            && r in s'.accepted && s'.panicked == s.panicked && s'.stopped == s.stopped
            && BothTrapped(s', a, b) && s'.lost == [] && s'.reports == []
  {
    hide Request.Sendable, ActiveAddrs;
    FewActive(s.sched.cache, {a, b});
    PayloadSendable(s.arrivals, c);
    assert Decide(cfg, s.sched.cache, Request(s.arrivals, c, PAYLOAD), false) == Launch;
  }

  lemma NothingReported(s: System, r: Request, addr: Addr)
    requires s.reports == [] && s.lost == []
    ensures Reports(s, r) == 0 && LostSpots(s, addr) == {}
  {
  }

  /** Nothing has panicked and nothing is lost, and yet the request of a third address can
      never be reported: the reader and the timer thread each hold an exchange of another
      address whose next message cannot be sent. */
  lemma {:induction false} NobodyLeft(cfg: Config, a: Addr, b: Addr, c: Addr) returns (steps: seq<Step>, r: Request)
    requires a != b && a != c && b != c && Wire(a).Some? && Wire(b).Some? && Wire(c).Some?
    requires cfg.addrLimit >= 3 && cfg.queueLimit >= 1
    ensures Possible(cfg, steps) && Intact(Run(cfg, steps))
    ensures r.addr == c && r in Run(cfg, steps).accepted && !CanBeReported(cfg, steps, r)
  {
    hide Arrived, Possible, Run, Wire, BothTrapped, Unattended, Reports, LostSpots, CanBeReported;
    steps := TrapBoth(cfg, a, b);
    var s := Run(cfg, steps);
    Another(cfg, s, a, b, c);
    r := Request(s.arrivals, c, PAYLOAD);
    steps := Extend(cfg, steps, Arrive(c, PAYLOAD, false, 0));
    BothSpent(Run(cfg, steps), a, b, r);
    NothingReported(Run(cfg, steps), r, c);
    ReportedIffNotBlocked(cfg, steps, r);
  }
}
