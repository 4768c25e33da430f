/** The scheduler and the matcher together, as a system of atomic steps: one step for each
    region a thread runs under a lock. Any interleaving of the threads, the timers and the
    module's frames is a sequence of these steps. */
module MeterSystem {
  import opened Wrappers
  import opened Metering
  import opened UartMatching

  /** The two threads that end exchanges, each one exchange after another. */
  datatype Thread = Reader | Timer

  /** Why a request left the table: a reply that decodes or does not, a report of the module's
      own, or its timer. */
  datatype Kind = Reply | Garbled | Report | Timeout {
    function By(): Thread { if Timeout? then Timer else Reader }
  }

  /** A request taken from the table by a thread and not yet reported. */
  datatype Held = Held(req: Request, kind: Kind)

  datatype Verdict = Answered | TimedOut

  datatype Reported = Reported(req: Request, verdict: Verdict)

  /** How the wait of a serial request ended. */
  datatype Resolution = Delivered(msg: SerialMsg, num: SeqNum) | Expired(msg: SerialMsg)

  datatype Place = InChannel | InTable(num: SeqNum) | InHand | Lost

  datatype Flight = Flight(req: Request, place: Place)

  type Flights = map<Addr, Flight>

  /** Whom the n-th request frame was made for. */
  datatype Maker = ForMeter(req: Request) | ForSerial(id: nat)

  /** The threads' shared state, then the history: `lost` collects requests that no thread
      can report any more, `flight` says for each address what became of its last dispatch
      until that is reported, `makers` lists the request frames in the order
      of their creation. `panicked` says that a thread panicked under the scheduler's lock,
      `stopped` that one did under the matcher's; `dead` are the threads that are no more. */
  datatype System = System(
    sched: Scheduler,
    uart: Uart,
    hand: seq<Held>,
    inbox: seq<SerialMsg>,
    awaiting: Option<SerialMsg>,
    arrivals: nat,
    accepted: seq<Request>,
    dispatched: seq<Request>,
    reports: seq<Reported>,
    lost: seq<Request>,
    flight: Flights,
    makers: seq<Maker>,
    serials: nat,
    written: seq<SerialMsg>,
    resolved: seq<Resolution>,
    panicked: bool,
    stopped: bool,
    dead: set<Thread>)

  datatype Step =
    | Arrive(addr: Addr, payload: Payload, metering: bool, now: int)
    | ConcurrentWrite(ok: bool)
    | Receive(isReport: bool, num: SeqNum, decodes: bool)
    | ReaderEnds
    | TimerFires(num: SeqNum)
    | TimerMisses(num: SeqNum)
    | Finish(index: nat)
    | Sweep(addr: Addr)
    | Age(now: int)
    | SerialSend(chosen: Option<SeqNum>, isResponse: bool, hasOrigin: bool)
    | SerialWrite
    | SerialEnd

  function Initial(): System {
    System(Scheduler(map[], 0, []), Uart(None, map[], 0), [], [], None, 0, [], [], [], [], map[], [], 0, [], [],
           false, false, {})
  }

  // ---- the steps ----

  function Arrived(cfg: Config, s: System, addr: Addr, payload: Payload, metering: bool, now: int): System {
    var r := Request(s.arrivals, addr, payload);
    var d := Decide(cfg, s.sched.cache, r, metering);
    var s' := s.(sched := AfterArrival(cfg, s.sched, r, metering, now), arrivals := s.arrivals + 1);
    match d
    case Launch => s'.(accepted := s.accepted + [r], dispatched := s.dispatched + [r],
                       makers := s.makers + [ForMeter(r)], flight := s.flight[addr := Flight(r, InChannel)])
    case Park => s'.(accepted := s.accepted + [r])
    case Fatal => s'.(panicked := true)
    case Refuse(_) => s'
  }

  /** The concurrent writer: a frame not written, or displaced from the table, is lost. */
  function ConcurrentWritten(s: System, ok: bool): System
    requires s.sched.channel != []
  {
    var o := s.sched.channel[0];
    var num := o.Seq();
    var s' := s.(sched := s.sched.(channel := s.sched.channel[1..]), uart := AfterWrite(s.uart, o, ok));
    if !ok then
      s'.(lost := s.lost + [o.req], flight := s.flight[o.req.addr := Flight(o.req, Lost)])
    else if num in s.uart.table then
      var old' := s.uart.table[num].req;
      s'.(lost := s.lost + [old'],
          flight := s.flight[old'.addr := Flight(old', Lost)][o.req.addr := Flight(o.req, InTable(num))])
    else
      s'.(flight := s.flight[o.req.addr := Flight(o.req, InTable(num))])
  }

  function TakenFromTable(s: System, num: SeqNum, kind: Kind): System
    requires num in s.uart.table
  {
    var r := s.uart.table[num].req;
    s.(uart := s.uart.(table := s.uart.table - {num}),
       hand := s.hand + [Held(r, kind)],
       flight := s.flight[r.addr := Flight(r, InHand)])
  }

  function ReceivedKind(isReport: bool, decodes: bool): Kind {
    if isReport then Report else if decodes then Reply else Garbled
  }

  function Received(s: System, isReport: bool, num: SeqNum, decodes: bool): System {
    match Route(s.uart, isReport, num)
    case ToConcurrent(_) => TakenFromTable(s, num, ReceivedKind(isReport, decodes))
    case ToSerial(m) =>
      s.(uart := AfterRoute(s.uart, isReport, num),
         resolved := if s.awaiting == Some(m) then s.resolved + [Delivered(m, num)] else s.resolved)
    case _ => s
  }

  function Without<T>(xs: seq<T>, i: nat): (rest: seq<T>)
    requires i < |xs|
    ensures |rest| == |xs| - 1
  {
    xs[..i] + xs[i + 1..]
  }

  /** The next queued request of `addr` goes out; its flight starts. One that cannot be sent
      is lost where it is taken from the queue. */
  function Relaunched(s: System, addr: Addr): System {
    var queue := Queue(s.sched.cache, addr);
    var s' := s.(sched := AfterReport(s.sched, addr));
    if queue == [] then s'.(flight := s.flight - {addr})
    else if !queue[0].Sendable() then
      s'.(dispatched := s.dispatched + [queue[0]], lost := s.lost + [queue[0]],
          flight := s.flight[addr := Flight(queue[0], Lost)], panicked := true)
    else s'.(dispatched := s.dispatched + [queue[0]], makers := s.makers + [ForMeter(queue[0])],
        flight := s.flight[addr := Flight(queue[0], InChannel)])
  }

  /** A report goes to the application and the address moves on, unless the reply does not
      decode or the table entry was consumed by a report of the module. The report goes out
      before the scheduler's lock is taken, so a panic elsewhere only keeps the address. */
  predicate Reportable(kind: Kind) {
    kind == Timeout || kind == Reply
  }

  /** The thread that hands this over sends its report and then panics. */
  predicate Kills(s: System, h: Held) {
    Reportable(h.kind) && (s.panicked || HeadPanics(s.sched.cache, h.req.addr))
  }

  /** The request at `index` is reported, and out of its thread's hand. */
  function Handed(s: System, index: nat): System
    requires index < |s.hand|
  {
    var h := s.hand[index];
    s.(hand := Without(s.hand, index),
       reports := s.reports + [Reported(h.req, if h.kind == Timeout then TimedOut else Answered)],
       dead := if Kills(s, h) then s.dead + {h.kind.By()} else s.dead)
  }

  function Finished(s: System, index: nat): System
    requires index < |s.hand|
  {
    var h := s.hand[index];
    if !Reportable(h.kind) then
      s.(hand := Without(s.hand, index), lost := s.lost + [h.req],
         flight := s.flight[h.req.addr := Flight(h.req, Lost)])
    else if s.panicked then Handed(s, index).(flight := s.flight - {h.req.addr})
    else Relaunched(Handed(s, index), h.req.addr)
  }

  function Swept(s: System, addr: Addr): System {
    if Sweepable(s.sched.cache, addr) then Relaunched(s, addr) else s
  }

  /** The aging is a timer too. */
  function Aged(cfg: Config, s: System, now: int): System {
    if s.panicked then s.(dead := s.dead + {Timer})
    else s.(sched := s.sched.(cache := AfterAging(cfg, s.sched.cache, now)))
  }

  /** A frame made here as a request takes its number from the counter. */
  function SerialSent(s: System, chosen: Option<SeqNum>, isResponse: bool, hasOrigin: bool): System {
    var created := s.sched.created;
    var msg := match chosen
               case None => SerialMsg(s.serials, created % 256, Some(created), isResponse, hasOrigin)
               case Some(num) => SerialMsg(s.serials, num, None, isResponse, hasOrigin);
    s.(sched := s.sched.(created := if chosen.None? then created + 1 else created),
       makers := if chosen.None? then s.makers + [ForSerial(s.serials)] else s.makers,
       inbox := s.inbox + [msg], serials := s.serials + 1)
  }

  function SerialWritten(s: System): System
    requires s.inbox != []
  {
    var m := s.inbox[0];
    s.(uart := s.uart.(slot := Some(m)), inbox := s.inbox[1..],
       awaiting := if m.Waits() then Some(m) else None, written := s.written + [m])
  }

  function SerialEnded(s: System): System {
    s.(uart := AfterWait(s.uart), awaiting := None,
       resolved := if s.uart.slot.Some? then s.resolved + [Expired(s.uart.slot.value)] else s.resolved)
  }

  /** The steps that need the scheduler's lock, which is poisoned by a panic: after it no message
      arrives and nothing is swept, while the two threads still come to it and die there. */
  predicate LocksScheduler(step: Step) {
    step.Arrive? || step.Finish? || step.Sweep? || step.Age?
  }

  /** The thread lives and has no exchange to end. */
  predicate Ready(s: System, t: Thread) {
    t !in s.dead && forall i :: 0 <= i < |s.hand| ==> s.hand[i].kind.By() != t
  }

  /** The reader reads on, and the timer fires on, only when the exchange before is ended. A
      timer whose entry is not there panics with the matcher's lock held; the reader may end
      at a frame it does not survive. A frame made here as a request is not a reply. */
  predicate Enabled(s: System, step: Step) {
    match step
    case Arrive(_, _, _, _) => !s.panicked
    case ConcurrentWrite(_) => !s.stopped && s.sched.channel != []
    case Receive(_, _, _) => !s.stopped && Ready(s, Reader)
    case ReaderEnds => Ready(s, Reader)
    case TimerFires(num) => !s.stopped && Ready(s, Timer) && num in s.uart.table
    case TimerMisses(num) => !s.stopped && Ready(s, Timer) && num !in s.uart.table
    case Finish(index) => index < |s.hand|
    case Sweep(_) => !s.panicked
    case Age(_) => Ready(s, Timer)
    case SerialSend(chosen, isResponse, _) => chosen.None? ==> !isResponse
    case SerialWrite => !s.stopped && s.awaiting.None? && s.inbox != []
    case SerialEnd => !s.stopped && s.awaiting.Some?
  }

  function Apply(cfg: Config, s: System, step: Step): System
    requires Enabled(s, step)
  {
    match step
    case Arrive(addr, payload, metering, now) => Arrived(cfg, s, addr, payload, metering, now)
    case ConcurrentWrite(ok) => ConcurrentWritten(s, ok)
    case Receive(isReport, num, decodes) => Received(s, isReport, num, decodes)
    case ReaderEnds => s.(dead := s.dead + {Reader})
    case TimerFires(num) => TakenFromTable(s, num, Timeout)
    case TimerMisses(_) => s.(stopped := true, dead := s.dead + {Timer})
    case Finish(index) => Finished(s, index)
    case Sweep(addr) => Swept(s, addr)
    case Age(now) => Aged(cfg, s, now)
    case SerialSend(chosen, isResponse, hasOrigin) => SerialSent(s, chosen, isResponse, hasOrigin)
    case SerialWrite => SerialWritten(s)
    case SerialEnd => SerialEnded(s)
  }

  // ---- runs ----

  predicate Possible(cfg: Config, steps: seq<Step>)
    decreases |steps|, 0
  {
    steps == [] ||
    (Possible(cfg, steps[..|steps| - 1]) && Enabled(Run(cfg, steps[..|steps| - 1]), steps[|steps| - 1]))
  }

  function Run(cfg: Config, steps: seq<Step>): System
    requires Possible(cfg, steps)
    decreases |steps|, 1
  {
    if steps == [] then Initial()
    else Apply(cfg, Run(cfg, steps[..|steps| - 1]), steps[|steps| - 1])
  }

  lemma {:induction false} PrefixPossible(cfg: Config, steps: seq<Step>, n: nat)
    requires Possible(cfg, steps) && n <= |steps|
    ensures Possible(cfg, steps[..n])
    decreases |steps|
  {
    hide Run;
    if n < |steps| {
      PrefixPossible(cfg, steps[..|steps| - 1], n);
      assert steps[..|steps| - 1][..n] == steps[..n];
    } else {
      assert steps[..n] == steps;
    }
  }

  lemma {:induction false} Extend(cfg: Config, steps: seq<Step>, step: Step) returns (steps': seq<Step>)
    requires Possible(cfg, steps) && Enabled(Run(cfg, steps), step)
    ensures Possible(cfg, steps') && steps' == steps + [step]
    ensures Run(cfg, steps') == Apply(cfg, Run(cfg, steps), step)
  {
    steps' := steps + [step];
    assert steps'[..|steps|] == steps;
  }

  /** What a relaunch changes. */
  lemma RelaunchChanges(s: System, addr: Addr)
    ensures var s' := Relaunched(s, addr);
            && s' == s.(sched := s'.sched, dispatched := s'.dispatched, makers := s'.makers, lost := s'.lost,
                        flight := s'.flight, panicked := s'.panicked)
            && s'.sched == AfterReport(s.sched, addr)
  {
    hide AfterReport, Request.Sendable;
  }

  lemma ArrivalChanges(cfg: Config, s: System, addr: Addr, payload: Payload, metering: bool, now: int)
    ensures var s', r := Arrived(cfg, s, addr, payload, metering, now), Request(s.arrivals, addr, payload);
            && s' == s.(sched := s'.sched, arrivals := s'.arrivals, accepted := s'.accepted,
                        dispatched := s'.dispatched, makers := s'.makers, flight := s'.flight, panicked := s'.panicked)
            && s'.sched == AfterArrival(cfg, s.sched, r, metering, now)
            && s'.panicked == (s.panicked || Decide(cfg, s.sched.cache, r, metering) == Fatal)
  {
    hide AfterArrival, Decide;
  }

  /** The scheduler's steps touch neither the matcher nor the serial path. */
  lemma SchedulerOnly(cfg: Config, s: System, step: Step)
    requires Enabled(s, step) && LocksScheduler(step)
    ensures var s' := Apply(cfg, s, step);
            && s'.uart == s.uart && s'.inbox == s.inbox && s'.awaiting == s.awaiting && s'.serials == s.serials
            && s'.written == s.written && s'.resolved == s.resolved
  {
    hide Arrived, Relaunched, AfterAging, Sweepable, Kills, Reportable;
    match step
    case Arrive(addr, payload, metering, now) => ArrivalChanges(cfg, s, addr, payload, metering, now);
    case Finish(index) => RelaunchChanges(Handed(s, index), s.hand[index].req.addr);
    case Sweep(addr) => RelaunchChanges(s, addr);
    case _ =>
  }

  /** The sweep under one lock is a run of its one-address steps, up to a panic. */
  lemma {:induction false} SweepAllIsRun(cfg: Config, steps: seq<Step>, order: seq<Addr>) returns (steps': seq<Step>)
    requires Possible(cfg, steps) && !Run(cfg, steps).panicked
    ensures Possible(cfg, steps') && steps <= steps' && |steps'| <= |steps| + |order|
    ensures Run(cfg, steps').panicked || |steps'| == |steps| + |order|
    ensures forall i :: |steps| <= i < |steps'| ==> steps'[i] == Sweep(order[i - |steps|])
    ensures (Run(cfg, steps').sched, !Run(cfg, steps').panicked) == SweepAll(Run(cfg, steps).sched, order)
    decreases |order|
  {
    hide SweepOne, SweepPanics, Swept, Possible, Run;
    steps' := steps;
    if order != [] {
      steps' := SweepAllIsRun(cfg, steps, order[..|order| - 1]);
      if !Run(cfg, steps').panicked {
        SweepIsOne(cfg, Run(cfg, steps'), order[|order| - 1]);
        steps' := Extend(cfg, steps', Sweep(order[|order| - 1]));
      }
    }
  }

  lemma SweepIsOne(cfg: Config, s: System, addr: Addr)
    requires !s.panicked
    ensures Swept(s, addr).sched == SweepOne(s.sched, addr)
    ensures Swept(s, addr).panicked <==> SweepPanics(s.sched.cache, addr)
  {
  }
}
