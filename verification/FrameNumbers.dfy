/** Frame numbers: eight bits of an unbounded count. Fewer than 256 request frames during
    the life of any outstanding one keep the numbers apart. */
module FrameNumbers {
  import opened Wrappers
  import opened Metering
  import opened UartMatching
  import opened MeterSystem
  import opened MeterInvariant
  import opened ExactlyOnce
  import opened MeterOrder

  predicate MadeForMeter(s: System, o: Outgoing) {
    o.index < |s.makers| && s.makers[o.index] == ForMeter(o.req)
  }

  predicate MadeForSerial(s: System, m: SerialMsg) {
    m.index.Some? ==>
      m.index.value < |s.makers| && s.makers[m.index.value] == ForSerial(m.id) && m.num == m.index.value % 256
  }

  ghost predicate NumbersOk(s: System) {
    && |s.makers| == s.sched.created
    && (forall i :: 0 <= i < |s.sched.channel| ==> MadeForMeter(s, s.sched.channel[i]))
    && (forall n :: n in s.uart.table ==> MadeForMeter(s, s.uart.table[n]))
    && (forall i :: 0 <= i < |s.inbox| ==> MadeForSerial(s, s.inbox[i]))
    && (s.uart.slot.Some? ==> MadeForSerial(s, s.uart.slot.value))
  }

  /** Serial messages are numbered in the order they are sent; the slot holds the last one
      written. */
  ghost predicate SerialIdsOk(s: System) {
    && s.serials == |s.written| + |s.inbox|
    && (forall i :: 0 <= i < |s.written| ==> s.written[i].id == i)
    && (forall i :: 0 <= i < |s.inbox| ==> s.inbox[i].id == |s.written| + i)
    && (s.uart.slot.Some? ==> s.written != [] && s.uart.slot.value == s.written[|s.written| - 1])
  }

  /** The log of makers only grows, and what a state holds was held or is just made. */
  lemma NumbersLaunch(s: System, s': System, r: Request)
    requires NumbersOk(s)
    requires s'.makers == s.makers + [ForMeter(r)] && s'.sched.created == s.sched.created + 1
    requires s'.sched.channel == s.sched.channel + [Outgoing(r, s.sched.created)]
    requires s'.uart == s.uart && s'.inbox == s.inbox
    ensures NumbersOk(s')
  {
  }

  lemma NumbersSent(s: System, chosen: Option<SeqNum>, isResponse: bool, hasOrigin: bool)
    requires NumbersOk(s)
    ensures NumbersOk(SerialSent(s, chosen, isResponse, hasOrigin))
  {
  }

  lemma NumbersMoved(s: System, s': System)
    requires NumbersOk(s) && s'.makers == s.makers && s'.sched.created == s.sched.created
    requires forall i :: 0 <= i < |s'.sched.channel| ==> s'.sched.channel[i] in s.sched.channel
    requires forall n :: n in s'.uart.table ==>
        s'.uart.table[n] in s.uart.table.Values || s'.uart.table[n] in s.sched.channel
    requires forall i :: 0 <= i < |s'.inbox| ==> s'.inbox[i] in s.inbox
    requires s'.uart.slot.None? || s'.uart.slot == s.uart.slot || s'.uart.slot.value in s.inbox
    ensures NumbersOk(s')
  {
  }

  lemma NumbersSame(s: System, s': System)
    requires NumbersOk(s) && s'.makers == s.makers && s'.sched == s.sched && s'.uart == s.uart && s'.inbox == s.inbox
    ensures NumbersOk(s')
  {
  }

  lemma NumbersRelaunch(s: System, addr: Addr)
    requires NumbersOk(s)
    ensures NumbersOk(Relaunched(s, addr))
  {
    hide NumbersOk, Request.Sendable;
    var queue := Queue(s.sched.cache, addr);
    if queue != [] && queue[0].Sendable() {
      NumbersLaunch(s, Relaunched(s, addr), queue[0]);
    } else {
      NumbersMoved(s, Relaunched(s, addr));
    }
  }

  lemma NumbersArrived(cfg: Config, s: System, addr: Addr, payload: Payload, metering: bool, now: int)
    requires NumbersOk(s)
    ensures NumbersOk(Arrived(cfg, s, addr, payload, metering, now))
  {
    hide NumbersOk, Decide;
    var r, s' := Request(s.arrivals, addr, payload), Arrived(cfg, s, addr, payload, metering, now);
    if Decide(cfg, s.sched.cache, r, metering) == Launch {
      NumbersLaunch(s, s', r);
    } else {
      NumbersMoved(s, s');
    }
  }

  lemma NumbersFinished(s: System, index: nat)
    requires NumbersOk(s) && index < |s.hand|
    ensures NumbersOk(Finished(s, index))
  {
    hide NumbersOk, AfterReport, Request.Sendable;
    var addr := s.hand[index].req.addr;
    NumbersRelaunch(s, addr);
    NumbersSame(if Reportable(s.hand[index].kind) && !s.panicked then Relaunched(s, addr) else s,
                Finished(s, index));
  }

  lemma NumbersSwept(s: System, addr: Addr)
    requires NumbersOk(s)
    ensures NumbersOk(Swept(s, addr))
  {
    NumbersRelaunch(s, addr);
  }

  lemma NumbersWritten(s: System, ok: bool)
    requires NumbersOk(s) && s.sched.channel != []
    ensures NumbersOk(ConcurrentWritten(s, ok))
  {
    NumbersMoved(s, ConcurrentWritten(s, ok));
  }

  lemma NumbersReceived(s: System, isReport: bool, num: SeqNum, decodes: bool)
    requires NumbersOk(s)
    ensures NumbersOk(Received(s, isReport, num, decodes))
  {
    NumbersMoved(s, Received(s, isReport, num, decodes));
  }

  lemma NumbersSerialWritten(s: System)
    requires NumbersOk(s) && s.inbox != []
    ensures NumbersOk(SerialWritten(s))
  {
    NumbersMoved(s, SerialWritten(s));
  }

  lemma NumbersTaken(s: System, num: SeqNum, kind: Kind)
    requires NumbersOk(s) && num in s.uart.table
    ensures NumbersOk(TakenFromTable(s, num, kind))
  {
    NumbersMoved(s, TakenFromTable(s, num, kind));
  }

  lemma NumbersKept(cfg: Config, s: System, step: Step)
    requires NumbersOk(s) && Enabled(s, step)
    ensures NumbersOk(Apply(cfg, s, step))
  {
    hide NumbersOk, Arrived, Finished, Swept, SerialSent, ConcurrentWritten, Received, TakenFromTable, SerialWritten;
    match step
    case Arrive(addr, payload, metering, now) => NumbersArrived(cfg, s, addr, payload, metering, now);
    case Finish(index) => NumbersFinished(s, index);
    case Sweep(addr) => NumbersSwept(s, addr);
    case SerialSend(chosen, isResponse, hasOrigin) => NumbersSent(s, chosen, isResponse, hasOrigin);
    case ConcurrentWrite(ok) => NumbersWritten(s, ok);
    case Receive(isReport, num, decodes) => NumbersReceived(s, isReport, num, decodes);
    case TimerFires(num) => NumbersTaken(s, num, Timeout);
    case TimerMisses(_) => NumbersMoved(s, Apply(cfg, s, step));
    case ReaderEnds => NumbersMoved(s, Apply(cfg, s, step));
    case SerialWrite => NumbersSerialWritten(s);
    case SerialEnd => NumbersMoved(s, SerialEnded(s));
    case Age(now) => NumbersMoved(s, Aged(cfg, s, now));
  }

  lemma SerialIdsQuiet(cfg: Config, s: System, step: Step)
    requires Enabled(s, step) && !step.SerialSend? && !step.SerialWrite?
    ensures var s' := Apply(cfg, s, step);
            && s'.serials == s.serials && s'.written == s.written && s'.inbox == s.inbox
            && (s'.uart.slot.None? || s'.uart.slot == s.uart.slot)
  {
    hide Arrived, Finished, Swept, Aged;
    if LocksScheduler(step) {
      SchedulerOnly(cfg, s, step);
    }
  }

  lemma SerialIdsKept(cfg: Config, s: System, step: Step)
    requires SerialIdsOk(s) && Enabled(s, step)
    ensures SerialIdsOk(Apply(cfg, s, step))
  {
    var s' := Apply(cfg, s, step);
    if !step.SerialSend? && !step.SerialWrite? {
      SerialIdsQuiet(cfg, s, step);
    }
  }

  lemma {:induction false} NumbersHold(cfg: Config, steps: seq<Step>)
    requires Possible(cfg, steps)
    ensures NumbersOk(Run(cfg, steps)) && SerialIdsOk(Run(cfg, steps))
    decreases |steps|
  {
    if steps != [] {
      var prefix := steps[..|steps| - 1];
      NumbersHold(cfg, prefix);
      NumbersKept(cfg, Run(cfg, prefix), steps[|steps| - 1]);
      SerialIdsKept(cfg, Run(cfg, prefix), steps[|steps| - 1]);
    }
  }

  // ---- live numbers ----

  /** A position that holds a request frame not yet answered. */
  datatype Holder = FromChannel(i: nat) | FromTable(num: SeqNum) | FromInbox(i: nat) | FromSlot

  /** The count at which the frame a holder holds was created. */
  function NumberAt(s: System, h: Holder): Option<nat> {
    match h
    case FromChannel(i) => if i < |s.sched.channel| then Some(s.sched.channel[i].index) else None
    case FromTable(n) => if n in s.uart.table then Some(s.uart.table[n].index) else None
    case FromInbox(i) => if i < |s.inbox| then s.inbox[i].index else None
    case FromSlot => if s.uart.slot.Some? then s.uart.slot.value.index else None
  }

  /** Fewer than 256 request frames were created after any frame still outstanding. */
  ghost predicate InWindow(s: System) {
    forall h: Holder :: NumberAt(s, h).Some? ==> s.sched.created - NumberAt(s, h).value <= 256
  }

  /** No two holders hold the same frame. */
  lemma OneFrameEach(s: System, h: Holder, h': Holder)
    requires PlacesOk(s) && NumbersOk(s) && SerialIdsOk(s)
    requires NumberAt(s, h).Some? && NumberAt(s, h) == NumberAt(s, h')
    ensures h == h'
  {
    if h.FromChannel? || h.FromTable? {
      var spot := if h.FromChannel? then ChannelAt(h.i) else TableAt(h.num);
      var spot' := if h'.FromChannel? then ChannelAt(h'.i) else if h'.FromTable? then TableAt(h'.num) else spot;
      assert h'.FromChannel? || h'.FromTable?;
      OneHolder(s, At(s, spot).value.addr, spot, spot');
    }
  }

  lemma NumbersBounded(s: System, h: Holder)
    requires NumbersOk(s) && NumberAt(s, h).Some?
    ensures NumberAt(s, h).value < s.sched.created
  {
  }

  lemma LowBytes(k: nat, k': nat, created: nat)
    requires k < created && k' < created && k != k' && created - k <= 256 && created - k' <= 256
    ensures k % 256 != k' % 256
  {
  }

  /** Inside the window, two outstanding request frames never carry the same number. */
  lemma DistinctNumbers(cfg: Config, steps: seq<Step>, h: Holder, h': Holder)
    requires Possible(cfg, steps) && InWindow(Run(cfg, steps)) && h != h'
    requires NumberAt(Run(cfg, steps), h).Some? && NumberAt(Run(cfg, steps), h').Some?
    ensures NumberAt(Run(cfg, steps), h).value % 256 != NumberAt(Run(cfg, steps), h').value % 256
  {
    var s := Run(cfg, steps);
    InvHolds(cfg, steps);
    NumbersHold(cfg, steps);
    if NumberAt(s, h) == NumberAt(s, h') {
      OneFrameEach(s, h, h');
    }
    NumbersBounded(s, h);
    NumbersBounded(s, h');
    LowBytes(NumberAt(s, h).value, NumberAt(s, h').value, s.sched.created);
  }

  /** Inside the window a frame with the number of an outstanding request resolves the
      request that frame was made for, and a write displaces nothing. */
  lemma NoMisrouting(cfg: Config, steps: seq<Step>, h: Holder)
    requires Possible(cfg, steps) && InWindow(Run(cfg, steps)) && NumberAt(Run(cfg, steps), h).Some?
    ensures var s := Run(cfg, steps);
            var k := NumberAt(s, h).value;
            k < |s.makers| &&
            match h
            case FromTable(_) =>
              var routed := Route(s.uart, false, k % 256);
              routed.ToConcurrent? && s.makers[k] == ForMeter(routed.outgoing.req)
            case FromSlot =>
              var routed := Route(s.uart, false, k % 256);
              routed.ToSerial? && s.makers[k] == ForSerial(routed.msg.id)
            case FromChannel(i) => s.sched.channel[i].Seq() !in s.uart.table
            case FromInbox(_) => s.makers[k].ForSerial?
  {
    hide InWindow, Run, Possible, LedgerOk, Conserved, NumberedOk, QueueOk, FlagsOk;
    var s := Run(cfg, steps);
    InvHolds(cfg, steps);
    NumbersHold(cfg, steps);
    var num: SeqNum := NumberAt(s, h).value % 256;
    if num in s.uart.table && !h.FromTable? {
      DistinctNumbers(cfg, steps, h, FromTable(num));
    }
  }

  // ---- runs that lose nothing ----

  /** Messages can be sent, writes succeed, replies decode and no report of the module
      consumes an entry. */
  predicate Clean(s: System, step: Step)
    requires Enabled(s, step)
  {
    && (step.Arrive? ==> Request(s.arrivals, step.addr, step.payload).Sendable())
    && (step.ConcurrentWrite? ==> step.ok) && !step.TimerMisses?
    && (step.Finish? ==> Reportable(s.hand[step.index].kind))
  }

  ghost predicate CleanInWindow(cfg: Config, steps: seq<Step>)
    requires Possible(cfg, steps)
    decreases |steps|
  {
    steps == [] ||
    var prefix := steps[..|steps| - 1];
    CleanInWindow(cfg, prefix) && InWindow(Run(cfg, prefix)) && Clean(Run(cfg, prefix), steps[|steps| - 1])
  }

  ghost predicate QueuesSendable(cache: Cache) {
    forall a, i :: 0 <= i < |Queue(cache, a)| ==> Queue(cache, a)[i].Sendable()
  }

  /** What the queue of an address becomes: as it was, without its head, or with the arrival. */
  lemma QueueAfter(cfg: Config, s: System, step: Step, a: Addr)
    requires Enabled(s, step)
    ensures var queue, queue' := Queue(s.sched.cache, a), Queue(Apply(cfg, s, step).sched.cache, a);
            || queue' == queue || (queue != [] && queue' == queue[1..])
            || (step.Arrive? && queue' == queue + [Request(s.arrivals, step.addr, step.payload)])
  {
    hide Arrived, Relaunched, Queue, Aged;
    match step
    case Arrive(addr, payload, metering, now) =>
      ArrivedLogs(cfg, s, Request(s.arrivals, addr, payload), metering, now);
    case Finish(index) =>
      RelaunchedLogs(Handed(s, index), s.hand[index].req.addr);
    case Sweep(addr) =>
      RelaunchedLogs(s, addr);
    case _ =>
      QuietStep(cfg, s, step, a);
  }

  lemma CleanNeverPanics(cfg: Config, s: System, step: Step)
    requires QueuesSendable(s.sched.cache) && Enabled(s, step) && Clean(s, step)
    ensures !Panics(cfg, s, step)
  {
    hide Request.Sendable, ActiveAddrs;
  }

  lemma QueuesSendableKept(cfg: Config, s: System, step: Step)
    requires QueuesSendable(s.sched.cache) && Enabled(s, step) && Clean(s, step)
    ensures QueuesSendable(Apply(cfg, s, step).sched.cache)
  {
    hide Request.Sendable, Apply, Queue;
    var cache' := Apply(cfg, s, step).sched.cache;
    forall a, i | 0 <= i < |Queue(cache', a)| ensures Queue(cache', a)[i].Sendable() {
      QueueAfter(cfg, s, step, a);
    }
  }

  /** Under these hypotheses nothing is lost, so waiting means a request in progress and
      every accepted request is queued, in progress or reported, once. */
  lemma {:induction false} CleanRunsLoseNothing(cfg: Config, steps: seq<Step>)
    requires Possible(cfg, steps) && CleanInWindow(cfg, steps)
    ensures LosesNothing(cfg, steps) && QueuesSendable(Run(cfg, steps).sched.cache)
    decreases |steps|
  {
    hide Apply, Panics;
    if steps != [] {
      var prefix, step := steps[..|steps| - 1], steps[|steps| - 1];
      CleanRunsLoseNothing(cfg, prefix);
      QueuesSendableKept(cfg, Run(cfg, prefix), step);
      CleanNeverPanics(cfg, Run(cfg, prefix), step);
      if step.ConcurrentWrite? {
        NoMisrouting(cfg, prefix, FromChannel(0));
      }
    }
  }

  // ---- outside the window ----

  /** Writes succeed, no timer misses its entry, and no reply is handled. */
  predicate Harmless(step: Step) {
    !step.Finish? && !step.TimerMisses? && (step.ConcurrentWrite? ==> step.ok)
  }

  predicate AllHarmless(steps: seq<Step>) {
    forall i :: 0 <= i < |steps| ==> Harmless(steps[i])
  }

  lemma {:induction false} ExtendHarmless(cfg: Config, steps: seq<Step>, step: Step) returns (steps': seq<Step>)
    requires Possible(cfg, steps) && Enabled(Run(cfg, steps), step) && AllHarmless(steps) && Harmless(step)
    ensures Possible(cfg, steps') && Run(cfg, steps') == Apply(cfg, Run(cfg, steps), step) && AllHarmless(steps')
  {
    steps' := Extend(cfg, steps, step);
  }

  lemma {:induction false} SendMany(cfg: Config, steps: seq<Step>, n: nat) returns (steps': seq<Step>)
    requires Possible(cfg, steps) && AllHarmless(steps)
    ensures Possible(cfg, steps') && AllHarmless(steps')
    ensures var s, s' := Run(cfg, steps), Run(cfg, steps');
            s'.sched == s.sched.(created := s.sched.created + n) && s'.uart == s.uart && s'.lost == s.lost
            && s'.arrivals == s.arrivals && s'.panicked == s.panicked && s'.stopped == s.stopped
    decreases n
  {
    if n == 0 {
      steps' := steps;
    } else {
      steps' := SendMany(cfg, steps, n - 1);
      steps' := ExtendHarmless(cfg, steps', SerialSend(None, false, false));
    }
  }

  lemma FirstArrives(cfg: Config)
    requires cfg == Config(2, 1, 0)
    ensures var s := Arrived(cfg, Initial(), METER, PAYLOAD, false, 0);
            && s.sched == Scheduler(map[METER := SampleCache(true, [], 0)], 1,
                [Outgoing(Request(0, METER, PAYLOAD), 0)])
            && s.uart == Initial().uart && s.lost == [] && s.arrivals == 1 && !s.panicked && !s.stopped
  {
    hide Request.Sendable;
    SampleIsSendable(0);
    assert ActiveAddrs(map[]) == {};
    assert Decide(cfg, map[], Request(0, METER, PAYLOAD), false) == Launch;
  }

  lemma FirstIsWritten(s: System)
    requires s.sched.channel == [Outgoing(Request(0, METER, PAYLOAD), 0)] && s.uart == Initial().uart
    ensures var s' := ConcurrentWritten(s, true);
            && s'.sched == s.sched.(channel := []) && s'.uart.table == map[0 := Outgoing(Request(0, METER, PAYLOAD), 0)]
            && s'.lost == s.lost && s'.arrivals == s.arrivals && s'.panicked == s.panicked && s'.stopped == s.stopped
  {
  }

  /** One meter's request, written and so in row 0 of the table. */
  lemma FirstWritten(cfg: Config) returns (steps: seq<Step>)
    requires cfg == Config(2, 1, 0)
    ensures Possible(cfg, steps) && AllHarmless(steps)
    ensures var s := Run(cfg, steps);
            && s.sched == Scheduler(map[METER := SampleCache(true, [], 0)], 1, [])
            && s.uart.table == map[0 := Outgoing(Request(0, METER, PAYLOAD), 0)]
            && s.lost == [] && s.arrivals == 1 && !s.panicked && !s.stopped
  {
    hide Arrived, ConcurrentWritten;
    FirstArrives(cfg);
    steps := ExtendHarmless(cfg, [], Arrive(METER, PAYLOAD, false, 0));
    FirstIsWritten(Run(cfg, steps));
    steps := ExtendHarmless(cfg, steps, ConcurrentWrite(true));
  }

  lemma SecondDisplaces(cfg: Config, s: System)
    requires cfg == Config(2, 1, 0) && s.lost == [] && s.arrivals == 1 && !s.panicked && !s.stopped
    requires s.sched == Scheduler(map[METER := SampleCache(true, [], 0)], 256, [])
    requires s.uart.table == map[0 := Outgoing(Request(0, METER, PAYLOAD), 0)]
    ensures var s' := Arrived(cfg, s, OTHER_METER, PAYLOAD, false, 0);
            s'.sched.channel != [] && !s'.stopped && ConcurrentWritten(s', true).lost == [Request(0, METER, PAYLOAD)]
  {
    hide Request.Sendable;
    SampleIsSendable(1);
    assert ActiveAddrs(s.sched.cache) == {METER};
    assert Decide(cfg, s.sched.cache, Request(1, OTHER_METER, PAYLOAD), false) == Launch;
  }

  /** Outside the window a live entry is displaced: 255 other request frames after the one
      of one meter, then one for another, and the request of the first is lost. */
  lemma {:induction false} NumbersWrapAround(cfg: Config) returns (steps: seq<Step>)
    requires cfg == Config(2, 1, 0)
    ensures Possible(cfg, steps) && AllHarmless(steps)
    ensures Run(cfg, steps).lost == [Request(0, METER, PAYLOAD)]
  {
    hide Arrived, ConcurrentWritten;
    steps := FirstWritten(cfg);
    steps := SendMany(cfg, steps, 255);
    SecondDisplaces(cfg, Run(cfg, steps));
    steps := ExtendHarmless(cfg, steps, Arrive(OTHER_METER, PAYLOAD, false, 0));
    steps := ExtendHarmless(cfg, steps, ConcurrentWrite(true));
  }
}
