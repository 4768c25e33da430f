/** The serial path: one request at a time, each resolved exactly once. */
module SerialLine {
  import opened Wrappers
  import opened Metering
  import opened UartMatching
  import opened MeterSystem
  import opened FrameNumbers

  /** The messages that are not plain replies to the module, in order. */
  function Requests(msgs: seq<SerialMsg>): seq<SerialMsg> {
    if msgs == [] then []
    else
      var last := msgs[|msgs| - 1];
      Requests(msgs[..|msgs| - 1]) + (if last.isResponse && !last.hasOrigin then [] else [last])
  }

  function Resolved(resolved: seq<Resolution>): seq<SerialMsg> {
    seq(|resolved|, i requires 0 <= i < |resolved| => resolved[i].msg)
  }

  /** The request being waited for that is neither answered nor timed out. */
  function Open(s: System): seq<SerialMsg> {
    if s.awaiting.Some? && s.uart.slot.Some? then [s.awaiting.value] else []
  }

  ghost predicate SerialOk(s: System) {
    && (s.awaiting.Some? ==>
          s.awaiting.value.Waits() && (s.uart.slot.Some? ==> s.uart.slot == s.awaiting))
    && Requests(s.written) == Resolved(s.resolved) + Open(s)
    && (forall i :: 0 <= i < |s.resolved| && s.resolved[i].Delivered? ==> s.resolved[i].num == s.resolved[i].msg.num)
  }

  lemma RequestsAppend(msgs: seq<SerialMsg>, m: SerialMsg)
    ensures Requests(msgs + [m]) == Requests(msgs) + (if m.isResponse && !m.hasOrigin then [] else [m])
  {
    assert (msgs + [m])[..|msgs|] == msgs;
  }

  lemma ResolvedAppend(resolved: seq<Resolution>, r: Resolution)
    ensures Resolved(resolved + [r]) == Resolved(resolved) + [r.msg]
  {
  }

  /** The open request is resolved. */
  lemma SerialResolved(s: System, s': System, r: Resolution)
    requires SerialOk(s) && s.awaiting == Some(r.msg) && s.uart.slot == s.awaiting
    requires r.Delivered? ==> r.num == r.msg.num
    requires s'.written == s.written && s'.resolved == s.resolved + [r] && s'.uart.slot.None?
    requires s'.awaiting == s.awaiting || s'.awaiting.None?
    ensures SerialOk(s')
  {
    ResolvedAppend(s.resolved, r);
  }

  lemma SerialWrote(s: System)
    requires SerialOk(s) && s.awaiting.None? && s.inbox != []
    ensures SerialOk(SerialWritten(s))
  {
    RequestsAppend(s.written, s.inbox[0]);
  }

  /** Nothing is resolved or written, and what is open stays so. */
  lemma SerialQuiet(s: System, s': System)
    requires SerialOk(s) && s'.written == s.written && s'.resolved == s.resolved && Open(s') == Open(s)
    requires s'.awaiting.None? || (s'.awaiting == s.awaiting && (s'.uart.slot.Some? ==> s'.uart.slot == s.uart.slot))
    ensures SerialOk(s')
  {
  }

  lemma SlotUntouched(cfg: Config, s: System, step: Step)
    requires Enabled(s, step) && !step.SerialWrite? && !(step.SerialEnd? && s.uart.slot.Some?)
    requires !(step.Receive? && Route(s.uart, step.isReport, step.num).ToSerial? && s.awaiting.Some?)
    ensures var s' := Apply(cfg, s, step);
            && s'.written == s.written && s'.resolved == s.resolved && Open(s') == Open(s)
            && (s'.awaiting.None?
                || (s'.awaiting == s.awaiting && (s'.uart.slot.Some? ==> s'.uart.slot == s.uart.slot)))
  {
    hide Arrived, Finished, Swept, Aged;
    if LocksScheduler(step) {
      SchedulerOnly(cfg, s, step);
    }
  }

  lemma SerialKept(cfg: Config, s: System, step: Step)
    requires SerialOk(s) && Enabled(s, step)
    ensures SerialOk(Apply(cfg, s, step))
  {
    var s' := Apply(cfg, s, step);
    if step.SerialWrite? {
      SerialWrote(s);
    } else if step.SerialEnd? && s.uart.slot.Some? {
      SerialResolved(s, s', Expired(s.uart.slot.value));
    } else if step.Receive? && Route(s.uart, step.isReport, step.num).ToSerial? && s.awaiting.Some? {
      SerialResolved(s, s', Delivered(s.uart.slot.value, step.num));
    } else {
      SlotUntouched(cfg, s, step);
      SerialQuiet(s, s');
    }
  }

  /** In every run, the requests the serial thread wrote are resolved one by one in the order
      written, each once: by a frame with its own number or by its timeout. At most the last
      is open, exactly while the thread waits with the slot occupied, and none is when the
      thread writes the next message. */
  lemma {:induction false} ResolvedExactlyOnce(cfg: Config, steps: seq<Step>)
    requires Possible(cfg, steps)
    ensures SerialOk(Run(cfg, steps))
    ensures Enabled(Run(cfg, steps), SerialWrite) ==>
              Requests(Run(cfg, steps).written) == Resolved(Run(cfg, steps).resolved)
    decreases |steps|
  {
    hide Apply;
    if steps != [] {
      var prefix := steps[..|steps| - 1];
      ResolvedExactlyOnce(cfg, prefix);
      SerialKept(cfg, Run(cfg, prefix), steps[|steps| - 1]);
    }
  }

  /** A report of the module takes the slot or a table row exactly when the slot's message
      keeps an origin key and the report's number is that of the slot or of a row. */
  lemma ReportsConsume(cfg: Config, s: System, num: SeqNum, decodes: bool)
    requires Enabled(s, Receive(true, num, decodes))
    ensures Apply(cfg, s, Receive(true, num, decodes)).uart != s.uart <==>
            s.uart.slot.Some? && s.uart.slot.value.hasOrigin && (num in s.uart.table || num == s.uart.slot.value.num)
    ensures Apply(cfg, s, Receive(true, num, decodes)).uart == s.uart ==>
        Apply(cfg, s, Receive(true, num, decodes)) == s
  {
    if num in s.uart.table {
      assert num !in s.uart.table - {num};
    }
  }

  // ---- timeouts in a row ----

  /** How many requests at the end ran out of time, behind the last that was answered. */
  function InARow(resolved: seq<Resolution>): nat {
    if resolved == [] || resolved[|resolved| - 1].Delivered? then 0
    else 1 + InARow(resolved[..|resolved| - 1])
  }

  lemma InARowNext(resolved: seq<Resolution>, r: Resolution)
    ensures InARow(resolved + [r]) == if r.Delivered? then 0 else 1 + InARow(resolved)
  {
    assert (resolved + [r])[..|resolved|] == resolved;
  }

  predicate Answered(s: System) {
    s.resolved != [] && s.resolved[|s.resolved| - 1].Delivered?
  }

  /** While the answer to the open request is there and its thread not yet awake, the count is
      that of the request before. */
  predicate CountOk(s: System) {
    if s.awaiting.Some? && s.uart.slot.None? then Answered(s) else s.uart.timeouts == InARow(s.resolved) % 256
  }

  lemma ModuloNext(n: nat)
    ensures (n % 256 + 1) % 256 == (n + 1) % 256
  {
  }

  lemma CountEnds(s: System)
    requires CountOk(s) && SerialOk(s) && s.awaiting.Some?
    ensures CountOk(SerialEnded(s))
  {
    if s.uart.slot.Some? {
      InARowNext(s.resolved, Expired(s.uart.slot.value));
      ModuloNext(InARow(s.resolved));
    }
  }

  lemma CountReceives(s: System, isReport: bool, num: SeqNum, decodes: bool)
    requires CountOk(s) && SerialOk(s)
    ensures CountOk(Received(s, isReport, num, decodes))
  {
    hide InARow;
    var s' := Received(s, isReport, num, decodes);
    if Route(s.uart, isReport, num).ToSerial? && s.awaiting.Some? {
      assert s'.resolved == s.resolved + [Delivered(s.uart.slot.value, num)];
    }
  }

  lemma CountElsewhere(cfg: Config, s: System, step: Step)
    requires Enabled(s, step) && CountOk(s) && !step.Receive? && !step.SerialEnd?
    ensures CountOk(Apply(cfg, s, step))
  {
    hide Arrived, Finished, Swept, Aged, InARow;
    if LocksScheduler(step) {
      SchedulerOnly(cfg, s, step);
    }
  }

  /** In every run, whenever no wait is open, the count of timeouts is the number of requests
      that ran out of time since the last that was answered, modulo 256; so it is zero right
      after an answered wait. */
  lemma {:induction false} TimeoutsInARow(cfg: Config, steps: seq<Step>)
    requires Possible(cfg, steps)
    ensures CountOk(Run(cfg, steps))
    ensures Run(cfg, steps).awaiting.None? ==> Run(cfg, steps).uart.timeouts == InARow(Run(cfg, steps).resolved) % 256
    ensures Run(cfg, steps).awaiting.None? && Answered(Run(cfg, steps)) ==> Run(cfg, steps).uart.timeouts == 0
    decreases |steps|
  {
    hide Apply, SerialOk;
    if steps != [] {
      var prefix, step := steps[..|steps| - 1], steps[|steps| - 1];
      TimeoutsInARow(cfg, prefix);
      ResolvedExactlyOnce(cfg, prefix);
      if step.Receive? {
        assert Apply(cfg, Run(cfg, prefix), step) ==
               Received(Run(cfg, prefix), step.isReport, step.num, step.decodes) by {
          ReceiveIs(cfg, Run(cfg, prefix), step);
        }
        CountReceives(Run(cfg, prefix), step.isReport, step.num, step.decodes);
      } else if step.SerialEnd? {
        EndIs(cfg, Run(cfg, prefix));
        CountEnds(Run(cfg, prefix));
      } else {
        CountElsewhere(cfg, Run(cfg, prefix), step);
      }
    }
  }

  lemma ReceiveIs(cfg: Config, s: System, step: Step)
    requires Enabled(s, step) && step.Receive?
    ensures Apply(cfg, s, step) == Received(s, step.isReport, step.num, step.decodes)
  {
  }

  lemma EndIs(cfg: Config, s: System)
    requires Enabled(s, SerialEnd)
    ensures s.awaiting.Some? && Apply(cfg, s, SerialEnd) == SerialEnded(s)
  {
  }

  // ---- what is sent and written ----

  /** A message that is sent joins the end of the queue, with the number it was given or the next
      of the counter; only the latter counts. */
  lemma SentLast(cfg: Config, s: System, chosen: Option<SeqNum>, isResponse: bool, hasOrigin: bool)
    requires Enabled(s, SerialSend(chosen, isResponse, hasOrigin))
    ensures var s' := Apply(cfg, s, SerialSend(chosen, isResponse, hasOrigin));
            var m := s'.inbox[|s.inbox|];
            && s'.inbox == s.inbox + [m] && m.isResponse == isResponse && m.hasOrigin == hasOrigin
            && m.num == (if chosen.Some? then chosen.value else s.sched.created % 256)
            && s'.sched.created == s.sched.created + if chosen.Some? then 0 else 1
  {
  }

  /** The oldest message is written and takes the slot, whether it waits or not. */
  lemma WrittenFirst(cfg: Config, s: System)
    requires Enabled(s, SerialWrite)
    ensures var s', m := Apply(cfg, s, SerialWrite), s.inbox[0];
            && s'.inbox == s.inbox[1..] && s'.written == s.written + [m] && s'.uart.slot == Some(m)
            && s'.awaiting == (if m.isResponse && !m.hasOrigin then None else Some(m))
            && s'.uart.table == s.uart.table && s'.uart.timeouts == s.uart.timeouts
  {
  }
}
