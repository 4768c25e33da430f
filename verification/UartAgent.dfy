/** The request/response matcher of the serial line: a one-place slot for the serial
    path and a table keyed by frame sequence number for the concurrent path. */
module UartMatching {
  import opened Wrappers
  import opened Metering

  type SeqNum = n: nat | n < 256

  /** A message of the serial path. `index` is present when its frame was created as a
      request and so took a number from the frame counter; replies to the module and
      debug frames carry a sequence number chosen elsewhere. */
  datatype SerialMsg = SerialMsg(id: nat, num: SeqNum, index: Option<nat>, isResponse: bool, hasOrigin: bool) {
    /** A reply to the module is a request all the same when it keeps an origin key. */
    predicate Waits() { !(isResponse && !hasOrigin) }
  }

  datatype Uart = Uart(slot: Option<SerialMsg>, table: map<SeqNum, Outgoing>, timeouts: nat)

  /** Where a received frame goes. */
  datatype Routed = FreshReport | ToConcurrent(outgoing: Outgoing) | ToSerial(msg: SerialMsg) | Unmatched

  function Route(u: Uart, isReport: bool, num: SeqNum): Routed {
    if isReport && (u.slot.None? || !u.slot.value.hasOrigin) then FreshReport
    else if num in u.table then ToConcurrent(u.table[num])
    else if u.slot.Some? && u.slot.value.num == num then ToSerial(u.slot.value)
    else Unmatched
  }

  function AfterRoute(u: Uart, isReport: bool, num: SeqNum): Uart {
    match Route(u, isReport, num)
    case ToConcurrent(_) => u.(table := u.table - {num})
    case ToSerial(_) => u.(slot := None)
    case _ => u
  }

  /** The end of a serial wait: an occupied slot means the wait ran out. */
  function AfterWait(u: Uart): Uart {
    Uart(None, u.table, if u.slot.Some? then (u.timeouts + 1) % 256 else 0)
  }

  function AfterWrite(u: Uart, o: Outgoing, written: bool): Uart {
    if written then u.(table := u.table[o.Seq() := o]) else u
  }

  class UartAgent {
    var reqInfo: Option<SerialMsg>
    var concurrentReqInfo: map<SeqNum, Outgoing>
    var consecutiveTimeouts: nat

    constructor ()
      ensures View() == Uart(None, map[], 0)
    {
      reqInfo := None;
      concurrentReqInfo := map[];
      consecutiveTimeouts := 0;
    }

    ghost function View(): Uart
      reads this
    {
      Uart(reqInfo, concurrentReqInfo, consecutiveTimeouts)
    }

    /** The reader's lock-held region: decides who owns a received frame. */
    method Take(isReport: bool, num: SeqNum) returns (routed: Routed)
      modifies this
      ensures routed == Route(old(View()), isReport, num)
      ensures routed.FreshReport? <==> isReport && (old(reqInfo).None? || !old(reqInfo).value.hasOrigin)
      ensures routed.ToConcurrent? <==> !routed.FreshReport? && num in old(concurrentReqInfo)
      ensures routed.ToConcurrent? ==> routed.outgoing == old(concurrentReqInfo)[num]
      ensures routed.ToSerial? <==>
              !routed.FreshReport? && !routed.ToConcurrent? && old(reqInfo).Some? && old(reqInfo).value.num == num
      ensures routed.ToSerial? ==> Some(routed.msg) == old(reqInfo)
      ensures View() == AfterRoute(old(View()), isReport, num)
    {
      if isReport && (reqInfo.None? || !reqInfo.value.hasOrigin) {
        return FreshReport;
      } else if num in concurrentReqInfo {
        routed := ToConcurrent(concurrentReqInfo[num]);
        concurrentReqInfo := concurrentReqInfo - {num};
      } else if reqInfo.Some? && reqInfo.value.num == num {
        routed := ToSerial(reqInfo.value);
        reqInfo := None;
      } else {
        return Unmatched;
      }
    }

    /** Publishes a serial message in the slot; the result says whether the thread waits. */
    method BeginSerial(msg: SerialMsg) returns (waits: bool)
      modifies this`reqInfo
      ensures View() == old(View()).(slot := Some(msg))
      ensures waits == msg.Waits() && (waits <==> !msg.isResponse || msg.hasOrigin)
    {
      reqInfo := Some(msg);
      var isResponse := msg.isResponse && !msg.hasOrigin;
      waits := !isResponse;
    }

    /** The serial thread wakes with the lock held; what is still in the slot has timed out. */
    method EndSerial() returns (timedOut: Option<SerialMsg>)
      modifies this
      ensures View() == AfterWait(old(View()))
      ensures timedOut == old(reqInfo) && reqInfo == None && concurrentReqInfo == old(concurrentReqInfo)
      ensures consecutiveTimeouts == if timedOut.Some? then (old(consecutiveTimeouts) + 1) % 256 else 0
    {
      timedOut := reqInfo;
      reqInfo := None;
      if timedOut.Some? {
        consecutiveTimeouts := (consecutiveTimeouts + 1) % 256;
      } else {
        consecutiveTimeouts := 0;
      }
    }

    method WriteConcurrent(o: Outgoing, written: bool)
      modifies this`concurrentReqInfo
      ensures View() == AfterWrite(old(View()), o, written)
    {
      if written {
        concurrentReqInfo := concurrentReqInfo[o.Seq() := o];
      }
    }

    /** The timer of an entry takes out what is there; if nothing is, it panics. */
    method TakeTimedOut(num: SeqNum) returns (o: Option<Outgoing>)
      modifies this`concurrentReqInfo
      ensures o.Some? <==> num in old(concurrentReqInfo)
      ensures o.Some? ==> o.value == old(concurrentReqInfo)[num]
      ensures concurrentReqInfo == old(concurrentReqInfo) - {num}
    {
      o := if num in concurrentReqInfo then Some(concurrentReqInfo[num]) else None;
      concurrentReqInfo := concurrentReqInfo - {num};
    }
  }
}
