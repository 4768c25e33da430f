/** Upgrading the module or its meters from a file: the transfer, segment by segment, each
    after the last was acknowledged, and the wait for the upgrade itself. */
module FileUpgrade {
  import opened Wrappers
  import opened Bytes
  import opened Chunking
  import AppData
  import UserData
  import Frame

  datatype FileFlag = Clear | Module | MasterAndSlave | Slave

  datatype Status = Idle | Upgrading | Finished

  datatype UpgradeResult = Success | FileError | TransferFailed | OtherError

  const PREFIX_LEN := 26
  const FILE_CHECK_ERROR := 0xFFFF_FFFF
  const WAIT_TIME := 30

  // ---- segments ----

  datatype Segment = Segment(flag: FileFlag, attr: byte, total: u16, offset: nat, data: seq<byte>)

  function FlagByte(flag: FileFlag): byte {
    match flag
    case Clear => 0
    case Module => 3
    case MasterAndSlave => 7
    case Slave => 8
  }

  /** The number of segments keeps sixteen bits; zero of them makes the next line underflow. */
  function NewSegment(flag: FileFlag, total: u16, offset: nat, data: seq<byte>): Option<Segment> {
    if total == 0 then None
    else
      var position := offset % 0x1_0000_0000;
      Some(Segment(flag, if position == total - 1 then 1 else 0, total, position, data))
  }

  lemma NewSegmentIs(flag: FileFlag, total: u16, offset: nat, data: seq<byte>)
    ensures NewSegment(flag, total, offset, data).Some? <==> total > 0
  {
  }

  function ToLe32(n: nat): seq<byte>
    requires n < 0x1_0000_0000
  {
    ToLe16(n % 0x1_0000) + ToLe16(n / 0x1_0000)
  }

  function Payload(s: Segment): seq<byte>
    requires s.offset < 0x1_0000_0000
  {
    [FlagByte(s.flag), s.attr, 0] + ToLe16(s.total) + ToLe32(s.offset) + ToLe16(|s.data| % 0x1_0000) + s.data
  }

  function AppOf(s: Segment): AppData.App
    requires s.offset < 0x1_0000_0000
  {
    AppData.NewApp(AppData.FileTransfer, 1, Some(Payload(s))).value
  }

  function FrameOf(num: byte, s: Segment): Frame.Frame
    requires s.offset < 0x1_0000_0000
  {
    Frame.New(false, num, None, AppOf(s))
  }

  /** A segment's frame has the size of its data and a fixed prefix, which the module's
      limit leaves room for, and its receiver gets the data back at the end of the unit. */
  lemma {:induction false} SegmentArrives(num: byte, s: Segment, maxPacket: u16)
    requires s.offset < 0x1_0000_0000 && PREFIX_LEN < maxPacket && |s.data| <= maxPacket - PREFIX_LEN
    ensures var bytes := Frame.Encode(FrameOf(num, s));
            && |bytes| == PREFIX_LEN + |s.data| <= maxPacket
            && FrameOf(num, s).length == |bytes|
            && Frame.Decode(bytes) == Good(FrameOf(num, s))
    ensures var data := FrameOf(num, s).user.app.data;
            data.Some? && |data.value| >= 11 && data.value[11..] == s.data
  {
    var app := AppOf(s);
    AppData.NewAppCanonical(AppData.FileTransfer, 1, Some(Payload(s)));
    Frame.NewFrame(false, num, None, app);
    Frame.FrameRoundTrip(false, num, None, app);
    PayloadData(s);
  }

  lemma PayloadData(s: Segment)
    requires s.offset < 0x1_0000_0000
    ensures |Payload(s)| == 11 + |s.data| && Payload(s)[11..] == s.data
  {
  }

  // ---- the transfer ----

  /** The size of a file in segments, rounded up. */
  function Count(content: seq<byte>, maxPacket: u16): (n: nat)
    requires maxPacket > PREFIX_LEN
    ensures n == |Chunks(content, maxPacket - PREFIX_LEN)|
  {
    ChunksCount(content, maxPacket - PREFIX_LEN);
    (|content| + (maxPacket - PREFIX_LEN) - 1) / (maxPacket - PREFIX_LEN)
  }

  /** All requests of a file, in order. */
  function Requests(flag: FileFlag, content: seq<byte>, maxPacket: u16): (requests: seq<Segment>)
    requires maxPacket > PREFIX_LEN && Count(content, maxPacket) % 0x1_0000 != 0
    ensures |requests| == Count(content, maxPacket)
  {
    var chunks := Chunks(content, maxPacket - PREFIX_LEN);
    seq(|chunks|, i requires 0 <= i < |chunks| => NewSegment(flag, |chunks| % 0x1_0000, i, chunks[i]).value)
  }

  /** What ended a wait: an acknowledged number, or no valid answer. */
  datatype Answer = Ack(segment: nat) | NoAck

  predicate Expected(i: nat, a: Answer) {
    a == Ack(i) && i != FILE_CHECK_ERROR
  }

  lemma ExpectedIs(i: nat, a: Answer)
    ensures Expected(i, a) <==> a == Ack(i) && a != Ack(FILE_CHECK_ERROR)
  {
  }

  /** How many waits in a row brought the expected answer. */
  function Matched(results: seq<Answer>, n: nat): (m: nat)
    requires n <= |results|
    ensures m <= n && (m < n ==> !Expected(m, results[m]))
    ensures forall i :: 0 <= i < m ==> Expected(i, results[i])
  {
    MatchedFrom(results, n, 0)
  }

  function MatchedFrom(results: seq<Answer>, n: nat, i: nat): (m: nat)
    requires i <= n <= |results|
    ensures i <= m <= n && (m < n ==> !Expected(m, results[m]))
    ensures forall k :: i <= k < m ==> Expected(k, results[k])
    decreases n - i
  {
    if i < n && Expected(i, results[i]) then MatchedFrom(results, n, i + 1) else i
  }

  lemma MatchedIs(results: seq<Answer>, n: nat, m: nat)
    requires m <= n <= |results| && (m < n ==> !Expected(m, results[m]))
    requires forall i :: 0 <= i < m ==> Expected(i, results[i])
    ensures Matched(results, n) == m
  {
  }

  lemma RequestsNext(flag: FileFlag, content: seq<byte>, maxPacket: u16, i: nat)
    requires maxPacket > PREFIX_LEN && Count(content, maxPacket) % 0x1_0000 != 0 && i < Count(content, maxPacket)
    ensures var chunks := Chunks(content, maxPacket - PREFIX_LEN);
            var requests := Requests(flag, content, maxPacket);
            requests[..i + 1] == requests[..i] + [NewSegment(flag, |chunks| % 0x1_0000, i, chunks[i]).value]
  {
  }

  // ---- the place for a result ----

  /** Something that sets the result: an answer to a request or the end of its time, or the
      module's report of itself. `ends` if it says that an upgrade is over. */
  datatype Write = Write(value: Answer, ends: bool)

  const REPORT := Write(Ack(0), true)

  /** How many results were asked for and reported by the module, and how many of them were
      taken by a wait and overwritten by the next. */
  datatype History = History(asked: nat, reported: nat, taken: nat, overwritten: nat)

  /** The result, the answers that are still on their way to it, whether an upgrade is under
      way, and whether its lock is gone for ever. */
  datatype Place = Place(result: Option<Answer>, onTheWay: seq<Write>, upgrading: bool, dead: bool, history: History)

  const START := Place(None, [], false, false, History(0, 0, 0, 0))

  /** What was asked for or reported and is neither taken nor overwritten. */
  function Left(p: Place): nat {
    (if p.result.Some? then 1 else 0) + |p.onTheWay|
  }

  function Min(m: nat, n: nat): nat {
    if m < n then m else n
  }

  /** The next `k` answers, with the report behind the first `at` of them. */
  function Window(onTheWay: seq<Write>, k: nat, at: Option<nat>): (writes: seq<Write>)
    ensures |writes| == Min(k, |onTheWay|) + if at.Some? then 1 else 0
  {
    var answers := onTheWay[..Min(k, |onTheWay|)];
    match at
    case None => answers
    case Some(n) => answers[..Min(n, |answers|)] + [REPORT] + answers[Min(n, |answers|)..]
  }

  predicate Ends(writes: seq<Write>) {
    exists i :: 0 <= i < |writes| && writes[i].ends
  }

  /** While the lock is free, each write replaces the one before. */
  function Deliver(p: Place, k: nat, at: Option<nat>): (p': Place)
    ensures p'.upgrading == p.upgrading && p'.dead == p.dead
    ensures Window(p.onTheWay, k, at) != [] ==> p'.result.Some?
  {
    var writes := Window(p.onTheWay, k, at);
    if writes == [] then p
    else
      p.(result := Some(writes[|writes| - 1].value), onTheWay := p.onTheWay[Min(k, |p.onTheWay|)..],
         history := p.history.(reported := p.history.reported + (if at.Some? then 1 else 0),
                               overwritten := p.history.overwritten + |writes| - (if p.result.Some? then 0 else 1)))
  }

  function Ask(p: Place, answer: Write): Place {
    p.(onTheWay := p.onTheWay + [answer], history := p.history.(asked := p.history.asked + 1))
  }

  function Take(p: Place): Place {
    p.(result := None, history := p.history.(taken := p.history.taken + 1))
  }

  function AtLeastOne(k: nat): nat {
    if k == 0 then 1 else k
  }

  /** A wait for a result: one that is there ends it at once, with the lock held; else `k`
      writes come before the thread has the lock again. */
  function Wait(p: Place, k: nat): (p': Place)
    requires p.result.Some? || p.onTheWay != []
    ensures p'.result.Some? && p'.upgrading == p.upgrading && p'.dead == p.dead
  {
    if p.result.Some? then p else Deliver(p, AtLeastOne(k), None)
  }

  function Exchange(p: Place, answer: Answer, k: nat): (r: (Place, Answer))
    ensures r.0.upgrading == p.upgrading && r.0.dead == p.dead
  {
    var w := Wait(Ask(p, Write(answer, false)), k);
    (Take(w), w.result.value)
  }

  datatype Verdict = Transferred | Failed(reason: UpgradeResult) | Panic | AlreadyUpgrading | Blocked

  function Reason(a: Answer): UpgradeResult {
    if a == Ack(FILE_CHECK_ERROR) then FileError else TransferFailed
  }

  /** The segments do not fit a packet, or their number is truncated to zero. */
  predicate Unsendable(content: seq<byte>, maxPacket: u16) {
    maxPacket <= PREFIX_LEN || (content != [] && Count(content, maxPacket) % 0x1_0000 == 0)
  }

  /** The place after the waits, how many brought what was expected, and what the one after
      them brought. */
  datatype Sent = Sent(place: Place, matched: nat, unexpected: Option<Answer>)

  function Sending(p: Place, answers: seq<Answer>, wakes: seq<nat>, n: nat, i: nat): (sent: Sent)
    requires i <= n <= |answers| && n <= |wakes|
    ensures i <= sent.matched <= n && (sent.unexpected.None? <==> sent.matched == n)
    ensures sent.place.upgrading == p.upgrading && sent.place.dead == p.dead
    decreases n - i
  {
    if i == n then Sent(p, n, None)
    else
      var (p', a) := Exchange(p, answers[i], wakes[i]);
      if Expected(i, a) then Sending(p', answers, wakes, n, i + 1) else Sent(p', i, Some(a))
  }

  // ---- the waits after a transfer ----

  /** How the wait for the module ends: its time runs out, or so many writes come before the
      thread has the lock again; the report of the module is one of those that come, behind
      as many answers as are said. */
  datatype ModuleEnd = Expires | Wakes(writes: nat, report: Option<nat>)

  /** `Upgraded` tells whether the module itself reported the end. */
  datatype Outcome = Upgraded(reported: bool) | NotUpgraded(reason: UpgradeResult) | Hangs | Panics | Busy | NoLock

  /** The answers among the first `writes` writes, and the report if it is one of them. */
  function Arrivals(onTheWay: seq<Write>, writes: nat, report: Option<nat>): (nat, Option<nat>) {
    if report.Some? && Min(report.value, |onTheWay|) < writes
    then (Min(writes - 1, |onTheWay|), Some(Min(report.value, |onTheWay|)))
    else (Min(writes, |onTheWay|), None)
  }

  /** A result that is there, or one that comes without the end, ends no wait: the loop goes on
      and never gives the lock back. */
  function AfterWait(p: Place, end: ModuleEnd): (Place, Outcome) {
    if p.result.Some? then (p.(dead := true), Hangs)
    else if end.Expires? then (p.(upgrading := false), NotUpgraded(OtherError))
    else
      var (k, at) := Arrivals(p.onTheWay, AtLeastOne(end.writes), end.report);
      if k == 0 && at == None then (p.(upgrading := false), NotUpgraded(OtherError))
      else if Ends(Window(p.onTheWay, k, at)) then (Deliver(p, k, at).(upgrading := false), Upgraded(at.Some?))
      else (Deliver(p, k, at).(dead := true), Hangs)
  }

  /** An upgrade: the file and its packet size; for each segment its answer and how many writes
      end the wait; the answers, and perhaps the report, that come before the next wait
      begins. */
  datatype Attempt =
    Attempt(content: seq<byte>, maxPacket: u16, answers: seq<Answer>, wakes: seq<nat>, gap: nat, early: bool)
  {
    predicate Answered() {
      maxPacket > PREFIX_LEN ==> |answers| >= Count(content, maxPacket) && |wakes| >= Count(content, maxPacket)
    }
  }

  function AfterGap(p: Place, a: Attempt): Place {
    Deliver(p, a.gap, if a.early then Some(a.gap) else None)
  }

  /** What the transfer of an upgrade leaves, when it can begin. */
  function Moved(p: Place, a: Attempt): Sent
    requires a.Answered() && a.maxPacket > PREFIX_LEN
  {
    Sending(p.(upgrading := true), a.answers, a.wakes, Count(a.content, a.maxPacket), 0)
  }

  function Attempted(p: Place, a: Attempt, end: ModuleEnd): (Place, Outcome)
    requires a.Answered()
  {
    if p.dead then (p, NoLock)
    else if p.upgrading then (p, Busy)
    else if Unsendable(a.content, a.maxPacket) then (p.(upgrading := true, dead := true), Panics)
    else
      var sent := Moved(p, a);
      if sent.unexpected.Some? then (sent.place.(upgrading := false), NotUpgraded(Reason(sent.unexpected.value)))
      else AfterWait(AfterGap(sent.place, a), end)
  }

  /** One round of the wait for the meters: the answers that come in it, and if none does, the
      module's answer to the question after it and the writes that end the wait for that. */
  datatype Round = Round(quick: nat, status: Write, writes: nat)

  /** Every round takes one result. It ends the upgrade if a write said so. */
  function AfterRound(p: Place, r: Round): (Place, bool) {
    if p.result.Some? then (Take(p), false)
    else if r.quick > 0 && p.onTheWay != [] then
      (Take(Deliver(p, r.quick, None)), Ends(Window(p.onTheWay, r.quick, None)))
    else
      var asked, k := Ask(p, r.status), AtLeastOne(r.writes);
      (Take(Deliver(asked, k, None)), Ends(Window(asked.onTheWay, k, None)))
  }

  datatype Waited = Waited(place: Place, rounds: nat, ended: bool)

  /** The rounds up to the first that ends the upgrade, if there is one in the first `n`. */
  function AfterRounds(p: Place, rounds: seq<Round>, n: nat, i: nat): (w: Waited)
    requires i <= n <= |rounds|
    ensures i <= w.rounds <= n && (i < n ==> i < w.rounds) && (!w.ended ==> w.rounds == n)
    decreases n - i
  {
    if i == n then Waited(p, n, false)
    else
      var (p', ended) := AfterRound(p, rounds[i]);
      if ended then Waited(p', i + 1, true) else AfterRounds(p', rounds, n, i + 1)
  }

  function Rounds(total: nat): nat {
    (total + WAIT_TIME - 1) / WAIT_TIME
  }

  /** A whole upgrade of the meters. */
  function Metered(p: Place, a: Attempt, total: nat, rounds: seq<Round>): Place
    requires a.Answered() && |rounds| >= Rounds(total)
  {
    if p.dead || p.upgrading then p
    else if Unsendable(a.content, a.maxPacket) then p.(upgrading := true, dead := true)
    else
      var sent := Moved(p, a);
      if sent.unexpected.Some? then sent.place.(upgrading := false)
      else AfterRounds(AfterGap(sent.place, a), rounds, Rounds(total), 0).place.(upgrading := false)
  }

  // ---- the object ----

  class FileUpgrade {
    var status: Status
    var upgradeResult: UpgradeResult
    var result: Option<Answer>
    var upgrading: bool
    /** The state of the serial line and of the lock, as far as it matters here. */
    var onTheWay: seq<Write>
    var dead: bool
    ghost var history: History

    constructor ()
      ensures View() == START && status == Idle
    {
      status, upgradeResult, result, upgrading := Idle, Success, None, false;
      onTheWay, dead := [], false;
      history := History(0, 0, 0, 0);
    }

    ghost function View(): Place
      reads this
    {
      Place(result, onTheWay, upgrading, dead, history)
    }

    method FinishUpgrade(r: UpgradeResult)
      modifies this
      ensures status == Finished && upgradeResult == r && View() == old(View()).(upgrading := false)
    {
      status, upgradeResult, upgrading := Finished, r, false;
    }

    /** The writes set result and status, one after the other. */
    method Receive(k: nat, at: Option<nat>)
      modifies this
      ensures View() == Deliver(old(View()), k, at) && upgradeResult == old(upgradeResult)
      ensures status == if Ends(Window(old(onTheWay), k, at)) then Finished else old(status)
    {
      hide Window, Ends;
      ghost var p := View();
      var writes := Window(onTheWay, k, at);
      if writes != [] {
        onTheWay := onTheWay[Min(k, |onTheWay|)..];
      }
      assert writes[..0] == [];
      EndsNone();
      for i := 0 to |writes|
        invariant result == if i == 0 then p.result else Some(writes[i - 1].value)
        invariant status == if Ends(writes[..i]) then Finished else old(status)
        invariant onTheWay == (if writes == [] then p.onTheWay else p.onTheWay[Min(k, |p.onTheWay|)..])
        invariant upgrading == p.upgrading && dead == p.dead
        invariant history == p.history && upgradeResult == old(upgradeResult)
      {
        EndsMore(writes[..i], writes[i]);
        assert writes[..i + 1] == writes[..i] + [writes[i]];
        result := Some(writes[i].value);
        if writes[i].ends {
          status := Finished;
        }
      }
      assert writes[..|writes|] == writes;
      history := Deliver(p, k, at).history;
    }

    method TakeResult() returns (a: Answer)
      requires result.Some?
      modifies this`result, this`history
      ensures View() == Take(old(View())) && a == old(result).value
    {
      a := result.value;
      result := None;
      history := history.(taken := history.taken + 1);
    }

    /** A request is sent; its answer will come behind those that are on their way. */
    method Request(answer: Write)
      modifies this`onTheWay, this`history
      ensures View() == Ask(old(View()), answer)
    {
      onTheWay := onTheWay + [answer];
      history := history.(asked := history.asked + 1);
    }

    /** One request and the wait for a result. */
    method SendAndWait(answer: Answer, k: nat) returns (a: Answer)
      modifies this
      ensures (View(), a) == Exchange(old(View()), answer, k) && upgradeResult == old(upgradeResult)
    {
      hide Deliver;
      Request(Write(answer, false));
      if result.None? {
        Receive(AtLeastOne(k), None);
      }
      a := TakeResult();
    }

    /** Exactly the requests up to and including the first whose wait was not answered as
        expected. */
    method Transfer(flag: FileFlag, content: seq<byte>, maxPacket: u16, answers: seq<Answer>, wakes: seq<nat>)
      returns (sent: seq<Segment>, verdict: Verdict)
      requires maxPacket > PREFIX_LEN ==> |answers| >= Count(content, maxPacket) && |wakes| >= Count(content, maxPacket)
      modifies this
      ensures verdict.Blocked? <==> old(dead)
      ensures verdict.AlreadyUpgrading? <==> !old(dead) && old(upgrading)
      ensures verdict.Panic? <==> !old(dead) && !old(upgrading) && Unsendable(content, maxPacket)
      ensures verdict.Blocked? || verdict.AlreadyUpgrading? ==> sent == [] && View() == old(View())
      ensures verdict.Panic? ==> sent == [] && View() == old(View()).(upgrading := true, dead := true)
      ensures verdict.Transferred? || verdict.Failed? ==>
                var n := Count(content, maxPacket);
                var s := Sending(old(View()).(upgrading := true), answers, wakes, n, 0);
                && (verdict.Transferred? <==> s.matched == n)
                && (s.unexpected.Some? ==>
                      verdict == Failed(Reason(s.unexpected.value)) && upgradeResult == verdict.reason
                          && status == Finished)
                && View() == s.place.(upgrading := verdict.Transferred?)
                && (n == 0 ==> sent == [])
                && (n > 0 ==> n % 0x1_0000 != 0
                              && sent == Requests(flag, content, maxPacket)[..Min(s.matched + 1, n)])
    {
      hide Requests, NewSegment, Chunks, Count, Exchange, Expected;
      sent := [];
      if dead {
        return sent, Blocked;
      }
      if upgrading {
        return sent, AlreadyUpgrading;
      }
      upgrading, status := true, Idle;
      if maxPacket <= PREFIX_LEN {
        dead := true;
        return sent, Panic;
      }
      var chunks := Chunks(content, maxPacket - PREFIX_LEN);
      var n := |chunks|;
      ghost var whole := Sending(View(), answers, wakes, n, 0);
      for i := 0 to n
        invariant upgrading && !dead && (i > 0 ==> n % 0x1_0000 != 0)
        invariant i == 0 ==> sent == [] && View() == old(View()).(upgrading := true)
        invariant i > 0 ==> sent == Requests(flag, content, maxPacket)[..i]
        invariant Sending(View(), answers, wakes, n, i) == whole
      {
        NewSegmentIs(flag, n % 0x1_0000, i, chunks[i]);
        var segment := NewSegment(flag, n % 0x1_0000, i, chunks[i]);
        if segment.None? {
          dead := true;
          return sent, Panic;
        }
        RequestsNext(flag, content, maxPacket, i);
        sent := sent + [segment.value];
        var answer := SendAndWait(answers[i], wakes[i]);
        ExpectedIs(i, answer);
        if answer != Ack(i) || answer == Ack(FILE_CHECK_ERROR) {
          FinishUpgrade(Reason(answer));
          return sent, Failed(Reason(answer));
        }
      }
      return sent, Transferred;
    }

    /** The wait for the meters, in rounds of half a minute; the module is asked after each
        round that ran its time. The waiting granted is the whole time, and not more. */
    method WaitForMeters(total: nat, rounds: seq<Round>) returns (waited: nat)
      requires total > 0 && |rounds| >= Rounds(total)
      modifies this
      ensures var w := AfterRounds(old(View()), rounds, Rounds(total), 0);
              && View() == w.place.(upgrading := false) && status == Finished
              && upgradeResult == (if w.ended then Success else OtherError)
              && waited == Min(WAIT_TIME * w.rounds, total)
    {
      hide Deliver, Ends;
      var count := Rounds(total);
      var done := 0;
      status := Upgrading;
      waited := 0;
      ghost var whole := AfterRounds(View(), rounds, count, 0);
      while status == Upgrading
        invariant done <= count && waited == Min(WAIT_TIME * done, total)
        invariant status == Upgrading || status == Finished
        invariant status == Finished ==> done > 0 && whole == Waited(View(), done, true)
        invariant status == Upgrading ==> done < count && whole == AfterRounds(View(), rounds, count, done)
        decreases count - done, status == Upgrading
      {
        var time := if done == count - 1 then total - done * WAIT_TIME else WAIT_TIME;
        waited := waited + time;
        var round := rounds[done];
        if result.None? && round.quick > 0 && onTheWay != [] {
          Receive(round.quick, None);
        } else if result.None? {
          Request(round.status);
          Receive(AtLeastOne(round.writes), None);
        }
        var answer := TakeResult();
        done := done + 1;
        if done == count {
          break;
        }
      }
      if status == Upgrading {
        FinishUpgrade(OtherError);
      } else {
        FinishUpgrade(Success);
      }
    }

    /** The wait for the module itself, from any state. */
    method WaitForModule(end: ModuleEnd) returns (outcome: Outcome)
      modifies this
      ensures (View(), outcome) == AfterWait(old(View()), end)
      ensures outcome.Upgraded? ==> upgradeResult == Success && status == Finished
      ensures outcome.NotUpgraded? ==> upgradeResult == outcome.reason && status == Finished
    {
      status := Upgrading;
      if result.Some? {
        dead := true;
        return Hangs;
      }
      if end.Expires? {
        FinishUpgrade(OtherError);
        return NotUpgraded(OtherError);
      }
      var (k, at) := Arrivals(onTheWay, AtLeastOne(end.writes), end.report);
      if k == 0 && at == None {
        FinishUpgrade(OtherError);
        return NotUpgraded(OtherError);
      }
      Receive(k, at);
      if status == Upgrading {
        dead := true;
        return Hangs;
      }
      FinishUpgrade(Success);
      return Upgraded(at.Some?);
    }

    /** A whole upgrade of the module. */
    method UpgradeModule(a: Attempt, end: ModuleEnd) returns (outcome: Outcome)
      requires a.Answered()
      modifies this
      ensures (View(), outcome) == Attempted(old(View()), a, end)
      ensures outcome.Upgraded? ==> upgradeResult == Success && status == Finished
      ensures outcome.NotUpgraded? ==> upgradeResult == outcome.reason && status == Finished
    {
      hide Count, Sending, Deliver, AfterWait;
      var sent, verdict := Transfer(Module, a.content, a.maxPacket, a.answers, a.wakes);
      match verdict {
        case Blocked => outcome := NoLock;
        case AlreadyUpgrading => outcome := Busy;
        case Panic => outcome := Panics;
        case Failed(reason) => outcome := NotUpgraded(reason);
        case Transferred =>
          Receive(a.gap, if a.early then Some(a.gap) else None);
          outcome := WaitForModule(end);
      }
    }

    /** A whole upgrade of the meters. */
    method UpgradeMeters(flag: FileFlag, a: Attempt, total: nat, rounds: seq<Round>)
      requires a.Answered() && total > 0 && |rounds| >= Rounds(total)
      modifies this
      ensures View() == Metered(old(View()), a, total, rounds)
    {
      hide Count, Sending, Deliver, AfterRounds;
      var sent, verdict := Transfer(flag, a.content, a.maxPacket, a.answers, a.wakes);
      if verdict.Transferred? {
        Receive(a.gap, if a.early then Some(a.gap) else None);
        var waited := WaitForMeters(total, rounds);
      }
    }
  }

  lemma EndsNone()
    ensures !Ends([])
  {
  }

  lemma EndsMore(writes: seq<Write>, w: Write)
    ensures Ends(writes + [w]) <==> Ends(writes) || w.ends
  {
    var all := writes + [w];
    assert all[|writes|] == w;
    if Ends(writes) {
      var i :| 0 <= i < |writes| && writes[i].ends;
      assert all[i].ends;
    }
  }

  // ---- what the transfer is for ----

  function Data(segments: seq<Segment>): seq<seq<byte>> {
    seq(|segments|, i requires 0 <= i < |segments| => segments[i].data)
  }

  /** All requests together carry the file, in order, none of it twice. */
  lemma {:induction false} RequestsCarryFile(flag: FileFlag, content: seq<byte>, maxPacket: u16)
    requires maxPacket > PREFIX_LEN && Count(content, maxPacket) % 0x1_0000 != 0
    ensures Joined(Data(Requests(flag, content, maxPacket))) == content
    ensures forall i :: 0 <= i < Count(content, maxPacket) ==>
              Requests(flag, content, maxPacket)[i].offset < 0x1_0000_0000
              && |Requests(flag, content, maxPacket)[i].data| <= maxPacket - PREFIX_LEN
  {
    ChunksJoin(content, maxPacket - PREFIX_LEN);
    assert Data(Requests(flag, content, maxPacket)) == Chunks(content, maxPacket - PREFIX_LEN);
  }

  /** Just the last request is marked as the last exactly when the number of segments has
      sixteen bits. */
  lemma {:induction false} LastIsMarked(flag: FileFlag, content: seq<byte>, maxPacket: u16)
    requires maxPacket > PREFIX_LEN && Count(content, maxPacket) % 0x1_0000 != 0
    ensures var requests := Requests(flag, content, maxPacket);
            (forall i :: 0 <= i < |requests| ==> (requests[i].attr == 1 <==> i == |requests| - 1))
            <==> |requests| < 0x1_0000
  {
    var requests := Requests(flag, content, maxPacket);
    var total := |requests| % 0x1_0000;
    if |requests| >= 0x1_0000 {
      assert requests[total - 1].attr == 1;
    }
  }

  predicate AllAcked(answers: seq<Answer>, n: nat)
    requires n <= |answers|
  {
    forall i :: 0 <= i < n ==> answers[i] == Ack(i)
  }

  /** The whole file is sent exactly when every wait brought the number of its segment. */
  lemma {:induction false} WholeFile(results: seq<Answer>, n: nat)
    requires n <= |results| && n <= FILE_CHECK_ERROR
    ensures Matched(results, n) == n <==> AllAcked(results, n)
  {
    if AllAcked(results, n) {
      MatchedIs(results, n, n);
    }
  }

  /** With a result left from before, a module that acknowledges everything gets the whole file
      only if that has no segment, or one and the result was zero. */
  lemma StaleResult(stale: Answer, answers: seq<Answer>, n: nat)
    requires n <= |answers| && n <= FILE_CHECK_ERROR && AllAcked(answers, n)
    ensures Matched([stale] + answers, n) == n <==> n == 0 || (n == 1 && stale == Ack(0))
    ensures n >= 2 && stale == Ack(0) ==> Matched([stale] + answers, n) == 1
  {
    var results := [stale] + answers;
    assert results[0] == stale && forall i :: 1 <= i < n ==> results[i] == Ack(i - 1);
    if n >= 2 && stale == Ack(0) {
      MatchedIs(results, n, 1);
    } else if n >= 1 && stale != Ack(0) {
      MatchedIs(results, n, 0);
    } else {
      MatchedIs(results, n, n);
    }
  }

  // ---- the places of the parts ----

  lemma ToLe32Places(n: nat)
    requires n < 0x1_0000_0000
    ensures var b := ToLe32(n);
            |b| == 4 && b[0] as nat + 256 * b[1] as nat + 0x1_0000 * (b[2] as nat + 256 * b[3] as nat) == n
  {
    LowFirst(n % 0x1_0000);
    LowFirst(n / 0x1_0000);
  }

  /** The bytes of a segment: the flag of the file, whether it is the last, a command that is
      always zero, the number of segments, that of this one, the size of its data, the data;
      numbers with the low byte first. */
  lemma SegmentPlaces(s: Segment)
    requires s.offset < 0x1_0000_0000
    ensures var p := Payload(s);
            && |p| == 11 + |s.data| && p[1] == s.attr && p[2] == 0 && p[11..] == s.data
            && p[0] == (match s.flag case Clear => 0 case Module => 3 case MasterAndSlave => 7 case Slave => 8)
            && p[3] as nat + 256 * p[4] as nat == s.total
            && p[5] as nat + 256 * p[6] as nat + 0x1_0000 * (p[7] as nat + 256 * p[8] as nat) == s.offset
            && p[9] as nat + 256 * p[10] as nat == |s.data| % 0x1_0000
    ensures AppOf(s).afn == AppData.FileTransfer && AppData.FnNum(AppOf(s).flag) == Good(1)
            && AppOf(s).data == Some(Payload(s))
    ensures forall num :: FrameOf(num, s).ctrl == Frame.Ctrl(false, true, Frame.Hplc)
  {
    hide ToLe16, ToLe32, AppData.FnNum;
    LowFirst(s.total);
    ToLe32Places(s.offset);
    LowFirst(|s.data| % 0x1_0000);
    AppData.NewAppCanonical(AppData.FileTransfer, 1, Some(Payload(s)));
  }

  /** What each request of a file says. */
  lemma RequestSays(flag: FileFlag, content: seq<byte>, maxPacket: u16, i: nat)
    requires maxPacket > PREFIX_LEN && Count(content, maxPacket) % 0x1_0000 != 0 && i < Count(content, maxPacket)
    ensures var s := Requests(flag, content, maxPacket)[i];
            && s.flag == flag && s.total == Count(content, maxPacket) % 0x1_0000 && s.offset == i % 0x1_0000_0000
            && (s.attr == 1 <==> s.offset == s.total - 1) && (s.attr == 0 <==> s.offset != s.total - 1)
            && s.data == Chunks(content, maxPacket - 26)[i]
  {
  }
}
