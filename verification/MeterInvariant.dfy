/** What every step of the system keeps. */
module MeterInvariant {
  import opened Wrappers
  import opened Metering
  import opened UartMatching
  import opened MeterSystem

  function ChannelReqs(channel: seq<Outgoing>): seq<Request> {
    seq(|channel|, i requires 0 <= i < |channel| => channel[i].req)
  }

  function HandReqs(hand: seq<Held>): seq<Request> {
    seq(|hand|, i requires 0 <= i < |hand| => hand[i].req)
  }

  function ReportReqs(reports: seq<Reported>): seq<Request> {
    seq(|reports|, i requires 0 <= i < |reports| => reports[i].req)
  }

  /** The requests of one address, in order. */
  function Of(reqs: seq<Request>, addr: Addr): seq<Request> {
    if reqs == [] then []
    else
      var last := reqs[|reqs| - 1];
      Of(reqs[..|reqs| - 1], addr) + (if last.addr == addr then [last] else [])
  }

  lemma OfAppend(reqs: seq<Request>, r: Request, addr: Addr)
    ensures Of(reqs + [r], addr) == Of(reqs, addr) + (if r.addr == addr then [r] else [])
  {
    assert (reqs + [r])[..|reqs|] == reqs;
  }

  // ---- the invariant, part by part ----

  ghost predicate FlightOk(flight: Flights) {
    forall a :: a in flight ==> flight[a].req.addr == a
  }

  ghost predicate WaitingOk(cache: Cache, flight: Flights) {
    forall a :: a in flight <==> Waiting(cache, a)
  }

  ghost predicate QueueOk(cfg: Config, cache: Cache) {
    forall a :: a in cache ==>
      |cache[a].queue| <= cfg.queueLimit && forall i :: 0 <= i < |cache[a].queue| ==> cache[a].queue[i].addr == a
  }

  ghost predicate OnlyAt(reqs: seq<Request>, place: Place, flight: Flights) {
    forall i :: 0 <= i < |reqs| ==> reqs[i].addr in flight && flight[reqs[i].addr] == Flight(reqs[i], place)
  }

  ghost predicate OncePerAddr(reqs: seq<Request>) {
    forall i, j :: 0 <= i < j < |reqs| ==> reqs[i].addr != reqs[j].addr
  }

  ghost predicate AllAt(reqs: seq<Request>, place: Place, flight: Flights) {
    forall a :: a in flight && flight[a].place == place ==> flight[a].req in reqs
  }

  /** `reqs` lists each flight at `place` exactly once, and nothing else. */
  ghost predicate SeqAt(reqs: seq<Request>, place: Place, flight: Flights) {
    OnlyAt(reqs, place, flight) && OncePerAddr(reqs) && AllAt(reqs, place, flight)
  }

  ghost predicate TableOk(table: map<SeqNum, Outgoing>, flight: Flights) {
    && (forall n :: n in table ==> n == table[n].Seq() && table[n].req.addr in flight
                                   && flight[table[n].req.addr] == Flight(table[n].req, InTable(n)))
    && (forall a :: a in flight && flight[a].place.InTable? ==>
          flight[a].place.num in table && table[flight[a].place.num].req == flight[a].req)
  }

  function Current(flight: Flights, addr: Addr): seq<Request> {
    if addr in flight then [flight[addr].req] else []
  }

  /** What was dispatched for an address is what was reported, then what is in flight. */
  ghost predicate LedgerAt(dispatched: seq<Request>, reports: seq<Reported>, flight: Flights, addr: Addr) {
    Of(dispatched, addr) == Of(ReportReqs(reports), addr) + Current(flight, addr)
  }

  ghost predicate LedgerOk(dispatched: seq<Request>, reports: seq<Reported>, flight: Flights) {
    forall a :: LedgerAt(dispatched, reports, flight, a)
  }

  /** What was accepted for an address was dispatched or is queued. */
  ghost predicate ConservedAt(accepted: seq<Request>, dispatched: seq<Request>, cache: Cache, addr: Addr) {
    multiset(Of(accepted, addr)) == multiset(Of(dispatched, addr)) + multiset(Queue(cache, addr))
  }

  ghost predicate Conserved(accepted: seq<Request>, dispatched: seq<Request>, cache: Cache) {
    forall a :: ConservedAt(accepted, dispatched, cache, a)
  }

  ghost predicate NumberedOk(accepted: seq<Request>, arrivals: nat) {
    && (forall i :: 0 <= i < |accepted| ==> accepted[i].id < arrivals)
    && (forall i, j :: 0 <= i < j < |accepted| ==> accepted[i].id < accepted[j].id)
  }

  ghost predicate PlacesOk(s: System) {
    && FlightOk(s.flight)
    && SeqAt(ChannelReqs(s.sched.channel), InChannel, s.flight)
    && TableOk(s.uart.table, s.flight)
    && SeqAt(HandReqs(s.hand), InHand, s.flight)
    && SeqAt(s.lost, Lost, s.flight)
  }

  /** After a panic nobody reads the waiting flags. */
  ghost predicate FlagsOk(s: System) {
    s.panicked || WaitingOk(s.sched.cache, s.flight)
  }

  ghost predicate Inv(cfg: Config, s: System) {
    && PlacesOk(s)
    && FlagsOk(s)
    && QueueOk(cfg, s.sched.cache)
    && LedgerOk(s.dispatched, s.reports, s.flight)
    && Conserved(s.accepted, s.dispatched, s.sched.cache)
    && NumberedOk(s.accepted, s.arrivals)
  }

  // ---- changing one flight ----

  /** The flights differ at most at `addr`. */
  ghost predicate SameBut(f: Flights, g: Flights, addr: Addr) {
    forall a :: a != addr ==> (a in f <==> a in g) && (a in f ==> f[a] == g[a])
  }

  ghost predicate NotAt(f: Flights, addr: Addr, place: Place) {
    addr in f ==> f[addr].place != place
  }

  lemma SeqAtFrame(reqs: seq<Request>, place: Place, f: Flights, g: Flights, addr: Addr)
    requires SeqAt(reqs, place, f) && SameBut(f, g, addr) && NotAt(f, addr, place) && NotAt(g, addr, place)
    ensures SeqAt(reqs, place, g)
  {
  }

  lemma SeqAtAppend(reqs: seq<Request>, place: Place, f: Flights, g: Flights, r: Request)
    requires SeqAt(reqs, place, f) && SameBut(f, g, r.addr) && NotAt(f, r.addr, place)
    requires r.addr in g && g[r.addr] == Flight(r, place)
    ensures SeqAt(reqs + [r], place, g)
  {
    var reqs' := reqs + [r];
    forall a | a in g && g[a].place == place ensures g[a].req in reqs' {
      if a == r.addr {
        assert reqs'[|reqs|] == r;
      } else {
        assert f[a].req in reqs;
      }
    }
  }

  lemma WithoutAt<T>(xs: seq<T>, i: nat, j: nat)
    requires i < |xs| && j < |xs| - 1
    ensures Without(xs, i)[j] == xs[if j < i then j else j + 1]
  {
  }

  lemma OncePerAddrRemove(reqs: seq<Request>, i: nat)
    requires i < |reqs| && OncePerAddr(reqs)
    ensures OncePerAddr(Without(reqs, i))
    ensures forall j :: 0 <= j < |reqs| - 1 ==> Without(reqs, i)[j].addr != reqs[i].addr
  {
    hide Without;
    forall j | 0 <= j < |reqs| - 1 ensures Without(reqs, i)[j] == reqs[if j < i then j else j + 1] {
      WithoutAt(reqs, i, j);
    }
  }

  lemma OnlyAtRemove(reqs: seq<Request>, place: Place, f: Flights, g: Flights, i: nat)
    requires i < |reqs| && OnlyAt(reqs, place, f) && OncePerAddr(reqs) && SameBut(f, g, reqs[i].addr)
    ensures OnlyAt(Without(reqs, i), place, g)
  {
    hide OncePerAddr, Without;
    OncePerAddrRemove(reqs, i);
    forall j | 0 <= j < |reqs| - 1 ensures Without(reqs, i)[j] == reqs[if j < i then j else j + 1] {
      WithoutAt(reqs, i, j);
    }
  }

  lemma AllAtRemove(reqs: seq<Request>, place: Place, f: Flights, g: Flights, i: nat)
    requires i < |reqs| && FlightOk(f) && AllAt(reqs, place, f)
    requires SameBut(f, g, reqs[i].addr) && NotAt(g, reqs[i].addr, place)
    ensures AllAt(Without(reqs, i), place, g)
  {
    hide Without;
    forall a | a in g && g[a].place == place ensures g[a].req in Without(reqs, i) {
      assert f[a].req in reqs;
      var j :| 0 <= j < |reqs| && reqs[j] == f[a].req;
      WithoutAt(reqs, i, if j < i then j else j - 1);
    }
  }

  lemma SeqAtRemove(reqs: seq<Request>, place: Place, f: Flights, g: Flights, i: nat)
    requires i < |reqs| && FlightOk(f)
    requires SeqAt(reqs, place, f) && SameBut(f, g, reqs[i].addr) && NotAt(g, reqs[i].addr, place)
    ensures SeqAt(Without(reqs, i), place, g)
  {
    OnlyAtRemove(reqs, place, f, g, i);
    OncePerAddrRemove(reqs, i);
    AllAtRemove(reqs, place, f, g, i);
  }

  lemma TableFrame(table: map<SeqNum, Outgoing>, f: Flights, g: Flights, addr: Addr)
    requires TableOk(table, f) && SameBut(f, g, addr)
    requires addr in f ==> !f[addr].place.InTable?
    requires addr in g ==> !g[addr].place.InTable?
    ensures TableOk(table, g)
  {
  }

  // ---- places, step by step ----

  lemma ChannelReqsAppend(channel: seq<Outgoing>, o: Outgoing)
    ensures ChannelReqs(channel + [o]) == ChannelReqs(channel) + [o.req]
  {
  }

  lemma HandReqsAppend(hand: seq<Held>, h: Held)
    ensures HandReqs(hand + [h]) == HandReqs(hand) + [h.req]
  {
  }

  lemma ReportReqsAppend(reports: seq<Reported>, r: Reported)
    ensures ReportReqs(reports + [r]) == ReportReqs(reports) + [r.req]
  {
  }

  /** A dispatch for an address with nothing in flight. */
  lemma DispatchPlaces(s: System, s': System, r: Request, index: nat)
    requires PlacesOk(s) && r.addr !in s.flight
    requires s'.flight == s.flight[r.addr := Flight(r, InChannel)]
    requires s'.sched.channel == s.sched.channel + [Outgoing(r, index)]
    requires s'.uart == s.uart && s'.hand == s.hand && s'.lost == s.lost
    ensures PlacesOk(s')
  {
    var f, g := s.flight, s'.flight;
    assert SameBut(f, g, r.addr);
    ChannelReqsAppend(s.sched.channel, Outgoing(r, index));
    SeqAtAppend(ChannelReqs(s.sched.channel), InChannel, f, g, r);
    SeqAtFrame(HandReqs(s.hand), InHand, f, g, r.addr);
    SeqAtFrame(s.lost, Lost, f, g, r.addr);
    TableFrame(s.uart.table, f, g, r.addr);
  }

  /** A request taken from a queue, which cannot be sent, for an address with nothing in flight. */
  lemma StrandPlaces(s: System, s': System, r: Request)
    requires PlacesOk(s) && r.addr !in s.flight
    requires s'.flight == s.flight[r.addr := Flight(r, Lost)] && s'.lost == s.lost + [r]
    requires s'.sched.channel == s.sched.channel && s'.uart == s.uart && s'.hand == s.hand
    ensures PlacesOk(s')
  {
    var f, g := s.flight, s'.flight;
    assert SameBut(f, g, r.addr);
    SeqAtAppend(s.lost, Lost, f, g, r);
    SeqAtFrame(HandReqs(s.hand), InHand, f, g, r.addr);
    SeqAtFrame(ChannelReqs(s.sched.channel), InChannel, f, g, r.addr);
    TableFrame(s.uart.table, f, g, r.addr);
  }

  lemma ChannelHead(channel: seq<Outgoing>, f: Flights, g: Flights)
    requires channel != [] && FlightOk(f) && SeqAt(ChannelReqs(channel), InChannel, f)
    requires SameBut(f, g, channel[0].req.addr) && NotAt(g, channel[0].req.addr, InChannel)
    ensures SeqAt(ChannelReqs(channel[1..]), InChannel, g)
  {
    SeqAtRemove(ChannelReqs(channel), InChannel, f, g, 0);
    assert ChannelReqs(channel[1..]) == Without(ChannelReqs(channel), 0);
  }

  lemma EnterRow(table: map<SeqNum, Outgoing>, o: Outgoing, f: Flights, g: Flights)
    requires TableOk(table, f) && o.Seq() !in table && NotInTable(f, o.req.addr)
    requires g == f[o.req.addr := Flight(o.req, InTable(o.Seq()))]
    ensures TableOk(table[o.Seq() := o], g)
  {
  }

  ghost predicate NotInTable(f: Flights, addr: Addr) {
    addr in f ==> !f[addr].place.InTable?
  }

  /** The head of the channel enters a free table row. */
  lemma EnterTable(s: System, s': System)
    requires PlacesOk(s) && s.sched.channel != []
    requires var o := s.sched.channel[0];
             && o.Seq() !in s.uart.table
             && s'.flight == s.flight[o.req.addr := Flight(o.req, InTable(o.Seq()))]
             && s'.uart.table == s.uart.table[o.Seq() := o]
    requires s'.sched.channel == s.sched.channel[1..] && s'.hand == s.hand && s'.lost == s.lost
    ensures PlacesOk(s')
  {
    var f, g := s.flight, s'.flight;
    var r := s.sched.channel[0].req;
    assert ChannelReqs(s.sched.channel)[0] == r;
    ChannelHead(s.sched.channel, f, g);
    SeqAtFrame(HandReqs(s.hand), InHand, f, g, r.addr);
    SeqAtFrame(s.lost, Lost, f, g, r.addr);
    EnterRow(s.uart.table, s.sched.channel[0], f, g);
    hide TableOk;
  }

  /** The head of the channel is lost. */
  lemma LoseHead(s: System, s': System)
    requires PlacesOk(s) && s.sched.channel != []
    requires var o := s.sched.channel[0];
             && s'.flight == s.flight[o.req.addr := Flight(o.req, Lost)] && s'.lost == s.lost + [o.req]
    requires s'.sched.channel == s.sched.channel[1..] && s'.hand == s.hand && s'.uart == s.uart
    ensures PlacesOk(s')
  {
    var f, g := s.flight, s'.flight;
    var r := s.sched.channel[0].req;
    assert ChannelReqs(s.sched.channel)[0] == r;
    ChannelHead(s.sched.channel, f, g);
    SeqAtFrame(HandReqs(s.hand), InHand, f, g, r.addr);
    SeqAtAppend(s.lost, Lost, f, g, r);
    TableFrame(s.uart.table, f, g, r.addr);
  }

  /** A table row leaves the table. */
  lemma LeaveTable(table: map<SeqNum, Outgoing>, num: SeqNum, f: Flights, g: Flights)
    requires num in table && TableOk(table, f) && FlightOk(f)
    requires SameBut(f, g, table[num].req.addr)
    requires table[num].req.addr in g ==> !g[table[num].req.addr].place.InTable?
    ensures TableOk(table - {num}, g)
  {
  }

  lemma TakePlaces(s: System, num: SeqNum, kind: Kind)
    requires PlacesOk(s) && num in s.uart.table
    ensures PlacesOk(TakenFromTable(s, num, kind))
  {
    var s' := TakenFromTable(s, num, kind);
    var f, g := s.flight, s'.flight;
    var r := s.uart.table[num].req;
    LeaveTable(s.uart.table, num, f, g);
    SeqAtFrame(ChannelReqs(s.sched.channel), InChannel, f, g, r.addr);
    HandReqsAppend(s.hand, Held(r, kind));
    SeqAtAppend(HandReqs(s.hand), InHand, f, g, r);
    SeqAtFrame(s.lost, Lost, f, g, r.addr);
  }

  function Displaced(s: System, num: SeqNum): System
    requires num in s.uart.table
  {
    var r := s.uart.table[num].req;
    s.(uart := s.uart.(table := s.uart.table - {num}), lost := s.lost + [r],
       flight := s.flight[r.addr := Flight(r, Lost)])
  }

  lemma DisplacePlaces(s: System, num: SeqNum)
    requires PlacesOk(s) && num in s.uart.table
    ensures PlacesOk(Displaced(s, num))
  {
    var f, g := s.flight, Displaced(s, num).flight;
    var r := s.uart.table[num].req;
    LeaveTable(s.uart.table, num, f, g);
    SeqAtFrame(ChannelReqs(s.sched.channel), InChannel, f, g, r.addr);
    SeqAtFrame(HandReqs(s.hand), InHand, f, g, r.addr);
    SeqAtAppend(s.lost, Lost, f, g, r);
  }

  lemma WriteOverIs(s: System)
    requires s.sched.channel != [] && s.sched.channel[0].Seq() in s.uart.table
    ensures var o, s' := s.sched.channel[0], ConcurrentWritten(s, true);
            var mid := Displaced(s, o.Seq());
            && s'.uart.table == mid.uart.table[o.Seq() := o]
            && s'.flight == mid.flight[o.req.addr := Flight(o.req, InTable(o.Seq()))]
            && s'.lost == mid.lost && s'.hand == mid.hand && mid.sched == s.sched
            && s'.sched.channel == s.sched.channel[1..] && o.Seq() !in mid.uart.table
  {
  }

  /** First the displaced entry is lost, then the head of the channel takes its row. */
  lemma WriteOver(s: System)
    requires PlacesOk(s) && s.sched.channel != [] && s.sched.channel[0].Seq() in s.uart.table
    ensures PlacesOk(ConcurrentWritten(s, true))
  {
    hide PlacesOk, ConcurrentWritten, Displaced;
    DisplacePlaces(s, s.sched.channel[0].Seq());
    WriteOverIs(s);
    EnterTable(Displaced(s, s.sched.channel[0].Seq()), ConcurrentWritten(s, true));
  }

  lemma WritePlaces(s: System, ok: bool)
    requires PlacesOk(s) && s.sched.channel != []
    ensures PlacesOk(ConcurrentWritten(s, ok))
  {
    var s' := ConcurrentWritten(s, ok);
    var o := s.sched.channel[0];
    var num := o.Seq();
    if !ok {
      LoseHead(s, s');
    } else if num !in s.uart.table {
      EnterTable(s, s');
    } else {
      WriteOver(s);
    }
  }

  lemma HandReqsRemove(hand: seq<Held>, i: nat)
    requires i < |hand|
    ensures HandReqs(Without(hand, i)) == Without(HandReqs(hand), i)
  {
    var left, right := HandReqs(Without(hand, i)), Without(HandReqs(hand), i);
    forall j | 0 <= j < |hand| - 1 ensures left[j] == right[j] {
      assert Without(hand, i)[j] == hand[if j < i then j else j + 1];
    }
  }

  lemma HandRemove(hand: seq<Held>, i: nat, f: Flights, g: Flights)
    requires i < |hand| && FlightOk(f) && SeqAt(HandReqs(hand), InHand, f)
    requires SameBut(f, g, hand[i].req.addr) && NotAt(g, hand[i].req.addr, InHand)
    ensures SeqAt(HandReqs(Without(hand, i)), InHand, g)
  {
    HandReqsRemove(hand, i);
    SeqAtRemove(HandReqs(hand), InHand, f, g, i);
  }

  lemma UnreportedPlaces(cfg: Config, s: System, index: nat)
    requires PlacesOk(s) && index < |s.hand| && !Reportable(s.hand[index].kind)
    ensures PlacesOk(Finished(s, index))
  {
    var s' := Finished(s, index);
    var f, g, r := s.flight, s'.flight, s.hand[index].req;
    assert HandReqs(s.hand)[index] == r;
    assert SameBut(f, g, r.addr);
    HandRemove(s.hand, index, f, g);
    TableFrame(s.uart.table, f, g, r.addr);
    SeqAtAppend(s.lost, Lost, f, g, r);
    SeqAtFrame(ChannelReqs(s.sched.channel), InChannel, f, g, r.addr);
  }

  lemma ReportedPlaces(cfg: Config, s: System, index: nat)
    requires PlacesOk(s) && QueueOk(cfg, s.sched.cache) && index < |s.hand| && Reportable(s.hand[index].kind)
    ensures PlacesOk(Finished(s, index))
  {
    var s' := Finished(s, index);
    var f, g, addr := s.flight, s'.flight, s.hand[index].req.addr;
    assert HandReqs(s.hand)[index] == s.hand[index].req;
    assert SameBut(f, g, addr);
    HandRemove(s.hand, index, f, g);
    TableFrame(s.uart.table, f, g, addr);
    var queue := Queue(s.sched.cache, addr);
    if s.panicked || queue == [] {
      SeqAtFrame(s.lost, Lost, f, g, addr);
      SeqAtFrame(ChannelReqs(s.sched.channel), InChannel, f, g, addr);
    } else if !queue[0].Sendable() {
      SeqAtAppend(s.lost, Lost, f, g, queue[0]);
      SeqAtFrame(ChannelReqs(s.sched.channel), InChannel, f, g, addr);
    } else {
      SeqAtFrame(s.lost, Lost, f, g, addr);
      ChannelReqsAppend(s.sched.channel, Outgoing(queue[0], s.sched.created));
      SeqAtAppend(ChannelReqs(s.sched.channel), InChannel, f, g, queue[0]);
    }
  }

  lemma FinishPlaces(cfg: Config, s: System, index: nat)
    requires PlacesOk(s) && QueueOk(cfg, s.sched.cache) && index < |s.hand|
    ensures PlacesOk(Finished(s, index))
  {
    hide PlacesOk, QueueOk, Finished, Reportable;
    if Reportable(s.hand[index].kind) {
      ReportedPlaces(cfg, s, index);
    } else {
      UnreportedPlaces(cfg, s, index);
    }
  }

  lemma SweepPlaces(cfg: Config, s: System, addr: Addr)
    requires PlacesOk(s) && QueueOk(cfg, s.sched.cache) && addr !in s.flight
    ensures PlacesOk(Swept(s, addr))
  {
    if Sweepable(s.sched.cache, addr) {
      var head := s.sched.cache[addr].queue[0];
      if head.Sendable() {
        DispatchPlaces(s, Swept(s, addr), head, s.sched.created);
      } else {
        StrandPlaces(s, Swept(s, addr), head);
      }
    }
  }

  lemma ArrivePlaces(cfg: Config, s: System, r: Request, metering: bool, now: int)
    requires PlacesOk(s) && WaitingOk(s.sched.cache, s.flight) && r.id == s.arrivals
    ensures PlacesOk(Arrived(cfg, s, r.addr, r.payload, metering, now))
  {
    hide PlacesOk, Request.Sendable, ActiveAddrs;
    var s' := Arrived(cfg, s, r.addr, r.payload, metering, now);
    if Decide(cfg, s.sched.cache, r, metering) == Launch {
      DispatchPlaces(s, s', r, s.sched.created);
    } else {
      SamePlaces(s, s');
    }
  }

  lemma SamePlaces(s: System, s': System)
    requires PlacesOk(s) && s'.flight == s.flight && s'.sched.channel == s.sched.channel
    requires s'.uart.table == s.uart.table && s'.hand == s.hand && s'.lost == s.lost
    ensures PlacesOk(s')
  {
  }

  lemma PlacesKept(cfg: Config, s: System, step: Step)
    requires PlacesOk(s) && FlagsOk(s) && QueueOk(cfg, s.sched.cache) && Enabled(s, step)
    ensures PlacesOk(Apply(cfg, s, step))
  {
    hide PlacesOk, Arrived, ConcurrentWritten, Finished, TakenFromTable, AfterAging, QueueOk;
    var s' := Apply(cfg, s, step);
    match step
    case Arrive(addr, payload, metering, now) =>
      ArrivePlaces(cfg, s, Request(s.arrivals, addr, payload), metering, now);
    case ConcurrentWrite(ok) => WritePlaces(s, ok);
    case Receive(isReport, num, decodes) =>
      if Route(s.uart, isReport, num).ToConcurrent? {
        TakePlaces(s, num, ReceivedKind(isReport, decodes));
      } else {
        SamePlaces(s, s');
      }
    case TimerFires(num) => TakePlaces(s, num, Timeout);
    case Finish(index) => FinishPlaces(cfg, s, index);
    case Sweep(addr) =>
      if addr !in s.flight {
        SweepPlaces(cfg, s, addr);
      } else {
        SamePlaces(s, s');
      }
    case _ => SamePlaces(s, s');
  }

  // ---- the ledger ----

  lemma LedgerLaunch(dispatched: seq<Request>, reports: seq<Reported>, f: Flights, g: Flights, r: Request)
    requires LedgerOk(dispatched, reports, f) && r.addr !in f && SameBut(f, g, r.addr)
    requires r.addr in g && g[r.addr].req == r
    ensures LedgerOk(dispatched + [r], reports, g)
  {
    forall a ensures LedgerAt(dispatched + [r], reports, g, a) {
      OfAppend(dispatched, r, a);
      assert LedgerAt(dispatched, reports, f, a);
    }
  }

  lemma LedgerReport(dispatched: seq<Request>, reports: seq<Reported>, f: Flights, r: Reported)
    requires LedgerOk(dispatched, reports, f) && r.req.addr in f && f[r.req.addr].req == r.req
    ensures LedgerOk(dispatched, reports + [r], f - {r.req.addr})
  {
    var g := f - {r.req.addr};
    forall a ensures LedgerAt(dispatched, reports + [r], g, a) {
      ReportReqsAppend(reports, r);
      OfAppend(ReportReqs(reports), r.req, a);
      assert LedgerAt(dispatched, reports, f, a);
    }
  }

  /** The flight of `r` only changes its place. */
  lemma LedgerMove(dispatched: seq<Request>, reports: seq<Reported>, f: Flights, r: Request, place: Place)
    requires LedgerOk(dispatched, reports, f) && r.addr in f && f[r.addr].req == r
    ensures LedgerOk(dispatched, reports, f[r.addr := Flight(r, place)])
  {
    var g := f[r.addr := Flight(r, place)];
    forall a ensures LedgerAt(dispatched, reports, g, a) {
      assert LedgerAt(dispatched, reports, f, a);
    }
  }

  /** The head of a queue is dispatched, or the address becomes idle. */
  lemma LedgerRelaunch(s: System, addr: Addr)
    requires LedgerOk(s.dispatched, s.reports, s.flight - {addr})
    requires Queue(s.sched.cache, addr) != [] ==> Queue(s.sched.cache, addr)[0].addr == addr
    ensures var s' := Relaunched(s, addr); LedgerOk(s'.dispatched, s'.reports, s'.flight)
  {
    var queue := Queue(s.sched.cache, addr);
    if queue != [] {
      LedgerLaunch(s.dispatched, s.reports, s.flight - {addr}, Relaunched(s, addr).flight, queue[0]);
    }
  }

  lemma HeadInFlight(s: System)
    requires PlacesOk(s) && s.sched.channel != []
    ensures var r := s.sched.channel[0].req;
            r.addr in s.flight && s.flight[r.addr] == Flight(r, InChannel)
  {
    assert ChannelReqs(s.sched.channel)[0] == s.sched.channel[0].req;
  }

  lemma HandInFlight(s: System, index: nat)
    requires PlacesOk(s) && index < |s.hand|
    ensures var r := s.hand[index].req;
            r.addr in s.flight && s.flight[r.addr] == Flight(r, InHand)
  {
    assert HandReqs(s.hand)[index] == s.hand[index].req;
  }

  lemma LedgerWrite(s: System, ok: bool)
    requires PlacesOk(s) && s.sched.channel != [] && LedgerOk(s.dispatched, s.reports, s.flight)
    ensures var s' := ConcurrentWritten(s, ok); LedgerOk(s'.dispatched, s'.reports, s'.flight)
  {
    HeadInFlight(s);
    var o := s.sched.channel[0];
    var num := o.Seq();
    if !ok {
      LedgerMove(s.dispatched, s.reports, s.flight, o.req, Lost);
    } else if num in s.uart.table {
      var r := s.uart.table[num].req;
      LedgerMove(s.dispatched, s.reports, s.flight, r, Lost);
      LedgerMove(s.dispatched, s.reports, s.flight[r.addr := Flight(r, Lost)], o.req, InTable(num));
    } else {
      LedgerMove(s.dispatched, s.reports, s.flight, o.req, InTable(num));
    }
  }

  lemma LedgerFinish(cfg: Config, s: System, index: nat)
    requires PlacesOk(s) && QueueOk(cfg, s.sched.cache) && index < |s.hand|
    requires LedgerOk(s.dispatched, s.reports, s.flight)
    ensures var s' := Finished(s, index); LedgerOk(s'.dispatched, s'.reports, s'.flight)
  {
    HandInFlight(s, index);
    var h := s.hand[index];
    if Reportable(h.kind) {
      var rep := Reported(h.req, if h.kind == Timeout then TimedOut else Answered);
      LedgerReport(s.dispatched, s.reports, s.flight, rep);
      LedgerRelaunch(s.(hand := Without(s.hand, index), reports := s.reports + [rep]), h.req.addr);
    } else {
      LedgerMove(s.dispatched, s.reports, s.flight, h.req, Lost);
    }
  }

  lemma LedgerArrive(cfg: Config, s: System, addr: Addr, payload: Payload, metering: bool, now: int)
    requires FlagsOk(s) && !s.panicked && LedgerOk(s.dispatched, s.reports, s.flight)
    ensures var s' := Arrived(cfg, s, addr, payload, metering, now); LedgerOk(s'.dispatched, s'.reports, s'.flight)
  {
    hide AfterArrival, LedgerOk, Request.Sendable, ActiveAddrs;
    var r, s' := Request(s.arrivals, addr, payload), Arrived(cfg, s, addr, payload, metering, now);
    if Decide(cfg, s.sched.cache, r, metering) == Launch {
      LedgerLaunch(s.dispatched, s.reports, s.flight, s'.flight, r);
    }
  }

  lemma LedgerTake(s: System, num: SeqNum, kind: Kind)
    requires PlacesOk(s) && num in s.uart.table && LedgerOk(s.dispatched, s.reports, s.flight)
    ensures var s' := TakenFromTable(s, num, kind); LedgerOk(s'.dispatched, s'.reports, s'.flight)
  {
    hide LedgerOk;
    LedgerMove(s.dispatched, s.reports, s.flight, s.uart.table[num].req, InHand);
  }

  lemma LedgerReceive(s: System, isReport: bool, num: SeqNum, decodes: bool)
    requires PlacesOk(s) && LedgerOk(s.dispatched, s.reports, s.flight)
    ensures var s' := Received(s, isReport, num, decodes); LedgerOk(s'.dispatched, s'.reports, s'.flight)
  {
    hide LedgerOk, PlacesOk, TakenFromTable;
    if Route(s.uart, isReport, num).ToConcurrent? {
      LedgerTake(s, num, ReceivedKind(isReport, decodes));
    }
  }

  lemma LedgerSweep(cfg: Config, s: System, addr: Addr)
    requires QueueOk(cfg, s.sched.cache) && FlagsOk(s) && !s.panicked && LedgerOk(s.dispatched, s.reports, s.flight)
    ensures var s' := Swept(s, addr); LedgerOk(s'.dispatched, s'.reports, s'.flight)
  {
    hide LedgerOk, Relaunched;
    if Sweepable(s.sched.cache, addr) {
      assert s.flight - {addr} == s.flight;
      LedgerRelaunch(s, addr);
    }
  }

  lemma LedgerKept(cfg: Config, s: System, step: Step)
    requires PlacesOk(s) && QueueOk(cfg, s.sched.cache) && FlagsOk(s)
    requires LedgerOk(s.dispatched, s.reports, s.flight) && Enabled(s, step)
    ensures var s' := Apply(cfg, s, step); LedgerOk(s'.dispatched, s'.reports, s'.flight)
  {
    hide PlacesOk, QueueOk, FlagsOk, LedgerOk, Arrived, ConcurrentWritten, TakenFromTable, Received, Finished, Swept;
    match step
    case Arrive(addr, payload, metering, now) => LedgerArrive(cfg, s, addr, payload, metering, now);
    case ConcurrentWrite(ok) => LedgerWrite(s, ok);
    case Receive(isReport, num, decodes) => LedgerReceive(s, isReport, num, decodes);
    case TimerFires(num) => LedgerTake(s, num, Timeout);
    case Finish(index) => LedgerFinish(cfg, s, index);
    case Sweep(addr) => LedgerSweep(cfg, s, addr);
    case _ =>
  }

  // ---- queues and flags ----

  lemma ConservedHead(accepted: seq<Request>, dispatched: seq<Request>, queue: seq<Request>)
    requires queue != [] && multiset(accepted) == multiset(dispatched) + multiset(queue)
    ensures multiset(accepted) == multiset(dispatched + [queue[0]]) + multiset(queue[1..])
  {
    assert queue == [queue[0]] + queue[1..];
  }

  lemma ConservedLaunch(accepted: seq<Request>, dispatched: seq<Request>, cache: Cache, cache': Cache, addr: Addr)
    requires Conserved(accepted, dispatched, cache)
    requires Queue(cache, addr) != [] && Queue(cache, addr)[0].addr == addr
    requires Queue(cache', addr) == Queue(cache, addr)[1..]
    requires forall a :: a != addr ==> Queue(cache', a) == Queue(cache, a)
    ensures Conserved(accepted, dispatched + [Queue(cache, addr)[0]], cache')
  {
    var r := Queue(cache, addr)[0];
    forall a ensures ConservedAt(accepted, dispatched + [r], cache', a) {
      OfAppend(dispatched, r, a);
      assert ConservedAt(accepted, dispatched, cache, a);
      if a == addr {
        ConservedHead(Of(accepted, a), Of(dispatched, a), Queue(cache, a));
      }
    }
  }

  /** One more accepted request, dispatched or queued. */
  lemma ConservedAccept(s: System, s': System, r: Request, addr: Addr)
    requires ConservedAt(s.accepted, s.dispatched, s.sched.cache, addr)
    requires s'.accepted == s.accepted + [r]
    requires
      || (s'.dispatched == s.dispatched + [r] && Queue(s'.sched.cache, addr) == Queue(s.sched.cache, addr))
      || (s'.dispatched == s.dispatched
          && Queue(s'.sched.cache, addr) == Queue(s.sched.cache, addr) + (if r.addr == addr then [r] else []))
    ensures ConservedAt(s'.accepted, s'.dispatched, s'.sched.cache, addr)
  {
    OfAppend(s.accepted, r, addr);
    OfAppend(s.dispatched, r, addr);
  }

  lemma ConservedArrive(cfg: Config, s: System, addr: Addr, payload: Payload, metering: bool, now: int)
    requires Conserved(s.accepted, s.dispatched, s.sched.cache)
    ensures var s' := Arrived(cfg, s, addr, payload, metering, now);
            Conserved(s'.accepted, s'.dispatched, s'.sched.cache)
  {
    var s' := Arrived(cfg, s, addr, payload, metering, now);
    var r := Request(s.arrivals, addr, payload);
    var d := Decide(cfg, s.sched.cache, r, metering);
    if d.Refuse? || d.Fatal? {
      ConservedSame(s.accepted, s.dispatched, s.sched.cache, s'.sched.cache);
    } else {
      forall a ensures ConservedAt(s'.accepted, s'.dispatched, s'.sched.cache, a) {
        assert ConservedAt(s.accepted, s.dispatched, s.sched.cache, a);
        ConservedAccept(s, s', r, a);
      }
    }
  }

  lemma ConservedSame(accepted: seq<Request>, dispatched: seq<Request>, cache: Cache, cache': Cache)
    requires Conserved(accepted, dispatched, cache)
    requires forall a :: Queue(cache', a) == Queue(cache, a)
    ensures Conserved(accepted, dispatched, cache')
  {
    forall a ensures ConservedAt(accepted, dispatched, cache', a) {
      assert ConservedAt(accepted, dispatched, cache, a);
    }
  }

  lemma ConservedRelaunch(cfg: Config, s: System, addr: Addr)
    requires Conserved(s.accepted, s.dispatched, s.sched.cache) && QueueOk(cfg, s.sched.cache)
    ensures var s' := Relaunched(s, addr); Conserved(s'.accepted, s'.dispatched, s'.sched.cache)
  {
    var s' := Relaunched(s, addr);
    if Queue(s.sched.cache, addr) != [] {
      ConservedLaunch(s.accepted, s.dispatched, s.sched.cache, s'.sched.cache, addr);
    } else {
      ConservedSame(s.accepted, s.dispatched, s.sched.cache, s'.sched.cache);
    }
  }

  lemma ConservedAge(cfg: Config, s: System, now: int)
    requires Conserved(s.accepted, s.dispatched, s.sched.cache)
    ensures Conserved(s.accepted, s.dispatched, AfterAging(cfg, s.sched.cache, now))
  {
    ConservedSame(s.accepted, s.dispatched, s.sched.cache, AfterAging(cfg, s.sched.cache, now));
  }

  lemma ConservedFinish(cfg: Config, s: System, index: nat)
    requires Conserved(s.accepted, s.dispatched, s.sched.cache) && QueueOk(cfg, s.sched.cache) && index < |s.hand|
    ensures var s' := Finished(s, index); Conserved(s'.accepted, s'.dispatched, s'.sched.cache)
  {
    if Reportable(s.hand[index].kind) {
      ConservedRelaunch(cfg, s, s.hand[index].req.addr);
    }
  }

  /** Only four kinds of step change the log of acceptances, that of dispatches or a queue. */
  lemma ConservedKept(cfg: Config, s: System, step: Step)
    requires Conserved(s.accepted, s.dispatched, s.sched.cache) && QueueOk(cfg, s.sched.cache) && Enabled(s, step)
    ensures var s' := Apply(cfg, s, step); Conserved(s'.accepted, s'.dispatched, s'.sched.cache)
  {
    hide Arrived, Finished, Relaunched, AfterAging, QueueOk, Conserved, Route, Sweepable;
    match step
    case Arrive(addr, payload, metering, now) => ConservedArrive(cfg, s, addr, payload, metering, now);
    case Finish(index) => ConservedFinish(cfg, s, index);
    case Sweep(addr) => ConservedRelaunch(cfg, s, addr);
    case Age(now) => ConservedAge(cfg, s, now);
    case _ =>
  }

  /** The addresses in flight after a step that dispatches nothing and reports nothing. */
  lemma FlightKeys(s: System, step: Step, cfg: Config)
    requires PlacesOk(s) && Enabled(s, step)
    requires step.ConcurrentWrite? || step.Receive? || step.TimerFires?
    ensures Apply(cfg, s, step).flight.Keys == s.flight.Keys
  {
    if step.ConcurrentWrite? {
      HeadInFlight(s);
    }
  }

  lemma {:induction false} WaitingKept(cfg: Config, s: System, step: Step)
    requires PlacesOk(s) && FlagsOk(s) && Enabled(s, step)
    ensures FlagsOk(Apply(cfg, s, step))
  {
    if !s.panicked {
      if step.ConcurrentWrite? || step.Receive? || step.TimerFires? {
        FlightKeys(s, step, cfg);
      } else if step.Finish? {
        HandInFlight(s, step.index);
        WaitingFinish(s, step.index);
      } else {
        WaitingOther(cfg, s, step);
      }
    }
  }

  lemma WaitingFinish(s: System, index: nat)
    requires WaitingOk(s.sched.cache, s.flight) && index < |s.hand| && s.hand[index].req.addr in s.flight
    ensures FlagsOk(Finished(s, index))
  {
  }

  lemma WaitingOther(cfg: Config, s: System, step: Step)
    requires WaitingOk(s.sched.cache, s.flight) && Enabled(s, step)
    requires !(step.ConcurrentWrite? || step.Receive? || step.TimerFires? || step.Finish?)
    ensures FlagsOk(Apply(cfg, s, step))
  {
  }

  lemma QueueArrival(cfg: Config, s: Scheduler, r: Request, metering: bool, now: int)
    requires QueueOk(cfg, s.cache)
    ensures QueueOk(cfg, AfterArrival(cfg, s, r, metering, now).cache)
  {
    hide ActiveAddrs, Request.Sendable;
  }

  lemma QueueArrive(cfg: Config, s: System, addr: Addr, payload: Payload, metering: bool, now: int)
    requires QueueOk(cfg, s.sched.cache)
    ensures QueueOk(cfg, Arrived(cfg, s, addr, payload, metering, now).sched.cache)
  {
    hide AfterArrival, Decide, QueueOk;
    QueueArrival(cfg, s.sched, Request(s.arrivals, addr, payload), metering, now);
  }

  lemma QueueReport(cfg: Config, s: Scheduler, addr: Addr)
    requires QueueOk(cfg, s.cache)
    ensures QueueOk(cfg, AfterReport(s, addr).cache)
  {
  }

  lemma QueueKept(cfg: Config, s: System, step: Step)
    requires QueueOk(cfg, s.sched.cache) && Enabled(s, step)
    ensures QueueOk(cfg, Apply(cfg, s, step).sched.cache)
  {
    match step
    case Arrive(addr, payload, metering, now) => QueueArrive(cfg, s, addr, payload, metering, now);
    case Finish(index) => QueueReport(cfg, s.sched, s.hand[index].req.addr);
    case Sweep(addr) => QueueReport(cfg, s.sched, addr);
    case _ =>
  }

  lemma NumberedArrive(cfg: Config, s: System, addr: Addr, payload: Payload, metering: bool, now: int)
    requires NumberedOk(s.accepted, s.arrivals)
    ensures var s' := Arrived(cfg, s, addr, payload, metering, now); NumberedOk(s'.accepted, s'.arrivals)
  {
    hide Decide, AfterArrival;
    var s', r := Arrived(cfg, s, addr, payload, metering, now), Request(s.arrivals, addr, payload);
    assert s'.accepted == s.accepted || s'.accepted == s.accepted + [r];
  }

  lemma NumberedKept(cfg: Config, s: System, step: Step)
    requires NumberedOk(s.accepted, s.arrivals) && Enabled(s, step)
    ensures var s' := Apply(cfg, s, step); NumberedOk(s'.accepted, s'.arrivals)
  {
    hide Arrived, AfterReport, Route, Reportable, NumberedOk;
    if step.Arrive? {
      NumberedArrive(cfg, s, step.addr, step.payload, step.metering, step.now);
    }
  }

  lemma InvKept(cfg: Config, s: System, step: Step)
    requires Inv(cfg, s) && Enabled(s, step)
    ensures Inv(cfg, Apply(cfg, s, step))
  {
    PlacesKept(cfg, s, step);
    WaitingKept(cfg, s, step);
    QueueKept(cfg, s, step);
    LedgerKept(cfg, s, step);
    ConservedKept(cfg, s, step);
    NumberedKept(cfg, s, step);
  }

  lemma {:induction false} InvHolds(cfg: Config, steps: seq<Step>)
    requires Possible(cfg, steps)
    ensures Inv(cfg, Run(cfg, steps))
    decreases |steps|
  {
    if steps != [] {
      var prefix := steps[..|steps| - 1];
      InvHolds(cfg, prefix);
      InvKept(cfg, Run(cfg, prefix), steps[|steps| - 1]);
    }
  }
}
