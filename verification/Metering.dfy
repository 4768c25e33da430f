/** The concurrent meter-reading scheduler: one bounded queue and one waiting flag
    for each meter address, which lets one request of an address out at a time. */
module Metering {
  import opened Wrappers
  import opened WireForm

  type Addr = string

  /** What a message carries beside the address, as text. */
  datatype Payload = Payload(proType: string, data: string)

  /** A meter-reading message; `id` numbers the arrivals. */
  datatype Request = Request(id: nat, addr: Addr, payload: Payload) {
    /** A frame can be made of it. Making a frame of any other message panics, with the
        scheduler's lock held. */
    predicate Sendable() {
      Wire(addr).Some? && Protocol8(payload.proType).Some? && IsHex(payload.data)
    }
  }

  const METER := "000000000001"
  const OTHER_METER := "000000000002"
  const PAYLOAD := Payload("1", "00")

  /** Messages that can be sent, for the runs below that show what can happen. */
  lemma SampleIsSendable(id: nat)
    ensures Request(id, METER, PAYLOAD).Sendable() && Request(id, OTHER_METER, PAYLOAD).Sendable()
    ensures METER != OTHER_METER
  {
    assert METER[11] != OTHER_METER[11];
    assert DecimalFrom("1", 0) == DecimalFrom("1"[1..], 1);
  }

  datatype SampleCache = SampleCache(waiting: bool, queue: seq<Request>, lastOperation: int)

  type Cache = map<Addr, SampleCache>

  datatype Config = Config(addrLimit: nat, queueLimit: nat, agingTime: int)

  datatype MeterError = AddrLimit(limit: nat) | QueueLimit(limit: nat)

  /** A request frame on its way to the serial line. `index` counts all request frames
      ever created; the frame carries the low byte of that count. */
  datatype Outgoing = Outgoing(req: Request, index: nat) {
    function Seq(): nat { index % 256 }
  }

  /** What the scheduler's lock and the two things it writes to hold. */
  datatype Scheduler = Scheduler(cache: Cache, created: nat, channel: seq<Outgoing>)

  predicate Waiting(cache: Cache, addr: Addr) {
    addr in cache && cache[addr].waiting
  }

  function Queue(cache: Cache, addr: Addr): seq<Request> {
    if addr in cache then cache[addr].queue else []
  }

  function ActiveAddrs(cache: Cache): set<Addr> {
    set a | a in cache && (cache[a].waiting || cache[a].queue != [])
  }

  // ---- specification of the lock-held operations ----

  /** What happens to an arriving message; `Fatal` is the panic. */
  datatype Decision = Launch | Fatal | Park | Refuse(error: MeterError)

  function Decide(cfg: Config, cache: Cache, r: Request, metering: bool): Decision {
    if r.addr !in cache && |ActiveAddrs(cache)| >= cfg.addrLimit then Refuse(AddrLimit(cfg.addrLimit))
    else if !Waiting(cache, r.addr) && !metering then if r.Sendable() then Launch else Fatal
    else if |Queue(cache, r.addr)| >= cfg.queueLimit then Refuse(QueueLimit(cfg.queueLimit))
    else Park
  }

  /** The entry an arriving message is handled with: the one there, or a new idle one. */
  function EntryFor(cache: Cache, addr: Addr, now: int): SampleCache {
    if addr in cache then cache[addr] else SampleCache(false, [], now)
  }

  /** Creates the frame of `r`, sends it and marks the address. */
  function Dispatch(s: Scheduler, addr: Addr, r: Request, entry: SampleCache): Scheduler {
    Scheduler(s.cache[addr := entry.(waiting := true)], s.created + 1, s.channel + [Outgoing(r, s.created)])
  }

  function AfterArrival(cfg: Config, s: Scheduler, r: Request, metering: bool, now: int): Scheduler {
    var entry := EntryFor(s.cache, r.addr, now);
    match Decide(cfg, s.cache, r, metering)
    case Launch => Dispatch(s, r.addr, r, entry)
    case Fatal => s.(cache := s.cache[r.addr := entry])
    case Park => s.(cache := s.cache[r.addr := entry.(queue := entry.queue + [r], lastOperation := now)])
    case Refuse(AddrLimit(_)) => s
    case Refuse(QueueLimit(_)) => s.(cache := s.cache[r.addr := entry])
  }

  /** The next queued request of an address cannot be sent. */
  predicate HeadPanics(cache: Cache, addr: Addr) {
    Queue(cache, addr) != [] && !Queue(cache, addr)[0].Sendable()
  }

  /** After a report: the next queued request goes out, or the address becomes idle. A request
      that cannot be sent is gone from the queue when the program panics. */
  function AfterReport(s: Scheduler, addr: Addr): Scheduler {
    if addr !in s.cache then s
    else
      var entry := s.cache[addr];
      if entry.queue == [] then s.(cache := s.cache[addr := entry.(waiting := false)])
      else if HeadPanics(s.cache, addr) then s.(cache := s.cache[addr := entry.(queue := entry.queue[1..])])
      else Dispatch(s, addr, entry.queue[0], entry.(queue := entry.queue[1..]))
  }

  predicate Sweepable(cache: Cache, addr: Addr) {
    addr in cache && !cache[addr].waiting && cache[addr].queue != []
  }

  /** One address of the sweep that restarts idle addresses with queued messages. */
  function SweepOne(s: Scheduler, addr: Addr): Scheduler {
    if Sweepable(s.cache, addr) then AfterReport(s, addr) else s
  }

  predicate SweepPanics(cache: Cache, addr: Addr) {
    Sweepable(cache, addr) && HeadPanics(cache, addr)
  }

  /** The sweep over addresses in some order, up to a panic; and whether it came to its end. */
  function SweepAll(s: Scheduler, order: seq<Addr>): (Scheduler, bool) {
    if order == [] then (s, true)
    else
      var (s', ends) := SweepAll(s, order[..|order| - 1]);
      var last := order[|order| - 1];
      if ends then (SweepOne(s', last), !SweepPanics(s'.cache, last)) else (s', false)
  }

  predicate Retained(cfg: Config, entry: SampleCache, now: int) {
    entry.waiting || entry.queue != [] || now - entry.lastOperation < cfg.agingTime
  }

  function AfterAging(cfg: Config, cache: Cache, now: int): Cache {
    map a | a in cache && Retained(cfg, cache[a], now) :: cache[a]
  }

  // ---- the scheduler object ----

  /** The process-wide frame counter. */
  class FrameCounter {
    var created: nat

    constructor ()
      ensures created == 0
    {
      created := 0;
    }

    method FetchAdd() returns (index: nat)
      modifies this
      ensures index == old(created) && created == old(created) + 1
    {
      index := created;
      created := created + 1;
    }
  }

  /** The sending half of the channel to the concurrent writer thread. */
  class Channel {
    var items: seq<Outgoing>

    constructor ()
      ensures items == []
    {
      items := [];
    }

    method Send(o: Outgoing)
      modifies this
      ensures items == old(items) + [o]
    {
      items := items + [o];
    }
  }

  class ConcurrentMeter {
    const cfg: Config
    const counter: FrameCounter
    const outbox: Channel
    var sampleCache: Cache

    constructor (cfg: Config, counter: FrameCounter, outbox: Channel)
      ensures this.cfg == cfg && this.counter == counter && this.outbox == outbox && sampleCache == map[]
    {
      this.cfg := cfg;
      this.counter := counter;
      this.outbox := outbox;
      sampleCache := map[];
    }

    ghost function View(): Scheduler
      reads this, counter, outbox
    {
      Scheduler(sampleCache, counter.created, outbox.items)
    }

    /** Builds the request frame and hands it to the concurrent writer, or panics. */
    method SendReading(r: Request) returns (sent: bool)
      modifies counter, outbox
      ensures sent <==> r.Sendable()
      ensures sent <==> Wire(r.addr).Some? && Protocol8(r.payload.proType).Some? && IsHex(r.payload.data)
      ensures sent ==> counter.created == old(counter.created) + 1
      ensures sent ==> outbox.items == old(outbox.items) + [Outgoing(r, old(counter.created))]
      ensures !sent ==> counter.created == old(counter.created) && outbox.items == old(outbox.items)
    {
      var address := Wire(r.addr);
      if address.None? {
        return false;
      }
      var protocol := Protocol8(r.payload.proType);
      if protocol.None? || !IsHex(r.payload.data) {
        return false;
      }
      var index := counter.FetchAdd();
      outbox.Send(Outgoing(r, index));
      return true;
    }

    /** No result is the panic. */
    method HandleMeterReading(r: Request, metering: bool, now: int) returns (res: Option<Result<(), MeterError>>)
      modifies this`sampleCache, counter, outbox
      ensures View() == AfterArrival(cfg, old(View()), r, metering, now)
      ensures match Decide(cfg, old(sampleCache), r, metering)
              case Fatal => res == None
              case Refuse(error) => res == Some(Err(error))
              case _ => res == Some(Ok(()))
      ensures res == Some(Err(AddrLimit(cfg.addrLimit))) <==>
              r.addr !in old(sampleCache)
              && |set a | a in old(sampleCache)
                          && (old(sampleCache)[a].waiting || old(sampleCache)[a].queue != [])| >= cfg.addrLimit
      ensures res == Some(Err(QueueLimit(cfg.queueLimit))) <==>
              res != Some(Err(AddrLimit(cfg.addrLimit)))
              && (metering || Waiting(old(sampleCache), r.addr)) && |Queue(old(sampleCache), r.addr)| >= cfg.queueLimit
      ensures res.Some? && res.value.Err? ==>
              res.value.error == AddrLimit(cfg.addrLimit) || res.value.error == QueueLimit(cfg.queueLimit)
    {
      if r.addr !in sampleCache {
        if |ActiveAddrs(sampleCache)| >= cfg.addrLimit {
          return Some(Err(AddrLimit(cfg.addrLimit)));
        }
        sampleCache := sampleCache[r.addr := SampleCache(false, [], now)];
      }
      var entry := sampleCache[r.addr];
      if entry.waiting || metering {
        if |entry.queue| >= cfg.queueLimit {
          return Some(Err(QueueLimit(cfg.queueLimit)));
        }
        sampleCache := sampleCache[r.addr := entry.(queue := entry.queue + [r], lastOperation := now)];
      } else {
        var sent := SendReading(r);
        if !sent {
          return None;
        }
        sampleCache := sampleCache[r.addr := entry.(waiting := true)];
      }
      return Some(Ok(()));
    }

    method HandleNextRequest(addr: Addr) returns (survives: bool)
      modifies this`sampleCache, counter, outbox
      ensures View() == AfterReport(old(View()), addr)
      ensures survives <==> !HeadPanics(old(sampleCache), addr)
    {
      if addr in sampleCache {
        var entry := sampleCache[addr];
        if entry.queue == [] {
          sampleCache := sampleCache[addr := entry.(waiting := false)];
        } else {
          sampleCache := sampleCache[addr := entry.(queue := entry.queue[1..])];
          var sent := SendReading(entry.queue[0]);
          if !sent {
            return false;
          }
          sampleCache := sampleCache[addr := entry.(queue := entry.queue[1..], waiting := true)];
        }
      }
      return true;
    }

    /** The loop body of the sweep. */
    method RestartIdle(addr: Addr) returns (survives: bool)
      requires addr in sampleCache
      modifies this`sampleCache, counter, outbox
      ensures View() == SweepOne(old(View()), addr) && sampleCache.Keys == old(sampleCache.Keys)
      ensures survives <==> !SweepPanics(old(sampleCache), addr)
    {
      var entry := sampleCache[addr];
      if entry.waiting || entry.queue == [] {
        return true;
      }
      sampleCache := sampleCache[addr := entry.(queue := entry.queue[1..])];
      var sent := SendReading(entry.queue[0]);
      if sent {
        sampleCache := sampleCache[addr := entry.(queue := entry.queue[1..], waiting := true)];
      }
      return sent;
    }

    /** Visits every address once, in an order the hash map chooses, unless it panics. */
    method HandleCacheRequest() returns (ghost order: seq<Addr>, survives: bool)
      modifies this`sampleCache, counter, outbox
      ensures (View(), survives) == SweepAll(old(View()), order)
      ensures forall a :: a in order ==> a in old(sampleCache)
      ensures survives ==> forall a :: a in old(sampleCache) ==> a in order
      ensures forall i, j :: 0 <= i < j < |order| ==> order[i] != order[j]
    {
      hide SweepOne, SweepPanics;
      order := [];
      var left := sampleCache.Keys;
      survives := true;
      while left != {} && survives
        invariant (View(), survives) == SweepAll(old(View()), order)
        invariant sampleCache.Keys == old(sampleCache).Keys && left <= sampleCache.Keys
        invariant forall a :: a in order <==> a in old(sampleCache) && a !in left
        invariant forall i, j :: 0 <= i < j < |order| ==> order[i] != order[j]
        decreases left
      {
        var addr :| addr in left;
        left := left - {addr};
        survives := RestartIdle(addr);
        assert (order + [addr])[..|order|] == order;
        order := order + [addr];
      }
    }

    method AgeQueues(now: int)
      modifies this`sampleCache
      ensures sampleCache == AfterAging(cfg, old(sampleCache), now)
    {
      sampleCache := map a | a in sampleCache && Retained(cfg, sampleCache[a], now) :: sampleCache[a];
    }
  }
}
