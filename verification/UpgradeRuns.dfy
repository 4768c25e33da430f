/** Upgrades one after another: when the next upgrade of the module can succeed. */
module UpgradeRuns {
  import opened Wrappers
  import opened Bytes
  import opened Chunking
  import opened FileUpgrade

  // ---- the ledger of results ----

  /** Every result that was asked for or reported is left, taken or overwritten. */
  predicate Balanced(p: Place) {
    Left(p) + p.history.taken + p.history.overwritten == p.history.asked + p.history.reported
  }

  lemma DeliverBalanced(p: Place, k: nat, at: Option<nat>)
    requires Balanced(p)
    ensures Balanced(Deliver(p, k, at))
  {
  }

  lemma TakeBalanced(p: Place)
    requires Balanced(p) && p.result.Some?
    ensures Balanced(Take(p))
  {
  }

  lemma AskBalanced(p: Place, w: Write)
    requires Balanced(p)
    ensures Balanced(Ask(p, w))
  {
  }

  lemma ExchangeBalanced(p: Place, answer: Answer, k: nat)
    requires Balanced(p)
    ensures Balanced(Exchange(p, answer, k).0)
  {
    hide Balanced, Deliver, Take, Ask;
    var asked := Ask(p, Write(answer, false));
    assert asked.onTheWay == p.onTheWay + [Write(answer, false)] by { AskIs(p, Write(answer, false)); }
    AskBalanced(p, Write(answer, false));
    DeliverBalanced(asked, AtLeastOne(k), None);
    TakeBalanced(Wait(asked, k));
  }

  lemma AskIs(p: Place, w: Write)
    ensures Ask(p, w).onTheWay == p.onTheWay + [w] && Ask(p, w).result == p.result
  {
  }

  lemma {:induction false} SendingBalanced(p: Place, answers: seq<Answer>, wakes: seq<nat>, n: nat, i: nat)
    requires i <= n <= |answers| && n <= |wakes| && Balanced(p)
    ensures Balanced(Sending(p, answers, wakes, n, i).place)
    decreases n - i
  {
    hide Balanced, Exchange;
    if i < n {
      ExchangeBalanced(p, answers[i], wakes[i]);
      if Expected(i, Exchange(p, answers[i], wakes[i]).1) {
        SendingBalanced(Exchange(p, answers[i], wakes[i]).0, answers, wakes, n, i + 1);
      }
    }
  }

  lemma RoundBalanced(p: Place, r: Round)
    requires Balanced(p)
    ensures Balanced(AfterRound(p, r).0)
    ensures AfterRound(p, r).0.upgrading == p.upgrading && AfterRound(p, r).0.dead == p.dead
  {
    hide Balanced, Deliver, Ends;
    if p.result.Some? {
      TakeBalanced(p);
    } else if r.quick > 0 && p.onTheWay != [] {
      DeliverBalanced(p, r.quick, None);
      TakeBalanced(Deliver(p, r.quick, None));
    } else {
      AskBalanced(p, r.status);
      DeliverBalanced(Ask(p, r.status), AtLeastOne(r.writes), None);
      TakeBalanced(Deliver(Ask(p, r.status), AtLeastOne(r.writes), None));
    }
  }

  lemma {:induction false} RoundsBalanced(p: Place, rounds: seq<Round>, n: nat, i: nat)
    requires i <= n <= |rounds| && Balanced(p)
    ensures var p' := AfterRounds(p, rounds, n, i).place; Balanced(p') && p'.dead == p.dead
    decreases n - i
  {
    hide Balanced, AfterRound;
    if i < n {
      RoundBalanced(p, rounds[i]);
      if !AfterRound(p, rounds[i]).1 {
        RoundsBalanced(AfterRound(p, rounds[i]).0, rounds, n, i + 1);
      }
    }
  }

  lemma FlagsBalanced(p: Place, upgrading: bool, dead: bool)
    requires Balanced(p)
    ensures Balanced(p.(upgrading := upgrading, dead := dead))
  {
  }

  // ---- runs ----

  /** An upgrade of the module or of the meters, or an answer or the module's report that comes
      when neither is under way. A report comes so late only if the reader had asked whether
      an upgrade is under way before that one ended. */
  datatype Event =
    | Module(attempt: Attempt, end: ModuleEnd)
    | Meters(attempt: Attempt, total: nat, rounds: seq<Round>)
    | LateAnswer
    | LateReport
  {
    predicate Complete() {
      match this
      case Module(a, _) => a.Answered()
      case Meters(a, total, rounds) => a.Answered() && |rounds| >= Rounds(total)
      case _ => true
    }
  }

  function After(p: Place, e: Event): Place
    requires e.Complete()
  {
    match e
    case Module(a, end) => Attempted(p, a, end).0
    case Meters(a, total, rounds) => Metered(p, a, total, rounds)
    case LateAnswer => if p.dead then p else Deliver(p, 1, None)
    case LateReport => if p.dead then p else Deliver(p, 0, Some(0))
  }

  predicate AllComplete(events: seq<Event>) {
    forall i :: 0 <= i < |events| ==> events[i].Complete()
  }

  function AfterAll(p: Place, events: seq<Event>): Place
    requires AllComplete(events)
    decreases events
  {
    if events == [] then p else AfterAll(After(p, events[0]), events[1..])
  }

  /** Between upgrades the flag is down, or the lock is gone. */
  predicate Settled(p: Place) {
    Balanced(p) && (p.upgrading ==> p.dead)
  }

  lemma ModuleSettled(p: Place, a: Attempt, end: ModuleEnd)
    requires a.Answered() && Settled(p)
    ensures Settled(Attempted(p, a, end).0)
  {
    hide Balanced, Sending, Deliver, Ends, Count, Unsendable, Arrivals;
    FlagsBalanced(p, true, true);
    if !p.dead && !Unsendable(a.content, a.maxPacket) {
      CanCount(a.content, a.maxPacket);
      MovedBalanced(p, a);
      var sent := Moved(p, a).place;
      var gone := AfterGap(sent, a);
      FlagsBalanced(sent, false, sent.dead);
      DeliverBalanced(sent, a.gap, if a.early then Some(a.gap) else None);
      WaitBalanced(gone, end);
    }
  }

  lemma WaitBalanced(p: Place, end: ModuleEnd)
    requires Balanced(p) && p.upgrading
    ensures Settled(AfterWait(p, end).0)
  {
    hide Balanced, Deliver, Ends, Arrivals;
    FlagsBalanced(p, true, true);
    FlagsBalanced(p, false, p.dead);
    if end.Wakes? {
      var (k, at) := Arrivals(p.onTheWay, AtLeastOne(end.writes), end.report);
      DeliverBalanced(p, k, at);
      FlagsBalanced(Deliver(p, k, at), true, true);
      FlagsBalanced(Deliver(p, k, at), false, p.dead);
    }
  }

  lemma MovedBalanced(p: Place, a: Attempt)
    requires a.Answered() && a.maxPacket > PREFIX_LEN && Balanced(p)
    ensures Balanced(Moved(p, a).place)
  {
    FlagsBalanced(p, true, p.dead);
    SendingBalanced(p.(upgrading := true), a.answers, a.wakes, Count(a.content, a.maxPacket), 0);
  }

  lemma MetersSettled(p: Place, a: Attempt, total: nat, rounds: seq<Round>)
    requires a.Answered() && |rounds| >= Rounds(total) && Settled(p)
    ensures Settled(Metered(p, a, total, rounds))
  {
    hide Balanced, Sending, Deliver, Count, Unsendable, AfterRounds;
    FlagsBalanced(p, true, true);
    if !p.dead && !Unsendable(a.content, a.maxPacket) {
      CanCount(a.content, a.maxPacket);
      MovedBalanced(p, a);
      var sent := Moved(p, a).place;
      var gone := AfterGap(sent, a);
      FlagsBalanced(sent, false, sent.dead);
      DeliverBalanced(sent, a.gap, if a.early then Some(a.gap) else None);
      RoundsBalanced(gone, rounds, Rounds(total), 0);
      FlagsBalanced(AfterRounds(gone, rounds, Rounds(total), 0).place, false, gone.dead);
    }
  }

  lemma CanCount(content: seq<byte>, maxPacket: u16)
    requires !Unsendable(content, maxPacket)
    ensures maxPacket > PREFIX_LEN
  {
  }

  lemma EventSettled(p: Place, e: Event)
    requires e.Complete() && Settled(p)
    ensures Settled(After(p, e))
  {
    hide Attempted, Metered, Deliver, Balanced;
    match e
    case Module(a, end) => ModuleSettled(p, a, end);
    case Meters(a, total, rounds) => MetersSettled(p, a, total, rounds);
    case LateAnswer => DeliverBalanced(p, 1, None);
    case LateReport => DeliverBalanced(p, 0, Some(0));
  }

  lemma {:induction false} RunSettled(p: Place, events: seq<Event>)
    requires AllComplete(events) && Settled(p)
    ensures Settled(AfterAll(p, events))
    decreases events
  {
    hide After, Settled, Event.Complete;
    if events != [] {
      EventSettled(p, events[0]);
      RunSettled(After(p, events[0]), events[1..]);
    }
  }

  // ---- an upgrade in which every wait ends with the first write ----

  /** No result is overwritten, none comes between transfer and wait, and the report comes
      behind the answers. */
  predicate InOrder(p: Place, a: Attempt, end: ModuleEnd) {
    && (forall i :: 0 <= i < |a.wakes| ==> a.wakes[i] <= 1) && a.gap == 0 && !a.early
    && (end.Wakes? ==> end.writes <= 1 && (end.report.Some? ==> end.report.value >= Left(p)))
  }

  /** The values still to come, the oldest first. */
  function Values(p: Place): seq<Answer> {
    (if p.result.Some? then [p.result.value] else [])
    + seq(|p.onTheWay|, i requires 0 <= i < |p.onTheWay| => p.onTheWay[i].value)
  }

  lemma ExchangeInOrder(p: Place, answer: Answer, k: nat)
    requires k <= 1
    ensures var (p', a) := Exchange(p, answer, k);
            && [a] + Values(p') == Values(p) + [answer] && Left(p') == Left(p) && p'.result.None?
  {
    assert AtLeastOne(k) == 1;
    var asked := Ask(p, Write(answer, false));
    assert Values(asked) == Values(p) + [answer];
    if p.result.None? {
      assert Window(asked.onTheWay, 1, None) == [asked.onTheWay[0]];
    }
  }

  /** In order, each wait takes the oldest of what is left from before and the answers. */
  lemma {:induction false} SendingInOrder(p: Place, answers: seq<Answer>, wakes: seq<nat>, n: nat, i: nat,
      results: seq<Answer>)
    requires i <= n <= |answers| && n <= |wakes| && n <= |results|
    requires forall k :: 0 <= k < |wakes| ==> wakes[k] <= 1
    requires Values(p) + answers[i..] == results[i..]
    ensures var sent := Sending(p, answers, wakes, n, i);
            && sent.matched == MatchedFrom(results, n, i) && Left(sent.place) == Left(p)
            && (i < n ==> sent.place.result.None?) && (i == n ==> sent.place == p)
            && (sent.matched < n ==> sent.unexpected == Some(results[sent.matched]))
    decreases n - i
  {
    hide Exchange;
    if i < n {
      var (p', a) := Exchange(p, answers[i], wakes[i]);
      ExchangeInOrder(p, answers[i], wakes[i]);
      assert answers[i..] == [answers[i]] + answers[i + 1..];
      assert [a] + (Values(p') + answers[i + 1..]) == ([a] + Values(p')) + answers[i + 1..]
        == (Values(p) + [answers[i]]) + answers[i + 1..]
        == Values(p) + ([answers[i]] + answers[i + 1..])
        == results[i..];
      assert results[i..] == [results[i]] + results[i + 1..];
      assert ([a] + (Values(p') + answers[i + 1..]))[0] == a == results[i];
      assert ([a] + (Values(p') + answers[i + 1..]))[1..] == Values(p') + answers[i + 1..] == results[i + 1..];
      if Expected(i, a) {
        SendingInOrder(p', answers, wakes, n, i + 1, results);
      }
    }
  }

  /** From a clean place every wait brings its own answer, however many writes end it. */
  lemma {:induction false} SendingClean(p: Place, answers: seq<Answer>, wakes: seq<nat>, n: nat, i: nat)
    requires i <= n <= |answers| && n <= |wakes| && Left(p) == 0
    ensures var sent := Sending(p, answers, wakes, n, i);
            sent.matched == MatchedFrom(answers, n, i) && Left(sent.place) == 0
    decreases n - i
  {
    if i < n {
      var (p', a) := Exchange(p, answers[i], wakes[i]);
      ExchangeClean(p, answers[i], wakes[i]);
      if Expected(i, a) {
        SendingClean(p', answers, wakes, n, i + 1);
      }
    }
  }

  lemma ExchangeClean(p: Place, answer: Answer, k: nat)
    requires Left(p) == 0
    ensures var (p', a) := Exchange(p, answer, k); a == answer && Left(p') == 0
  {
    var asked := Ask(p, Write(answer, false));
    assert asked.onTheWay == [Write(answer, false)];
    assert Window(asked.onTheWay, AtLeastOne(k), None) == [Write(answer, false)];
  }

  /** In order, the first write ends the wait, and it is the report exactly if nothing is left. */
  lemma WaitInOrder(p: Place, end: ModuleEnd)
    requires end.Wakes? ==> end.writes <= 1 && (end.report.Some? ==> end.report.value >= |p.onTheWay|)
    ensures AfterWait(p, end).1 == Upgraded(true) <==> Left(p) == 0 && end.Wakes? && end.report.Some?
    ensures AfterWait(p, end).1 == Upgraded(true) ==> AfterWait(p, end).0.result.Some?
    ensures Left(p) > 0 ==> AfterWait(p, end).0.dead || Left(AfterWait(p, end).0) > 0
  {
    if p.result.None? && end.Wakes? && p.onTheWay == [] && end.report.Some? {
      assert Window(p.onTheWay, 0, Some(0))[0] == REPORT;
    }
  }

  /** In order, the module is upgraded and reports it exactly when the lock is free, the file
      can be sent, nothing is left from before, every segment is acknowledged and the report
      comes in time. */
  lemma {:induction false} UpgradedIff(p: Place, a: Attempt, end: ModuleEnd)
    requires a.Answered() && InOrder(p, a, end)
    ensures Attempted(p, a, end).1 == Upgraded(true) <==>
            && !p.dead && !p.upgrading && !Unsendable(a.content, a.maxPacket) && Left(p) == 0
            && Matched(a.answers, Count(a.content, a.maxPacket)) == Count(a.content, a.maxPacket)
            && end.Wakes? && end.report.Some?
  {
    hide MatchedFrom, Count, Unsendable, AfterWait, Sending;
    if !p.dead && !p.upgrading && !Unsendable(a.content, a.maxPacket) {
      CanCount(a.content, a.maxPacket);
      var n, up := Count(a.content, a.maxPacket), p.(upgrading := true);
      SendingInOrder(up, a.answers, a.wakes, n, 0, Values(up) + a.answers);
      if Left(p) == 0 {
        SendingClean(up, a.answers, a.wakes, n, 0);
      }
      WaitInOrder(Moved(p, a).place, end);
    }
  }

  /** With a result left from before, a module that acknowledges everything in order gets the
      whole file only if that has no segment, or one and the result was zero. */
  lemma StaleResult(p: Place, stale: Answer, answers: seq<Answer>, wakes: seq<nat>, n: nat)
    requires p.result == Some(stale) && p.onTheWay == [] && n <= |answers| && n <= |wakes|
    requires n <= FILE_CHECK_ERROR && AllAcked(answers, n) && forall k :: 0 <= k < |wakes| ==> wakes[k] <= 1
    ensures Sending(p, answers, wakes, n, 0).matched == n <==> n == 0 || (n == 1 && stale == Ack(0))
    ensures n >= 2 && stale == Ack(0) ==> Sending(p, answers, wakes, n, 0).matched == 1
  {
    hide Sending;
    var results := [stale] + answers;
    assert Values(p) == [stale];
    SendingInOrder(p, answers, wakes, n, 0, results);
    assert results[0] == stale && forall i :: 1 <= i < n ==> results[i] == Ack(i - 1);
    if n >= 2 && stale == Ack(0) {
      MatchedIs(results, n, 1);
    } else if n >= 1 && stale != Ack(0) {
      MatchedIs(results, n, 0);
    } else {
      MatchedIs(results, n, n);
    }
  }

  // ---- the next upgrade ----

  /** The file can be sent, every segment is acknowledged and the end reported, all in order. */
  ghost predicate WellServed(p: Place, a: Attempt, end: ModuleEnd) {
    && a.Answered() && InOrder(p, a, end) && !Unsendable(a.content, a.maxPacket)
    && Matched(a.answers, Count(a.content, a.maxPacket)) == Count(a.content, a.maxPacket)
    && end.Wakes? && end.report.Some?
  }

  /** After any run of upgrades of the module and of the meters, a well-served upgrade of the
      module succeeds exactly when the lock is still there and every result that was asked for
      or reported has been taken or overwritten. */
  lemma {:induction false} NextUpgrade(events: seq<Event>, a: Attempt, end: ModuleEnd)
    requires AllComplete(events) && WellServed(AfterAll(START, events), a, end)
    ensures var p := AfterAll(START, events);
            Attempted(p, a, end).1 == Upgraded(true) <==>
            !p.dead && p.history.taken + p.history.overwritten == p.history.asked + p.history.reported
  {
    hide AfterAll, Attempted, InOrder, Unsendable, Matched, Count;
    RunSettled(START, events);
    UpgradedIff(AfterAll(START, events), a, end);
  }

  // ---- upgrades of the module alone ----

  /** Something is left in the way of every later upgrade of the module. */
  predicate Spoiled(p: Place) {
    p.dead || Left(p) > 0
  }

  /** Upgrades of the module only, each in order. */
  predicate Plain(p: Place, e: Event) {
    e.Complete() && !e.Meters? && (e.Module? ==> InOrder(p, e.attempt, e.end))
  }

  predicate AllPlain(p: Place, events: seq<Event>)
    decreases events
  {
    events == [] || (Plain(p, events[0]) && AllPlain(After(p, events[0]), events[1..]))
  }

  predicate Succeeds(p: Place, e: Event)
    requires e.Complete()
  {
    e.Module? && Attempted(p, e.attempt, e.end).1 == Upgraded(true)
  }

  function Successes(p: Place, events: seq<Event>): nat
    requires AllPlain(p, events)
    decreases events
  {
    if events == [] then 0
    else (if Succeeds(p, events[0]) then 1 else 0) + Successes(After(p, events[0]), events[1..])
  }

  lemma ModuleSpoils(p: Place, a: Attempt, end: ModuleEnd)
    requires a.Answered() && InOrder(p, a, end)
    ensures Spoiled(p) || Attempted(p, a, end).1 == Upgraded(true) ==> Spoiled(Attempted(p, a, end).0)
  {
    hide MatchedFrom, Count, Unsendable, AfterWait, Sending;
    if !p.dead && !p.upgrading && !Unsendable(a.content, a.maxPacket) {
      CanCount(a.content, a.maxPacket);
      var n, up := Count(a.content, a.maxPacket), p.(upgrading := true);
      SendingInOrder(up, a.answers, a.wakes, n, 0, Values(up) + a.answers);
      WaitInOrder(Moved(p, a).place, end);
    }
  }

  /** One success spoils the next, and nothing that follows repairs it. */
  lemma StaysSpoiled(p: Place, e: Event)
    requires Plain(p, e)
    ensures Spoiled(p) || Succeeds(p, e) ==> Spoiled(After(p, e))
    ensures Spoiled(p) ==> !Succeeds(p, e)
  {
    hide Attempted, InOrder;
    if e.Module? {
      ModuleSpoils(p, e.attempt, e.end);
      UpgradedIff(p, e.attempt, e.end);
    }
  }

  /** Without an upgrade of the meters in between, and without a result that is overwritten or
      comes out of order, at most one upgrade of the module succeeds. */
  lemma {:induction false} AtMostOneUpgrade(p: Place, events: seq<Event>)
    requires AllPlain(p, events)
    ensures Successes(p, events) <= if Spoiled(p) then 0 else 1
    decreases events
  {
    hide After, Succeeds, Spoiled, InOrder;
    if events != [] {
      StaysSpoiled(p, events[0]);
      AtMostOneUpgrade(After(p, events[0]), events[1..]);
    }
  }

  // ---- what cleans the place ----

  lemma SuccessLeaves(p: Place, a: Attempt, end: ModuleEnd)
    requires Left(p) == 0 && !p.dead && !p.upgrading && WellServed(p, a, end)
    ensures var (p', outcome) := Attempted(p, a, end);
            && outcome == Upgraded(true)
            && p'.result == Some(Ack(0)) && p'.onTheWay == [] && !p'.dead && !p'.upgrading
  {
    hide MatchedFrom, Count, Unsendable, Sending;
    UpgradedIff(p, a, end);
    CanCount(a.content, a.maxPacket);
    SendingClean(p.(upgrading := true), a.answers, a.wakes, Count(a.content, a.maxPacket), 0);
    assert Window([], 0, Some(0)) == [REPORT];
  }

  lemma RoundClean(p: Place, r: Round)
    requires Left(p) == 0
    ensures Left(AfterRound(p, r).0) == 0
  {
    var asked := Ask(p, r.status);
    assert asked.onTheWay == [r.status];
    assert |Window(asked.onTheWay, AtLeastOne(r.writes), None)| == 1;
  }

  lemma {:induction false} RoundsClean(p: Place, rounds: seq<Round>, n: nat, i: nat)
    requires i <= n <= |rounds| && Left(p) == 0
    ensures Left(AfterRounds(p, rounds, n, i).place) == 0
    decreases n - i
  {
    hide AfterRound, Left;
    if i < n {
      RoundClean(p, rounds[i]);
      if !AfterRound(p, rounds[i]).1 {
        RoundsClean(AfterRound(p, rounds[i]).0, rounds, n, i + 1);
      }
    }
  }

  lemma RoundsFlags(p: Place, rounds: seq<Round>, n: nat, i: nat)
    requires i <= n <= |rounds|
    ensures AfterRounds(p, rounds, n, i).place.dead == p.dead
    decreases n - i
  {
    hide Deliver, Ends;
    if i < n && !AfterRound(p, rounds[i]).1 {
      RoundsFlags(AfterRound(p, rounds[i]).0, rounds, n, i + 1);
    }
  }

  /** The result that an upgrade of the module left is taken for the one segment, and the
      answer to that by the first round. */
  lemma MetersClean(p: Place, a: Attempt, total: nat, rounds: seq<Round>)
    requires p.result == Some(Ack(0)) && p.onTheWay == [] && !p.dead && !p.upgrading
    requires a.Answered() && !Unsendable(a.content, a.maxPacket) && Count(a.content, a.maxPacket) == 1
    requires a.answers[0] == Ack(0) && a.gap == 0 && !a.early
    requires total > 0 && |rounds| >= Rounds(total) && rounds[0].quick > 0
    ensures var p' := Metered(p, a, total, rounds); Left(p') == 0 && !p'.dead && !p'.upgrading
  {
    hide Count, AfterRounds, MatchedFrom;
    var up := p.(upgrading := true);
    var asked := Ask(up, Write(Ack(0), false));
    assert Exchange(up, Ack(0), a.wakes[0]) == (Take(asked), Ack(0));
    var sent := Moved(p, a);
    assert sent == Sending(Take(asked), a.answers, a.wakes, 1, 1);
    assert sent.unexpected.None? && sent.place == Take(asked) && sent.place.onTheWay == [Write(Ack(0), false)];
    FirstRoundCleans(AfterGap(sent.place, a), rounds, Rounds(total));
    RoundsFlags(AfterGap(sent.place, a), rounds, Rounds(total), 0);
  }

  lemma FirstRoundCleans(p: Place, rounds: seq<Round>, n: nat)
    requires p.result.None? && |p.onTheWay| == 1 && 0 < n <= |rounds| && rounds[0].quick > 0
    ensures Left(AfterRounds(p, rounds, n, 0).place) == 0
  {
    assert |Window(p.onTheWay, rounds[0].quick, None)| == 1;
    if !AfterRound(p, rounds[0]).1 {
      RoundsClean(AfterRound(p, rounds[0]).0, rounds, n, 1);
    }
  }

  /** Two answers come in the second wait before the thread has the lock again: the first of
      them, which was one too many, is overwritten. */
  lemma OverwritingCleans(p: Place, answers: seq<Answer>, wakes: seq<nat>, n: nat)
    requires p.result == Some(Ack(0)) && p.onTheWay == []
    requires 2 <= n <= FILE_CHECK_ERROR && n <= |answers| && n <= |wakes| && AllAcked(answers, n) && wakes[1] == 2
    ensures var sent := Sending(p, answers, wakes, n, 0); sent.matched == n && Left(sent.place) == 0
  {
    hide MatchedFrom;
    var first := Ask(p, Write(Ack(0), false));
    assert Exchange(p, answers[0], wakes[0]) == (Take(first), Ack(0));
    var second := Ask(Take(first), Write(Ack(1), false));
    assert second.onTheWay == [Write(Ack(0), false), Write(Ack(1), false)];
    assert Window(second.onTheWay, 2, None) == second.onTheWay;
    var mid := Exchange(Take(first), answers[1], wakes[1]).0;
    assert Exchange(Take(first), answers[1], wakes[1]) == (mid, Ack(1)) && Left(mid) == 0;
    SendingClean(mid, answers, wakes, n, 2);
    assert MatchedFrom(answers, n, 2) == n by { AllMatched(answers, n, 2); }
  }

  lemma {:induction false} AllMatched(answers: seq<Answer>, n: nat, i: nat)
    requires i <= n <= |answers| && n <= FILE_CHECK_ERROR && AllAcked(answers, n)
    ensures MatchedFrom(answers, n, i) == n
    decreases n - i
  {
    if i < n {
      AllMatched(answers, n, i + 1);
    }
  }

  /** After an upgrade of the module a second one, served like the first, fails at its second
      segment; with a file of one segment or none it never ends. */
  method UpgradeModuleTwice(first: Attempt, second: Attempt, end: ModuleEnd) returns (outcome: Outcome)
    requires WellServed(START, first, end) && WellServed(START, second, end)
    requires end.report.value >= 1 && Count(second.content, second.maxPacket) <= FILE_CHECK_ERROR
    ensures outcome == if Count(second.content, second.maxPacket) >= 2 then NotUpgraded(TransferFailed) else Hangs
  {
    hide Count, Unsendable, Matched, Attempted;
    var upgrade := new FileUpgrade();
    SuccessLeaves(START, first, end);
    outcome := upgrade.UpgradeModule(first, end);
    SecondFails(upgrade.View(), second, end);
    outcome := upgrade.UpgradeModule(second, end);
  }

  lemma SecondFails(p: Place, a: Attempt, end: ModuleEnd)
    requires p.result == Some(Ack(0)) && p.onTheWay == [] && !p.dead && !p.upgrading && WellServed(p, a, end)
    requires Count(a.content, a.maxPacket) <= FILE_CHECK_ERROR
    ensures Attempted(p, a, end).1 == if Count(a.content, a.maxPacket) >= 2 then NotUpgraded(TransferFailed) else Hangs
  {
    hide Count, Unsendable, Sending, MatchedFrom;
    CanCount(a.content, a.maxPacket);
    var n, up := Count(a.content, a.maxPacket), p.(upgrading := true);
    WholeFile(a.answers, n);
    StaleResult(up, Ack(0), a.answers, a.wakes, n);
    SendingInOrder(up, a.answers, a.wakes, n, 0, Values(up) + a.answers);
    SendingNoEnds(up, a.answers, a.wakes, n, 0);
    if n < 2 {
      AnswerFirst(Moved(p, a).place, end);
    }
  }

  /** No answer on the way says that an upgrade is over. */
  predicate NoEnds(p: Place) {
    forall i :: 0 <= i < |p.onTheWay| ==> !p.onTheWay[i].ends
  }

  lemma {:induction false} SendingNoEnds(p: Place, answers: seq<Answer>, wakes: seq<nat>, n: nat, i: nat)
    requires i <= n <= |answers| && n <= |wakes| && NoEnds(p)
    ensures NoEnds(Sending(p, answers, wakes, n, i).place)
    decreases n - i
  {
    if i < n && Expected(i, Exchange(p, answers[i], wakes[i]).1) {
      SendingNoEnds(Exchange(p, answers[i], wakes[i]).0, answers, wakes, n, i + 1);
    }
  }

  lemma AnswerFirst(p: Place, end: ModuleEnd)
    requires NoEnds(p) && Left(p) == 1 && end.Wakes? && end.writes <= 1 && end.report.Some? && end.report.value >= 1
    ensures AfterWait(p, end).1 == Hangs
  {
    if p.result.None? {
      assert Window(p.onTheWay, 1, None) == p.onTheWay;
    }
  }

  /** With an upgrade of the meters between them the second upgrade of the module succeeds, if
      theirs has one segment and their first round takes the answer to it. */
  method UpgradeMetersBetween(first: Attempt, flag: FileFlag, meters: Attempt, total: nat, rounds: seq<Round>,
      second: Attempt, end: ModuleEnd)
    returns (outcome: Outcome)
    requires WellServed(START, first, end) && WellServed(START, second, end)
    requires meters.Answered() && !Unsendable(meters.content, meters.maxPacket)
    requires Count(meters.content, meters.maxPacket) == 1
    requires meters.answers[0] == Ack(0) && meters.gap == 0 && !meters.early
    requires total > 0 && |rounds| >= Rounds(total) && rounds[0].quick > 0
    ensures outcome == Upgraded(true)
  {
    hide Count, Unsendable, Matched, Attempted, Metered;
    var upgrade := new FileUpgrade();
    SuccessLeaves(START, first, end);
    outcome := upgrade.UpgradeModule(first, end);
    MetersClean(upgrade.View(), meters, total, rounds);
    upgrade.UpgradeMeters(flag, meters, total, rounds);
    SuccessLeaves(upgrade.View(), second, end);
    outcome := upgrade.UpgradeModule(second, end);
  }

  // ---- what a wait sees ----

  /** The next answers come in their order, the report behind as many of them as are said; the
      last of these writes is the one left. */
  lemma LastWriteStays(p: Place, k: nat, at: Option<nat>)
    ensures var m := Min(k, |p.onTheWay|);
            var p', writes := Deliver(p, k, at), Window(p.onTheWay, k, at);
            && p'.onTheWay == p.onTheWay[m..]
            && (at.None? ==> writes == p.onTheWay[..m]
                             && p'.result == if m > 0 then Some(p.onTheWay[m - 1].value) else p.result)
            && (at.Some? ==> var j := Min(at.value, m);
                             && writes[..j] == p.onTheWay[..j] && writes[j] == Write(Ack(0), true)
                             && writes[j + 1..] == p.onTheWay[j..m]
                             && p'.result == Some(if j < m then p.onTheWay[m - 1].value else Ack(0)))
  {
  }

  // ---- why an upgrade fails ----

  /** In order and from a clean place: a refused file and a wrong or missing acknowledgement are
      told apart, by the first answer that is not the number of its segment, and a module that
      does not report itself in time from both. */
  lemma {:induction false} FailedBecause(p: Place, a: Attempt, end: ModuleEnd)
    requires a.Answered() && InOrder(p, a, end) && Left(p) == 0
    requires !p.dead && !p.upgrading && !Unsendable(a.content, a.maxPacket)
    ensures var n := Count(a.content, a.maxPacket);
            var m := Matched(a.answers, n);
            Attempted(p, a, end).1 ==
              if m < n then NotUpgraded(if a.answers[m] == Ack(0xFFFF_FFFF) then FileError else TransferFailed)
              else if end.Wakes? && end.report.Some? then Upgraded(true)
              else NotUpgraded(OtherError)
  {
    hide MatchedFrom, Count, Unsendable, Sending;
    CanCount(a.content, a.maxPacket);
    var n, up := Count(a.content, a.maxPacket), p.(upgrading := true);
    assert Values(up) + a.answers == a.answers;
    SendingInOrder(up, a.answers, a.wakes, n, 0, a.answers);
    WaitInOrder(Moved(p, a).place, end);
  }

  /** Before anything is sent: the lock is gone, another upgrade is under way, or the file does
      not fit the module's packets. */
  lemma NotBegun(p: Place, a: Attempt, end: ModuleEnd)
    requires a.Answered()
    ensures var (p', r) := Attempted(p, a, end);
            && (r == NoLock <==> p.dead) && (r == Busy <==> !p.dead && p.upgrading)
            && (r == Panics <==> !p.dead && !p.upgrading
                                 && (a.maxPacket <= 26
                                     || (a.content != [] && Count(a.content, a.maxPacket) % 0x1_0000 == 0)))
            && (r == NoLock || r == Busy ==> p' == p) && (r == Panics || r == Hangs ==> p'.dead)
  {
    hide Sending, Deliver, Count;
  }

  predicate Quietly(rounds: seq<Round>) {
    forall i :: 0 <= i < |rounds| ==> rounds[i].quick == 0
  }

  lemma RoundAsks(p: Place, r: Round)
    requires Left(p) == 0 && r.quick == 0
    ensures Left(AfterRound(p, r).0) == 0 && AfterRound(p, r).1 == r.status.ends
  {
    var asked := Ask(p, r.status);
    assert Window(asked.onTheWay, AtLeastOne(r.writes), None) == [r.status];
  }

  /** From a clean place, where nothing comes but answers to its questions, the wait for the
      meters goes on to the first answer that says the upgrade is over, or to the last round. */
  lemma {:induction false} MetersEnd(p: Place, rounds: seq<Round>, n: nat, i: nat)
    requires i <= n <= |rounds| && Left(p) == 0 && Quietly(rounds)
    ensures var w := AfterRounds(p, rounds, n, i);
            && (w.ended <==> exists j :: i <= j < n && rounds[j].status.ends)
            && (w.ended ==> w.rounds > i && rounds[w.rounds - 1].status.ends)
            && (forall j :: i <= j < w.rounds - 1 ==> !rounds[j].status.ends)
            && (!w.ended ==> w.rounds == n)
    decreases n - i
  {
    hide AfterRound, Left;
    if i < n {
      RoundAsks(p, rounds[i]);
      if !rounds[i].status.ends {
        MetersEnd(AfterRound(p, rounds[i]).0, rounds, n, i + 1);
      }
    }
  }

  /** The whole wait for the meters is twenty minutes in rounds of half a minute. */
  lemma FortyRounds()
    ensures Rounds(1200) == 40 && WAIT_TIME * Rounds(1200) == 1200
  {
  }
}
