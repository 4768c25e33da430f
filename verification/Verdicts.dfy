/** What a report says: by which step the request left the table. */
module Verdicts {
  import opened Wrappers
  import opened Metering
  import opened UartMatching
  import opened MeterSystem
  import opened MeterInvariant
  import opened Completion

  /** The row of a request was taken by this step. */
  predicate Takes(s: System, step: Step, num: SeqNum, r: Request) {
    && num in s.uart.table && s.uart.table[num].req == r
    && (step == TimerFires(num) || (step.Receive? && step.num == num))
  }

  /** Step `i` of the run took the row of `r`: for an answer, a reply with its number that
      decodes, and for a timeout, its timer. */
  ghost predicate Earned(cfg: Config, steps: seq<Step>, i: nat, r: Request, verdict: Verdict)
    requires Possible(cfg, steps) && i < |steps|
  {
    PrefixPossible(cfg, steps, i);
    exists num: SeqNum :: Takes(Run(cfg, steps[..i]), steps[i], num, r)
      && steps[i] == match verdict case TimedOut => TimerFires(num) case Answered => Receive(false, num, true)
  }

  /** The same for a request that is in a thread's hand. */
  ghost predicate Began(cfg: Config, steps: seq<Step>, i: nat, h: Held)
    requires Possible(cfg, steps) && i < |steps|
  {
    PrefixPossible(cfg, steps, i);
    exists num: SeqNum :: Takes(Run(cfg, steps[..i]), steps[i], num, h.req)
      && match h.kind
         case Timeout => steps[i] == TimerFires(num)
         case Reply => steps[i] == Receive(false, num, true)
         case Garbled => steps[i] == Receive(false, num, false)
         case Report => steps[i].Receive? && steps[i].isReport
  }

  ghost predicate WasEarned(cfg: Config, steps: seq<Step>, r: Request, verdict: Verdict)
    requires Possible(cfg, steps)
  {
    exists i: nat :: i < |steps| && Earned(cfg, steps, i, r, verdict)
  }

  ghost predicate HasBegun(cfg: Config, steps: seq<Step>, h: Held)
    requires Possible(cfg, steps)
  {
    exists i: nat :: i < |steps| && Began(cfg, steps, i, h)
  }

  ghost predicate AllEarned(cfg: Config, steps: seq<Step>, reports: seq<Reported>)
    requires Possible(cfg, steps)
  {
    forall k :: 0 <= k < |reports| ==> WasEarned(cfg, steps, reports[k].req, reports[k].verdict)
  }

  ghost predicate AllBegan(cfg: Config, steps: seq<Step>, hand: seq<Held>)
    requires Possible(cfg, steps)
  {
    forall k :: 0 <= k < |hand| ==> HasBegun(cfg, steps, hand[k])
  }

  lemma EarnedOn(cfg: Config, steps: seq<Step>, step: Step, r: Request, verdict: Verdict)
    requires Possible(cfg, steps + [step]) && Possible(cfg, steps) && WasEarned(cfg, steps, r, verdict)
    ensures WasEarned(cfg, steps + [step], r, verdict)
  {
    hide Possible, Run, Takes;
    var i: nat :| i < |steps| && Earned(cfg, steps, i, r, verdict);
    assert (steps + [step])[..i] == steps[..i] && (steps + [step])[i] == steps[i];
    assert Earned(cfg, steps + [step], i, r, verdict);
  }

  lemma BegunOn(cfg: Config, steps: seq<Step>, step: Step, h: Held)
    requires Possible(cfg, steps + [step]) && Possible(cfg, steps) && HasBegun(cfg, steps, h)
    ensures HasBegun(cfg, steps + [step], h)
  {
    hide Possible, Run, Takes;
    var i: nat :| i < |steps| && Began(cfg, steps, i, h);
    assert (steps + [step])[..i] == steps[..i] && (steps + [step])[i] == steps[i];
    assert Began(cfg, steps + [step], i, h);
  }

  /** The step that takes a row begins the exchange of its request. */
  predicate Begins(s: System, step: Step, num: SeqNum, h: Held) {
    && Takes(s, step, num, h.req)
    && match h.kind
       case Timeout => step == TimerFires(num)
       case Reply => step == Receive(false, num, true)
       case Garbled => step == Receive(false, num, false)
       case Report => step.Receive? && step.isReport
  }

  /** The hand after a step: one exchange more, or one less. */
  lemma HandAfter(cfg: Config, s: System, step: Step) returns (h: Held, num: SeqNum)
    requires Enabled(s, step) && !step.Finish?
    ensures var s' := Apply(cfg, s, step);
            s'.hand == s.hand || (s'.hand == s.hand + [h] && Begins(s, step, num, h))
  {
    hide Decide, AfterArrival, AfterReport, AfterAging;
    num, h := 0, Held(Request(0, "", PAYLOAD), Report);
    if step.Receive? {
      num := step.num;
      if num in s.uart.table {
        h := Held(s.uart.table[num].req, ReceivedKind(step.isReport, step.decodes));
      }
    } else if step.TimerFires? {
      num := step.num;
      h := Held(s.uart.table[num].req, Timeout);
    }
  }

  lemma ReportsStay(cfg: Config, s: System, step: Step)
    requires Enabled(s, step) && !step.Finish?
    ensures Apply(cfg, s, step).reports == s.reports
  {
    hide Decide, AfterArrival, AfterReport, AfterAging, Route;
  }

  lemma FinishReportsHeld(cfg: Config, s: System, index: nat)
    requires index < |s.hand|
    ensures var s', h := Apply(cfg, s, Finish(index)), s.hand[index];
            && s'.hand == Without(s.hand, index)
            && (s'.reports == s.reports
                || (h.kind == Timeout && s'.reports == s.reports + [Reported(h.req, TimedOut)])
                || (h.kind == Reply && s'.reports == s.reports + [Reported(h.req, Answered)]))
  {
    hide AfterReport, Request.Sendable;
  }

  lemma BegunIsEarned(cfg: Config, steps: seq<Step>, h: Held, verdict: Verdict)
    requires Possible(cfg, steps) && HasBegun(cfg, steps, h)
    requires (h.kind == Timeout && verdict == TimedOut) || (h.kind == Reply && verdict == Answered)
    ensures WasEarned(cfg, steps, h.req, verdict)
  {
    hide Possible, Run, Takes;
    var i: nat :| i < |steps| && Began(cfg, steps, i, h);
    assert Earned(cfg, steps, i, h.req, verdict);
  }

  lemma BeginsNow(cfg: Config, steps: seq<Step>, step: Step, num: SeqNum, h: Held)
    requires Possible(cfg, steps) && Possible(cfg, steps + [step]) && Begins(Run(cfg, steps), step, num, h)
    ensures HasBegun(cfg, steps + [step], h)
  {
    hide Possible, Run, Takes;
    var all := steps + [step];
    assert all[..|steps|] == steps && all[|steps|] == step;
    assert Takes(Run(cfg, all[..|steps|]), all[|steps|], num, h.req);
    assert Began(cfg, all, |steps|, h);
  }

  /** `all` is `steps` and one step more, which can be taken. */
  ghost predicate OneMore(cfg: Config, steps: seq<Step>, step: Step, all: seq<Step>) {
    && all == steps + [step] && Possible(cfg, steps) && Possible(cfg, all)
    && Enabled(Run(cfg, steps), step) && Run(cfg, all) == Apply(cfg, Run(cfg, steps), step)
  }

  lemma HandBegan(cfg: Config, steps: seq<Step>, step: Step, all: seq<Step>)
    requires OneMore(cfg, steps, step, all) && AllBegan(cfg, steps, Run(cfg, steps).hand)
    ensures AllBegan(cfg, all, Run(cfg, all).hand)
  {
    hide Possible, Run, Apply, HasBegun, Without, Begins;
    var s, hand' := Run(cfg, steps), Run(cfg, all).hand;
    if step.Finish? {
      FinishReportsHeld(cfg, s, step.index);
      forall k | 0 <= k < |hand'| ensures HasBegun(cfg, all, hand'[k]) {
        WithoutAt(s.hand, step.index, k);
        BegunOn(cfg, steps, step, s.hand[if k < step.index then k else k + 1]);
      }
    } else {
      var h, num := HandAfter(cfg, s, step);
      forall k | 0 <= k < |hand'| ensures HasBegun(cfg, all, hand'[k]) {
        if k < |s.hand| {
          BegunOn(cfg, steps, step, s.hand[k]);
        } else {
          BeginsNow(cfg, steps, step, num, h);
        }
      }
    }
  }

  lemma ReportsEarned(cfg: Config, steps: seq<Step>, step: Step, all: seq<Step>)
    requires OneMore(cfg, steps, step, all)
    requires AllBegan(cfg, steps, Run(cfg, steps).hand) && AllEarned(cfg, steps, Run(cfg, steps).reports)
    ensures AllEarned(cfg, all, Run(cfg, all).reports)
  {
    hide Possible, Run, Apply, HasBegun, WasEarned, Without;
    var s, reports' := Run(cfg, steps), Run(cfg, all).reports;
    if step.Finish? {
      FinishReportsHeld(cfg, s, step.index);
    } else {
      ReportsStay(cfg, s, step);
    }
    forall k | 0 <= k < |reports'| ensures WasEarned(cfg, all, reports'[k].req, reports'[k].verdict) {
      if k < |s.reports| {
        EarnedOn(cfg, steps, step, s.reports[k].req, s.reports[k].verdict);
      } else {
        var h := s.hand[step.index];
        BegunIsEarned(cfg, steps, h, reports'[k].verdict);
        EarnedOn(cfg, steps, step, h.req, reports'[k].verdict);
      }
    }
  }

  /** In every run, each report of a timeout is of a request whose timer took it from the table,
      and each report of an answer of one that a decodable reply with its number took. */
  lemma {:induction false} VerdictsAreEarned(cfg: Config, steps: seq<Step>)
    requires Possible(cfg, steps)
    ensures AllBegan(cfg, steps, Run(cfg, steps).hand) && AllEarned(cfg, steps, Run(cfg, steps).reports)
    decreases |steps|
  {
    hide Apply, HasBegun, WasEarned;
    if steps != [] {
      var prefix, step := steps[..|steps| - 1], steps[|steps| - 1];
      VerdictsAreEarned(cfg, prefix);
      HandBegan(cfg, prefix, step, steps);
      ReportsEarned(cfg, prefix, step, steps);
    }
  }
}
