/** A long list fetched from the module in pages of at most ten. */
module HplcInfo {
  import opened Wrappers
  import opened Bytes

  const PAGE := 10

  /** What comes back for a request: so many of the next items, or an error. */
  datatype Answer = Page(size: nat) | NoAnswer

  function Least(a: nat, b: nat): nat { if a < b then a else b }

  /** How many of `n` items are collected when `got` were before; nothing after an error.
      The answers are enough when the loop ends before they do. */
  function Collected(n: nat, got: nat, answers: seq<Answer>): (r: Option<nat>)
    requires got <= n
    ensures r.Some? ==> got <= r.value <= n
    decreases answers
  {
    if answers == [] || answers[0].NoAnswer? then None
    else
      var got' := Least(got + Least(answers[0].size, PAGE), n);
      if got' == got || got' == n then Some(got') else Collected(n, got', answers[1..])
  }

  /** The first items asked for, numbered from one. */
  function Starts(n: nat, got: nat, answers: seq<Answer>): (starts: seq<nat>)
    requires got <= n
    decreases answers
  {
    if answers == [] || answers[0].NoAnswer? then [1 + got]
    else
      var got' := Least(got + Least(answers[0].size, PAGE), n);
      if got' == got || got' == n then [1 + got] else [1 + got] + Starts(n, got', answers[1..])
  }

  lemma PageStep(n: nat, got: nat, answers: seq<Answer>, k: nat)
    requires got <= n && k < |answers|
    ensures var got' := Least(got + Least(if answers[k].Page? then answers[k].size else 0, PAGE), n);
            var ends := answers[k].NoAnswer? || got' == got || got' == n;
            && Collected(n, got, answers[k..]) ==
               (if answers[k].NoAnswer? then None else if ends then Some(got')
                   else Collected(n, got', answers[k + 1..]))
            && Starts(n, got, answers[k..]) ==
               (if ends then [1 + got] else [1 + got] + Starts(n, got', answers[k + 1..]))
  {
    assert answers[k..][0] == answers[k] && answers[k..][1..] == answers[k + 1..];
  }

  lemma StartsPut(starts: seq<nat>, start: nat, rest: seq<nat>)
    ensures starts + ([start] + rest) == (starts + [start]) + rest
  {
  }

  /** The loop asks from one past what it has, and stops at an empty page or when it has the
      total. The module has a fixed list and says its length with every page. */
  method Collect<T>(list: seq<T>, answers: seq<Answer>) returns (items: Option<seq<T>>, starts: seq<nat>)
    requires |list| < 0x1_0000 && |answers| > |list|
    ensures items == (match Collected(|list|, 0, answers) case Some(c) => Some(list[..c]) case None => None)
    ensures starts == Starts(|list|, 0, answers)
  {
    hide Collected, Starts;
    var body: seq<T>, total: u16 := [], 0;
    var k := 0;
    starts := [];
    assert answers[0..] == answers;
    while true
      invariant k <= |body| <= |list| && body == list[..|body|]
      invariant |body| < |list| || |list| == 0
      invariant Collected(|list|, 0, answers) == Collected(|list|, |body|, answers[k..])
      invariant Starts(|list|, 0, answers) == starts + Starts(|list|, |body|, answers[k..])
      decreases |list| - |body|
    {
      var start: u16 := 1 + |body|;
      PageStep(|list|, |body|, answers, k);
      var answer := answers[k];
      if answer.NoAnswer? {
        return None, starts + [start];
      }
      var end := Least(start - 1 + Least(answer.size, PAGE), |list|);
      var data := list[start - 1..end];
      assert body + data == list[..end];
      body, total := body + data, |list|;
      if |data| == 0 || |body| >= total {
        return Some(body), starts + [start];
      }
      StartsPut(starts, start, Starts(|list|, |body|, answers[k + 1..]));
      starts, k := starts + [start], k + 1;
    }
  }

  /** The request after one starts where its page, which was not empty, ended. */
  predicate Follows(n: nat, answers: seq<Answer>, starts: seq<nat>, i: nat)
    requires i + 1 < |starts|
  {
    && i < |answers| && answers[i].Page? && answers[i].size > 0
    && starts[i + 1] == starts[i] + Least(answers[i].size, 10) <= n
  }

  /** Requests leave no gap and never overlap, and there are no more of them than items,
      except the one that finds the list empty. */
  lemma {:induction false} NoGaps(n: nat, got: nat, answers: seq<Answer>)
    requires got <= n
    ensures var starts := Starts(n, got, answers);
            && 0 < |starts| <= n - got + 1 && starts[0] == 1 + got && (got < n ==> |starts| <= n - got)
            && (forall i :: 0 <= i < |starts| - 1 ==> Follows(n, answers, starts, i))
    decreases answers
  {
    if answers != [] && answers[0].Page? {
      var got' := Least(got + Least(answers[0].size, PAGE), n);
      if got' != got && got' != n {
        NoGaps(n, got', answers[1..]);
        var starts, rest := Starts(n, got, answers), Starts(n, got', answers[1..]);
        assert starts == [1 + got] + rest;
        forall i | 0 <= i < |starts| - 1 ensures Follows(n, answers, starts, i) {
          if i > 0 {
            assert Follows(n, answers[1..], rest, i - 1);
          }
        }
      }
    }
  }

  predicate NeverEmpty(answers: seq<Answer>) {
    forall i :: 0 <= i < |answers| ==> answers[i].Page? && answers[i].size > 0
  }

  /** A module that never fails nor sends an empty page before the end gives its whole list. */
  lemma {:induction false} AllCollected(n: nat, got: nat, answers: seq<Answer>)
    requires got <= n && NeverEmpty(answers) && |answers| > n - got
    ensures Collected(n, got, answers) == Some(n)
    decreases answers
  {
    var got' := Least(got + Least(answers[0].size, PAGE), n);
    if got' != got && got' != n {
      AllCollected(n, got', answers[1..]);
    }
  }

  /** A list that came back short was cut off by an empty page. */
  lemma {:induction false} ShortMeansEmptyPage(n: nat, got: nat, answers: seq<Answer>)
    requires got < n && Collected(n, got, answers).Some? && Collected(n, got, answers).value < n
    ensures exists i :: 0 <= i < |answers| && answers[i] == Page(0)
    decreases answers
  {
    var got' := Least(got + Least(answers[0].size, PAGE), n);
    if got' != got {
      ShortMeansEmptyPage(n, got', answers[1..]);
      var i :| 0 <= i < |answers[1..]| && answers[1..][i] == Page(0);
      assert answers[i + 1] == Page(0);
    } else {
      assert answers[0] == Page(0);
    }
  }
}
