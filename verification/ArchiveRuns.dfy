/** Whole requests, chunk by chunk, and whole runs of them. */
module ArchiveRuns {
  import opened Wrappers
  import opened WireForm
  import opened Archive
  import opened ArchiveSync
  import opened Chunking

  datatype Kind = Add | Del

  /** One chunk that an application asked to add or to delete, and the module's answer. */
  datatype Event = Event(kind: Kind, app: App, nodes: seq<Node>, reply: Reply)

  function Apply(w: World, e: Event): (World, Outcome) {
    match e.kind
    case Add => AddChunk(w, e.app, e.nodes, e.reply)
    case Del => DelChunk(w, e.app, e.nodes, e.reply)
  }

  // ---- runs ----

  /** An added chunk with a new node that has no wire form; or a confirmed one that adds a new
      address twice or under another protocol than a second text of it has; or a confirmed
      deletion that names a last reference twice or leaves a second text of it behind. */
  ghost predicate Fails(w: World, e: Event) {
    match e.kind
    case Add =>
      var list := Unknown(w, e.nodes);
      !AllSendable(list) || (e.reply.Confirm? && (!Distinct(list) || Differs(w.book.index, list)))
    case Del =>
      && e.reply.Confirm?
      && (|| Twice(NotSole(w.book.lists, e.app, e.nodes), e.nodes)
          || Strands(w.book.index, Addrs(SoleNodes(w.book.lists, e.app, e.nodes))))
  }

  ghost predicate Steady(w: World, events: seq<Event>)
    decreases events
  {
    events == [] || (!Fails(w, events[0]) && Steady(Apply(w, events[0]).0, events[1..]))
  }

  /** Nothing panics, and memory and module are together after every event. */
  ghost predicate RunsWell(w: World, events: seq<Event>)
    decreases events
  {
    Good(w)
    && (events == [] || (!Apply(w, events[0]).1.Crash? && RunsWell(Apply(w, events[0]).0, events[1..])))
  }

  function After(w: World, events: seq<Event>): World
    decreases events
  {
    if events == [] then w else After(Apply(w, events[0]).0, events[1..])
  }

  lemma StepKeeps(w: World, e: Event)
    requires Good(w)
    ensures Good(Apply(w, e).0) && !Apply(w, e).1.Crash? <==> !Fails(w, e)
  {
    hide Good, AddChunk, DelChunk, AllSendable, Distinct, Differs, Twice, Strands, Pick, NotSole;
    match e.kind
    case Add =>
      AddChunkKeeps(w, e.app, e.nodes, e.reply);
    case Del =>
      DelChunkKeeps(w, e.app, e.nodes, e.reply);
  }

  /** A run goes well exactly when no event fails. */
  lemma {:induction false} RunKeeps(w: World, events: seq<Event>)
    requires Good(w)
    ensures RunsWell(w, events) <==> Steady(w, events)
    decreases events
  {
    hide Good, Fails, Apply;
    if events != [] {
      StepKeeps(w, events[0]);
      if !Fails(w, events[0]) {
        RunKeeps(Apply(w, events[0]).0, events[1..]);
      }
    }
  }

  // ---- which texts never fail ----

  /** An answered chunk with different addresses, where what it adds has its wire form and is
      named by one of the texts. */
  ghost predicate Drawn(e: Event, texts: set<Addr>) {
    Distinct(e.nodes) && !e.reply.Silence? && (e.kind.Add? ==> AllSendable(e.nodes) && Addrs(e.nodes) <= texts)
  }

  ghost predicate AllDrawn(events: seq<Event>, texts: set<Addr>) {
    forall i :: 0 <= i < |events| ==> Drawn(events[i], texts)
  }

  /** What an address in use says, for every text of it: no other text is in use. */
  lemma AddNeverFails(w: World, e: Event, texts: set<Addr>)
    requires OneTextEach(texts) && w.book.index.Keys <= texts && Drawn(e, texts) && e.kind.Add?
    ensures !Fails(w, e)
  {
    hide Wire, Protocol8, Pick, Clashes, Distinct, Twice;
    var list := Unknown(w, e.nodes);
    NothingToSend(w.book.index);
    if !Clashes(w.book.index, e.nodes) {
      NotTwice(w.book.index.Keys, e.nodes);
      PickDistinct(w.book.index.Keys, e.nodes);
      forall i | 0 <= i < |list| ensures Sendable(list[i]) && list[i].acqAddr in texts {
        var j :| 0 <= j < |e.nodes| && e.nodes[j] == list[i];
        assert e.nodes[j].acqAddr in Addrs(e.nodes);
      }
      forall i, a, p | 0 <= i < |list| && Says(w.book.index, list, a, p) && Wire(a) == Wire(list[i].acqAddr)
        ensures Protocol8(p) == Protocol8(list[i].proType) {
        if Node(a, p) in list {
          assert a in texts;
          SameNode(list, Node(a, p), list[i]);
        }
      }
    }
  }

  lemma DelNeverFails(w: World, e: Event, texts: set<Addr>)
    requires OneTextEach(texts) && w.book.index.Keys <= texts && Drawn(e, texts) && e.kind.Del?
    requires Good(w)
    ensures !Fails(w, e)
  {
    hide Wire, Protocol8, Agree;
    var skip := NotSole(w.book.lists, e.app, e.nodes);
    NotSoleIs(w.book.lists, e.app, e.nodes);
    var list := Pick(skip, e.nodes);
    forall b | b in Addrs(list) ensures b in w.book.index {
      PickedAddrs(skip, e.nodes, b);
      var i :| 0 <= i < |e.nodes| && e.nodes[i].acqAddr == b;
      KeptIsIndexed(w.book, e.app, b);
    }
  }

  lemma KeysWithin(w: World, e: Event, texts: set<Addr>)
    requires Kept(w.book) && w.book.index.Keys <= texts && Drawn(e, texts)
    ensures Apply(w, e).0.book.index.Keys <= texts
    ensures Apply(w, e).0.unsure <= w.unsure
  {
    hide Wire, Protocol8, Consistent, Pick, NotSole, RemoveAll, LastReferences, NewNodes, AddAll, Stored, Clashes;
    match e.kind
    case Add =>
      NewNodesAre(w.book, e.app, e.nodes);
      var (b, r) := NewNodes(w.book, e.app, e.nodes);
      if r.Ok? {
        AddAllAre(b, e.app, r.value);
        forall a | a in Entered(b.index, r.value) ensures a in texts {
          EnteredAt(b.index, r.value, a);
          PickedAddrs(w.book.index.Keys, e.nodes, a);
        }
      }
    case Del =>
      NotSoleIs(w.book.lists, e.app, e.nodes);
      LastReferencesAre(w.book, e.app, e.nodes, NotSole(w.book.lists, e.app, e.nodes));
      if e.reply.Confirm? {
        DelChunkDone(w, e.app, e.nodes);
      }
  }

  lemma {:induction false} DrawnRunsWell(w: World, events: seq<Event>, texts: set<Addr>)
    requires Good(w) && w.book.index.Keys <= texts && OneTextEach(texts) && AllDrawn(events, texts)
    ensures RunsWell(w, events)
    ensures Good(After(w, events)) && After(w, events).unsure <= w.unsure
    decreases events
  {
    hide Good, Apply, Fails, Drawn, OneTextEach;
    if events != [] {
      var e := events[0];
      assert Drawn(e, texts);
      GoodIsKept(w);
      match e.kind {
        case Add => AddNeverFails(w, e, texts);
        case Del => DelNeverFails(w, e, texts);
      }
      StepKeeps(w, e);
      KeysWithin(w, e, texts);
      DrawnRunsWell(Apply(w, e).0, events[1..], texts);
    }
  }

  lemma GoodIsKept(w: World)
    requires Good(w)
    ensures Kept(w.book) && Agree(w)
  {
  }

  // ---- the module holds the union ----

  ghost predicate Names(lists: Lists, x: WireAddr) {
    exists a :: Wire(a) == Some(x) && Listed(lists, a)
  }

  predicate HeldBy(device: Device, list: seq<Node>) {
    forall i :: 0 <= i < |list| ==>
      Sendable(list[i]) && Wire(list[i].acqAddr).value in device
      && device[Wire(list[i].acqAddr).value] == Protocol8(list[i].proType).value
  }

  /** The module holds exactly the addresses that the applications list, with the protocols
      they give them. */
  ghost predicate HoldsUnion(w: World) {
    && (forall x :: x in w.device <==> Names(w.book.lists, x))
    && (forall app :: app in w.book.lists ==> HeldBy(w.device, w.book.lists[app]))
  }

  lemma GoodHoldsUnion(w: World)
    requires Good(w) && w.unsure == {}
    ensures HoldsUnion(w)
  {
    hide Wire, Protocol8;
    forall x ensures x in w.device <==> Names(w.book.lists, x) {
      assert AgreeAt(w, x);
      if x in w.device {
        var a :| a in w.book.index && Wire(a) == Some(x);
        assert Listed(w.book.lists, a);
      }
      forall a | Wire(a) == Some(x) && Listed(w.book.lists, a) ensures x in w.device {
        ListedIsIndexed(w.book, a);
      }
    }
    forall app | app in w.book.lists ensures HeldBy(w.device, w.book.lists[app]) {
      var list := w.book.lists[app];
      assert Indexed(list, w.book.index);
      forall i | 0 <= i < |list|
        ensures Sendable(list[i]) && Wire(list[i].acqAddr).value in w.device
          && w.device[Wire(list[i].acqAddr).value] == Protocol8(list[i].proType).value {
        assert AgreeAt(w, Wire(list[i].acqAddr).value);
      }
    }
  }

  lemma ListedIsIndexed(b: Book, a: Addr)
    requires Consistent(b) && Listed(b.lists, a)
    ensures a in b.index
  {
    var app :| app in b.lists && Has(b.lists[app], a);
    assert Indexed(b.lists[app], b.index);
  }

  /** As long as every command is answered, no chunk names an address twice and what is added
      has its wire form, the module holds exactly the union of the applications' lists,
      whatever it confirmed or denied, if each address is in use under one text only. */
  lemma {:induction false} ModuleHoldsUnion(w: World, events: seq<Event>, texts: set<Addr>)
    requires Good(w) && w.unsure == {} && w.book.index.Keys <= texts
    requires OneTextEach(texts) && AllDrawn(events, texts)
    ensures RunsWell(w, events) && HoldsUnion(After(w, events))
  {
    hide Good, HoldsUnion, RunsWell, OneTextEach, AllDrawn;
    DrawnRunsWell(w, events, texts);
    GoodHoldsUnion(After(w, events));
  }

  // ---- and with two texts for one address it does not ----

  const START := World(EMPTY, map[], {})

  /** A confirmed addition of one new node for an application new to the archive. */
  lemma AddOne(w: World, app: App, n: Node)
    requires app !in w.book.lists && n.acqAddr !in w.book.index && Sendable(n)
    ensures AddChunk(w, app, [n], Confirm) ==
            (World(Book(w.book.lists[app := [n]], w.book.index[n.acqAddr := n.proType]),
                   w.device[Wire(n.acqAddr).value := Protocol8(n.proType).value],
                   w.unsure - {Wire(n.acqAddr).value}), Done)
  {
    hide Wire, Protocol8;
    SingleAddrs(n);
    var entered := w.book.(lists := w.book.lists[app := []]);
    assert [n][..0] == [];
    assert AddExist(w.book, app, n) == (entered, Ok(false));
    assert NewNodes(w.book, app, []) == (w.book, Ok([])) && [] + [n] == [n];
    assert NewNodes(w.book, app, [n]) == (entered, Ok([n]));
    assert AddAll(entered, app, [n]) == AddChecked(entered, app, n);
    assert w.book.lists[app := []][app := [] + [n]] == w.book.lists[app := [n]];
    assert Stored(w.device, [n]) == w.device[Wire(n.acqAddr).value := Protocol8(n.proType).value];
  }

  lemma SingleAddrs(n: Node)
    requires Wire(n.acqAddr).Some?
    ensures Addrs([n]) == {n.acqAddr} && WiresOf({n.acqAddr}) == {Wire(n.acqAddr).value}
  {
    assert [n][0].acqAddr == n.acqAddr;
  }

  /** A confirmed deletion of the one node of an application that nobody else has. */
  lemma DelOne(w: World, app: App, n: Node)
    requires app in w.book.lists && w.book.lists[app] == [n] && n.acqAddr in w.book.index
    requires Wire(n.acqAddr).Some? && !Shared(w.book.lists, app, n.acqAddr)
    ensures DelChunk(w, app, [n], Confirm) ==
            (World(Book(w.book.lists[app := []], w.book.index - {n.acqAddr}),
                   w.device - {Wire(n.acqAddr).value}, w.unsure - {Wire(n.acqAddr).value}), Done)
  {
    hide Wire, Protocol8;
    SingleAddrs(n);
    assert [n][..0] == [];
    assert [n][0].acqAddr == n.acqAddr;
    assert ShouldRemove(w.book, app, n.acqAddr) == (w.book, true);
    assert LastReferences(w.book, app, []) == (w.book, []) && [] + [n] == [n];
    assert LastReferences(w.book, app, [n]) == (w.book, [n]);
    assert Dropped([n], n.acqAddr) == [];
    assert RemoveAll(w.book, app, [n]) == (RemoveChecked(w.book, app, n.acqAddr), Removed);
  }

  /** One application adds an address under one text, another adds it under a second, and the
      first deletes its own: the module no longer has what the second lists. */
  lemma TwoTextsStrand(a: Addr, b: Addr) returns (events: seq<Event>)
    requires a != b && Wire(a).Some? && Wire(a) == Wire(b)
    ensures AllDrawn(events, {a, b}) && !HoldsUnion(After(START, events))
  {
    hide Wire, Protocol8, AddChunk, DelChunk;
    var n, m := Node(a, "0"), Node(b, "0");
    ZeroIsProtocol();
    var x := Wire(a).value;
    events := [Event(Add, "A", [n], Confirm), Event(Add, "B", [m], Confirm), Event(Del, "A", [n], Confirm)];
    DrawnSingles(events, n, m);
    AddOne(START, "A", n);
    var w1 := AddChunk(START, "A", [n], Confirm).0;
    DifferentApps();
    AddOne(w1, "B", m);
    var w2 := AddChunk(w1, "B", [m], Confirm).0;
    assert !Shared(w2.book.lists, "A", a);
    DelOne(w2, "A", n);
    var w3 := DelChunk(w2, "A", [n], Confirm).0;
    AfterThree(START, events);
    assert w3.book.lists["B"] == [m] && [m][0].acqAddr == b;
    assert Listed(w3.book.lists, b) && Names(w3.book.lists, x);
    assert x !in w3.device;
  }

  lemma ZeroIsProtocol()
    ensures Protocol8("0") == Some(0)
  {
    assert DecimalFrom("0", 0) == DecimalFrom("0"[1..], 0);
  }

  lemma DifferentApps()
    ensures "A" != "B"
  {
    assert "A"[0] != "B"[0];
  }

  lemma DrawnSingles(events: seq<Event>, n: Node, m: Node)
    requires events == [Event(Add, "A", [n], Confirm), Event(Add, "B", [m], Confirm), Event(Del, "A", [n], Confirm)]
    requires Sendable(n) && Sendable(m)
    ensures AllDrawn(events, {n.acqAddr, m.acqAddr})
  {
  }

  lemma AfterThree(w: World, events: seq<Event>)
    requires |events| == 3
    ensures After(w, events) == Apply(Apply(Apply(w, events[0]).0, events[1]).0, events[2]).0
  {
    hide Apply;
    var w1 := Apply(w, events[0]).0;
    var w2 := Apply(w1, events[1]).0;
    assert events[1..][1..] == events[2..] && events[2..][1..] == [];
    assert After(w2, events[2..]) == After(Apply(w2, events[2]).0, []);
    assert After(w1, events[1..]) == After(w2, events[2..]);
  }

  ghost predicate AlwaysHoldsUnion(texts: set<Addr>) {
    forall events :: AllDrawn(events, texts) ==> HoldsUnion(After(START, events))
  }

  lemma StartIsGood()
    ensures Good(START)
  {
  }

  /** From an empty archive, the module holds the union after every run over these texts
      exactly when no two of them are one address on the line. */
  lemma {:induction false} UnionIffOneTextEach(texts: set<Addr>)
    ensures AlwaysHoldsUnion(texts) <==> OneTextEach(texts)
  {
    hide Wire, HoldsUnion, Good, After, RunsWell;
    if OneTextEach(texts) {
      StartIsGood();
      forall events | AllDrawn(events, texts) ensures HoldsUnion(After(START, events)) {
        ModuleHoldsUnion(START, events, texts);
      }
    } else {
      var a, b :| a in texts && b in texts && Wire(a).Some? && Wire(a) == Wire(b) && a != b;
      var events := TwoTextsStrand(a, b);
      MoreTexts(events, {a, b}, texts);
    }
  }

  lemma MoreTexts(events: seq<Event>, texts: set<Addr>, texts': set<Addr>)
    requires AllDrawn(events, texts) && texts <= texts'
    ensures AllDrawn(events, texts')
  {
    forall i | 0 <= i < |events| ensures Drawn(events[i], texts') {
      assert Drawn(events[i], texts);
    }
  }
}
