/** What a request is answered, whatever the module answers to its chunks. */
module ArchiveAnswers {
  import opened Wrappers
  import opened WireForm
  import opened Archive
  import opened ArchiveSync
  import opened ArchiveRuns
  import opened ArchiveRequests
  import opened ArchiveLoad
  import opened Chunking

  // ---- one chunk ----

  /** The first node that has another protocol in the archive is the one refused. */
  ghost predicate FirstClash(index: map<Addr, Protocol>, nodes: seq<Node>, e: NodeError) {
    exists i :: 0 <= i < |nodes| && nodes[i].acqAddr in index && index[nodes[i].acqAddr] != nodes[i].proType
      && e == TypeMismatch(nodes[i].proType, index[nodes[i].acqAddr]) && !Clashes(index, nodes[..i])
  }

  lemma {:induction false} RefusalNames(b: Book, app: App, nodes: seq<Node>)
    requires Consistent(b) && Clashes(b.index, nodes)
    ensures NewNodes(b, app, nodes).1.Err? && FirstClash(b.index, nodes, NewNodes(b, app, nodes).1.error)
  {
    hide Consistent;
    NewNodesAre(b, app, nodes);
    var init, last := nodes[..|nodes| - 1], nodes[|nodes| - 1];
    NewNodesAre(b, app, init);
    if Clashes(b.index, init) {
      RefusalNames(b, app, init);
      var i :| 0 <= i < |init| && init[i].acqAddr in b.index && b.index[init[i].acqAddr] != init[i].proType
        && NewNodes(b, app, init).1.error == TypeMismatch(init[i].proType, b.index[init[i].acqAddr])
        && !Clashes(b.index, init[..i]);
      assert nodes[i] == init[i] && nodes[..i] == init[..i];
    } else {
      assert nodes == init + [last];
      NoClashYet(b.index, init, last);
      assert nodes[|init|] == last && nodes[..|init|] == init;
    }
  }

  /** An added chunk is answered with the refusal of its first clashing node, with a panic, or
      with what the module said, if it was asked; a chunk with nothing new is done. */
  lemma AddAnswered(w: World, app: App, nodes: seq<Node>, reply: Reply)
    requires Consistent(w.book)
    ensures var r, added := AddChunk(w, app, nodes, reply).1, Unknown(w, nodes);
            && (r.Rejected? <==> Clashes(w.book.index, nodes))
            && (r.Rejected? ==> FirstClash(w.book.index, nodes, r.error))
            && (r.Crash? <==> !AllSendable(added))
            && (r.Denied? <==> added != [] && AllSendable(added) && reply.Deny?)
            && (r.TimedOut? <==> added != [] && AllSendable(added) && reply.Silence?)
            && (r.Done? <==> !Clashes(w.book.index, nodes) && (added == [] || (AllSendable(added) && reply.Confirm?)))
  {
    hide Consistent, AllSendable, Stored, AddAll, NewNodes, FirstClash, Pick, Clashes;
    NewNodesAre(w.book, app, nodes);
    NothingToSend(w.book.index);
    var (b, found) := NewNodes(w.book, app, nodes);
    if Clashes(w.book.index, nodes) {
      RefusalNames(w.book, app, nodes);
    } else if found.value != [] && AllSendable(found.value) && !reply.Confirm? {
      assert AddChunk(w, app, nodes, reply) == NotDone(w.(book := b), reply, WiresOf(Addrs(found.value)));
    }
  }

  /** A deleted chunk that nobody else shares is answered with what the module said. */
  lemma DelAnswered(w: World, app: App, nodes: seq<Node>, reply: Reply)
    requires Kept(w.book)
    ensures var r, sole := DelChunk(w, app, nodes, reply).1, SoleNodes(w.book.lists, app, nodes);
            && (r.Crash? <==> reply.Confirm? && !Distinct(sole)) && !r.Rejected?
            && (r.Denied? <==> sole != [] && reply.Deny?)
            && (r.TimedOut? <==> sole != [] && reply.Silence?)
            && (r.Done? <==> sole == [] || (Distinct(sole) && reply.Confirm?))
  {
    hide Pick, Twice, LastReferences, RemoveAll, Wire, Protocol8, AllWired, Consistent, Distinct;
    var skip := NotSole(w.book.lists, app, nodes);
    NotSoleIs(w.book.lists, app, nodes);
    PickedSole(w.book, app, nodes, skip);
    var (b, list) := LastReferences(w.book, app, nodes);
    SoleIsWired(b, app, list);
    assert list == [] ==> Distinct(list) by { NothingStrands(w.book.index); }
    if list != [] && reply.Confirm? {
      RemoveAllAre(b, app, list);
    }
  }

  /** What the module did not confirm does not enter or leave the index, and what it denied did
      not change its archive. */
  lemma NotConfirmed(w: World, e: Event)
    requires Kept(w.book) && !e.reply.Confirm?
    ensures var (w', r) := Apply(w, e);
            && w'.book.index == w.book.index
            && (e.reply.Deny? ==> w'.device == w.device && w'.unsure == w.unsure)
  {
    hide Pick, NotSole, LastReferences, NewNodes, Consistent, Wire, AllSendable, AllWired, Stored;
    match e.kind
    case Add =>
      NewNodesAre(w.book, e.app, e.nodes);
    case Del =>
      NotSoleIs(w.book.lists, e.app, e.nodes);
      LastReferencesAre(w.book, e.app, e.nodes, NotSole(w.book.lists, e.app, e.nodes));
  }

  /** What was settled in memory before the module was asked stays settled, whatever it answers
      and even if the chunk is refused: known nodes before the refused one are shared. */
  lemma {:induction false} RefusedShares(b: Book, app: App, nodes: seq<Node>, i: nat, a: Addr)
    requires Consistent(b) && i < |nodes| && !Clashes(b.index, nodes[..i])
    requires nodes[i].acqAddr in b.index && b.index[nodes[i].acqAddr] != nodes[i].proType
    ensures Keeps(NewNodes(b, app, nodes).0.lists, app, a) <==>
            Keeps(b.lists, app, a) || (a in Addrs(nodes[..i]) && a in b.index)
    decreases nodes
  {
    hide Consistent, Keeps;
    var init, last := nodes[..|nodes| - 1], nodes[|nodes| - 1];
    assert nodes == init + [last];
    if i < |init| {
      assert init[..i] == nodes[..i] && init[i] == nodes[i];
      RefusedShares(b, app, init, i, a);
      NewNodesAre(b, app, init);
      assert Clashes(b.index, init);
    } else {
      assert nodes[..i] == init;
      NewNodesAre(b, app, init);
      NewNodesListed(b, app, init, a);
      EntryOnly(NewNodes(b, app, init).0, app, last, a);
    }
  }

  lemma EntryOnly(b: Book, app: App, node: Node, a: Addr)
    requires node.acqAddr in b.index && b.index[node.acqAddr] != node.proType
    ensures Keeps(AddExist(b, app, node).0.lists, app, a) <==> Keeps(b.lists, app, a)
  {
  }

  lemma NotConfirmedLists(w: World, e: Event, a: Addr)
    requires Kept(w.book) && !e.reply.Confirm? && !(e.kind.Add? && Clashes(w.book.index, e.nodes))
    ensures Keeps(Apply(w, e).0.book.lists, e.app, a) <==>
            match e.kind
            case Add => Keeps(w.book.lists, e.app, a) || (a in Addrs(e.nodes) && a in w.book.index)
            case Del => Keeps(w.book.lists, e.app, a) && !(a in Addrs(e.nodes) && Shared(w.book.lists, e.app, a))
  {
    hide Pick, NotSole, LastReferences, NewNodes, Consistent, Wire, AllSendable, AllWired, Stored, Keeps, Shared;
    match e.kind
    case Add =>
      NewNodesAre(w.book, e.app, e.nodes);
      NewNodesListed(w.book, e.app, e.nodes, a);
    case Del =>
      NotSoleIs(w.book.lists, e.app, e.nodes);
      LastReferencesAre(w.book, e.app, e.nodes, NotSole(w.book.lists, e.app, e.nodes));
  }

  // ---- what a chunk does not name ----

  /** Outside these addresses the application's list, the index and the module are as before,
      and so are the lists of all others. */
  ghost predicate SameOutside(w: World, w': World, app: App, addrs: set<Addr>) {
    && SameBookOutside(w.book, w'.book, app, addrs)
    && forall x :: x !in WiresOf(addrs) ==> SameAt(w.device, w'.device, x)
  }

  predicate SameAt<K, V(==)>(m: map<K, V>, m': map<K, V>, k: K) {
    (k in m' <==> k in m) && (k in m ==> m'[k] == m[k])
  }

  ghost predicate SameBookOutside(b: Book, b': Book, app: App, addrs: set<Addr>) {
    && (forall a :: a !in addrs ==>
          (Keeps(b'.lists, app, a) <==> Keeps(b.lists, app, a)) && SameAt(b.index, b'.index, a))
    && OthersSame(b.lists, b'.lists, app)
  }

  lemma SameBookTwice(b: Book, b': Book, b'': Book, app: App, addrs: set<Addr>, more: set<Addr>)
    requires SameBookOutside(b, b', app, addrs) && SameBookOutside(b', b'', app, more)
    ensures SameBookOutside(b, b'', app, addrs + more)
  {
    hide Keeps;
  }

  lemma SameTwice(w: World, w': World, w'': World, app: App, addrs: set<Addr>, more: set<Addr>)
    requires SameOutside(w, w', app, addrs) && SameOutside(w', w'', app, more)
    ensures SameOutside(w, w'', app, addrs + more)
  {
    hide Keeps, WiresOf, SameBookOutside;
    WiresOfBoth(addrs, more);
    SameBookTwice(w.book, w'.book, w''.book, app, addrs, more);
  }

  lemma SameNothing(b: Book, app: App, addrs: set<Addr>)
    ensures SameBookOutside(b, b, app, addrs)
  {
  }

  lemma WorldSame(w: World, app: App, addrs: set<Addr>)
    ensures SameOutside(w, w, app, addrs)
  {
  }

  lemma HasLess(list: seq<Node>, addr: Addr, a: Addr)
    requires Has(list, addr) && a != addr
    ensures Has(Dropped(list, addr), a) <==> Has(list, a)
  {
    var pos, list' := Position(list, addr), Dropped(list, addr);
    if Has(list, a) {
      var i :| 0 <= i < |list| && list[i].acqAddr == a;
      assert list'[if i < pos then i else i - 1] == list[i];
    }
  }

  lemma AddExistSame(b: Book, app: App, node: Node)
    ensures SameBookOutside(b, AddExist(b, app, node).0, app, {node.acqAddr})
  {
    forall a | a != node.acqAddr ensures Has(ListOf(b.lists, app) + [node], a) <==> Has(ListOf(b.lists, app), a) {
      HasAppended(ListOf(b.lists, app), [node], a);
    }
  }

  lemma AddCheckedSame(b: Book, app: App, node: Node)
    ensures SameBookOutside(b, AddChecked(b, app, node), app, {node.acqAddr})
  {
    forall a | a != node.acqAddr ensures Has(ListOf(b.lists, app) + [node], a) <==> Has(ListOf(b.lists, app), a) {
      HasAppended(ListOf(b.lists, app), [node], a);
    }
  }

  lemma ShouldRemoveSame(b: Book, app: App, addr: Addr)
    ensures SameBookOutside(b, ShouldRemove(b, app, addr).0, app, {addr})
  {
    if Keeps(b.lists, app, addr) {
      forall a | a != addr ensures Has(Dropped(b.lists[app], addr), a) <==> Has(b.lists[app], a) {
        HasLess(b.lists[app], addr, a);
      }
    }
  }

  lemma RemoveCheckedSame(b: Book, app: App, addr: Addr)
    requires Keeps(b.lists, app, addr)
    ensures SameBookOutside(b, RemoveChecked(b, app, addr), app, {addr})
  {
    forall a | a != addr ensures Has(Dropped(b.lists[app], addr), a) <==> Has(b.lists[app], a) {
      HasLess(b.lists[app], addr, a);
    }
  }

  lemma {:induction false} NewNodesSame(b: Book, app: App, nodes: seq<Node>)
    ensures var (b', r) := NewNodes(b, app, nodes);
            && SameBookOutside(b, b', app, Addrs(nodes))
            && (r.Ok? ==> Addrs(r.value) <= Addrs(nodes))
  {
    hide AddExist, SameBookOutside;
    if nodes == [] {
      SameNothing(b, app, {});
      assert Addrs(nodes) == {};
    } else {
      var init, last := nodes[..|nodes| - 1], nodes[|nodes| - 1];
      var (b', r) := NewNodes(b, app, init);
      NewNodesSame(b, app, init);
      assert nodes == init + [last];
      AddrsOfLast(init, last);
      AddExistSame(b', app, last);
      SameBookTwice(b, b', AddExist(b', app, last).0, app, Addrs(init), {last.acqAddr});
      SameNothing(b', app, {last.acqAddr});
      SameBookTwice(b, b', b', app, Addrs(init), {last.acqAddr});
      if r.Ok? {
        AddrsOfLast(r.value, last);
      }
    }
  }

  lemma {:induction false} LastReferencesSame(b: Book, app: App, nodes: seq<Node>)
    ensures var (b', list) := LastReferences(b, app, nodes);
            SameBookOutside(b, b', app, Addrs(nodes)) && Addrs(list) <= Addrs(nodes)
  {
    hide ShouldRemove, SameBookOutside;
    if nodes == [] {
      SameNothing(b, app, {});
      assert Addrs(nodes) == {};
    } else {
      var init, last := nodes[..|nodes| - 1], nodes[|nodes| - 1];
      var (b', list) := LastReferences(b, app, init);
      LastReferencesSame(b, app, init);
      assert nodes == init + [last];
      AddrsOfLast(init, last);
      ShouldRemoveSame(b', app, last.acqAddr);
      SameBookTwice(b, b', ShouldRemove(b', app, last.acqAddr).0, app, Addrs(init), {last.acqAddr});
      AddrsOfLast(list, last);
    }
  }

  lemma {:induction false} AddAllSame(b: Book, app: App, nodes: seq<Node>)
    ensures SameBookOutside(b, AddAll(b, app, nodes), app, Addrs(nodes))
  {
    hide AddChecked, SameBookOutside;
    if nodes == [] {
      SameNothing(b, app, {});
      assert Addrs(nodes) == {};
    } else {
      var init, last := nodes[..|nodes| - 1], nodes[|nodes| - 1];
      AddAllSame(b, app, init);
      assert nodes == init + [last];
      AddrsOfLast(init, last);
      AddCheckedSame(AddAll(b, app, init), app, last);
      SameBookTwice(b, AddAll(b, app, init), AddAll(b, app, nodes), app, Addrs(init), {last.acqAddr});
    }
  }

  lemma {:induction false} RemoveAllSame(b: Book, app: App, nodes: seq<Node>)
    ensures SameBookOutside(b, RemoveAll(b, app, nodes).0, app, Addrs(nodes))
  {
    hide RemoveChecked, SameBookOutside;
    if nodes == [] {
      SameNothing(b, app, {});
      assert Addrs(nodes) == {};
    } else {
      var init, last := nodes[..|nodes| - 1], nodes[|nodes| - 1];
      var b' := RemoveAll(b, app, init).0;
      RemoveAllSame(b, app, init);
      assert nodes == init + [last];
      AddrsOfLast(init, last);
      SameNothing(b', app, {last.acqAddr});
      SameBookTwice(b, b', b', app, Addrs(init), {last.acqAddr});
      if Keeps(b'.lists, app, last.acqAddr) {
        RemoveCheckedSame(b', app, last.acqAddr);
        SameBookTwice(b, b', RemoveChecked(b', app, last.acqAddr), app, Addrs(init), {last.acqAddr});
      }
    }
  }

  lemma FewerSame(b: Book, b': Book, app: App, addrs: set<Addr>, more: set<Addr>)
    requires SameBookOutside(b, b', app, addrs) && addrs <= more
    ensures SameBookOutside(b, b', app, more)
  {
    hide Keeps;
  }

  lemma FewerWires(addrs: set<Addr>, more: set<Addr>)
    requires addrs <= more
    ensures WiresOf(addrs) <= WiresOf(more)
  {
    hide Wire;
  }

  lemma NotDoneSame(w: World, reply: Reply, wires: set<WireAddr>, more: set<WireAddr>)
    requires !reply.Confirm? && wires <= more
    ensures var w' := NotDone(w, reply, wires).0;
            w'.book == w.book && forall x :: x !in more ==> SameAt(w.device, w'.device, x)
  {
  }

  lemma StoredSame(device: Device, nodes: seq<Node>, more: set<WireAddr>)
    requires AllSendable(nodes) && WiresOf(Addrs(nodes)) <= more
    ensures forall x :: x !in more ==> SameAt(device, Stored(device, nodes), x)
  {
    hide Wire, Protocol8, Stored;
    forall x | x !in more ensures SameAt(device, Stored(device, nodes), x) {
      StoredAt(device, nodes, x);
    }
  }

  lemma AddSame(w: World, app: App, nodes: seq<Node>, reply: Reply)
    ensures SameOutside(w, AddChunk(w, app, nodes, reply).0, app, Addrs(nodes))
  {
    hide SameBookOutside, NewNodes, AddAll, Stored, AllSendable, NotDone, SameAt, WiresOf;
    var (b, r) := NewNodes(w.book, app, nodes);
    NewNodesSame(w.book, app, nodes);
    DeviceSame(w.device, WiresOf(Addrs(nodes)));
    if r.Ok? && AllSendable(r.value) {
      FewerWires(Addrs(r.value), Addrs(nodes));
      if !reply.Confirm? {
        NotDoneSame(w.(book := b), reply, WiresOf(Addrs(r.value)), WiresOf(Addrs(nodes)));
      } else {
        StoredSame(w.device, r.value, WiresOf(Addrs(nodes)));
        AddAllSame(b, app, r.value);
        SameBookTwice(w.book, b, AddAll(b, app, r.value), app, Addrs(nodes), Addrs(r.value));
        assert Addrs(nodes) + Addrs(r.value) == Addrs(nodes);
      }
    }
  }

  lemma DeviceSame(device: Device, wires: set<WireAddr>)
    ensures forall x :: x !in wires ==> SameAt(device, device, x)
  {
  }

  lemma LessSame(device: Device, wires: set<WireAddr>, more: set<WireAddr>)
    requires wires <= more
    ensures forall x :: x !in more ==> SameAt(device, device - wires, x)
  {
  }

  lemma DelSame(w: World, app: App, nodes: seq<Node>, reply: Reply)
    ensures SameOutside(w, DelChunk(w, app, nodes, reply).0, app, Addrs(nodes))
  {
    hide SameBookOutside, LastReferences, RemoveAll, AllWired, NotDone, SameAt, WiresOf;
    var (b, list) := LastReferences(w.book, app, nodes);
    LastReferencesSame(w.book, app, nodes);
    DeviceSame(w.device, WiresOf(Addrs(nodes)));
    FewerWires(Addrs(list), Addrs(nodes));
    if !reply.Confirm? {
      NotDoneSame(w.(book := b), reply, WiresOf(Addrs(list)), WiresOf(Addrs(nodes)));
    } else {
      LessSame(w.device, WiresOf(Addrs(list)), WiresOf(Addrs(nodes)));
      RemoveAllSame(b, app, list);
      SameBookTwice(w.book, b, RemoveAll(b, app, list).0, app, Addrs(nodes), Addrs(list));
      assert Addrs(nodes) + Addrs(list) == Addrs(nodes);
    }
  }

  lemma ChunkSame(w: World, e: Event)
    ensures SameOutside(w, Apply(w, e).0, e.app, Addrs(e.nodes))
  {
    hide SameOutside, AddChunk, DelChunk;
    match e.kind
    case Add => AddSame(w, e.app, e.nodes, e.reply);
    case Del => DelSame(w, e.app, e.nodes, e.reply);
  }

  // ---- a whole request ----

  /** Memory and module after the first `k` chunks, one after the other. */
  function Through(w: World, kind: Kind, app: App, chunks: seq<seq<Node>>, replies: seq<Reply>, k: nat): World
    requires |chunks| == |replies| && k <= |chunks|
    decreases k
  {
    if k == 0 then w
    else Apply(Through(w, kind, app, chunks, replies, k - 1), Event(kind, app, chunks[k - 1], replies[k - 1])).0
  }

  /** The answer to chunk `k`, in the state it meets. */
  function Answer(w: World, kind: Kind, app: App, chunks: seq<seq<Node>>, replies: seq<Reply>, k: nat): Outcome
    requires |chunks| == |replies| && k < |chunks|
  {
    Apply(Through(w, kind, app, chunks, replies, k), Event(kind, app, chunks[k], replies[k])).1
  }

  lemma {:induction false} ThroughFirst(w: World, kind: Kind, app: App, chunks: seq<seq<Node>>, replies: seq<Reply>,
      k: nat)
    requires |chunks| == |replies| && k < |chunks|
    ensures Through(w, kind, app, chunks, replies, k + 1) ==
            Through(Apply(w, Event(kind, app, chunks[0], replies[0])).0, kind, app, chunks[1..], replies[1..], k)
    decreases k
  {
    hide Apply;
    if k > 0 {
      ThroughFirst(w, kind, app, chunks, replies, k - 1);
    }
  }

  lemma AnswerFirst(w: World, kind: Kind, app: App, chunks: seq<seq<Node>>, replies: seq<Reply>, k: nat)
    requires |chunks| == |replies| && k + 1 < |chunks|
    ensures Answer(w, kind, app, chunks, replies, k + 1) ==
            Answer(Apply(w, Event(kind, app, chunks[0], replies[0])).0, kind, app, chunks[1..], replies[1..], k)
  {
    hide Apply, Through;
    ThroughFirst(w, kind, app, chunks, replies, k);
  }

  ghost predicate AllDone(w: World, kind: Kind, app: App, chunks: seq<seq<Node>>, replies: seq<Reply>, k: nat)
    requires |chunks| == |replies| && k <= |chunks|
  {
    forall j :: 0 <= j < k ==> Answer(w, kind, app, chunks, replies, j).Done?
  }

  lemma AllDoneFirst(w: World, kind: Kind, app: App, chunks: seq<seq<Node>>, replies: seq<Reply>, k: nat)
    requires |chunks| == |replies| && k < |chunks|
    ensures AllDone(w, kind, app, chunks, replies, k + 1) <==>
            && Answer(w, kind, app, chunks, replies, 0).Done?
            && AllDone(Apply(w, Event(kind, app, chunks[0], replies[0])).0, kind, app, chunks[1..], replies[1..], k)
  {
    hide Apply, Through, Answer;
    var w' := Apply(w, Event(kind, app, chunks[0], replies[0])).0;
    forall j | 0 <= j < k
      ensures Answer(w, kind, app, chunks, replies, j + 1) == Answer(w', kind, app, chunks[1..], replies[1..], j) {
      AnswerFirst(w, kind, app, chunks, replies, j);
    }
    if AllDone(w, kind, app, chunks, replies, k + 1) {
      forall j | 0 <= j < k ensures Answer(w', kind, app, chunks[1..], replies[1..], j).Done? {
        assert Answer(w, kind, app, chunks, replies, j + 1).Done?;
      }
    } else if Answer(w, kind, app, chunks, replies, 0).Done? {
      var j :| 0 <= j < k + 1 && !Answer(w, kind, app, chunks, replies, j).Done?;
      assert !Answer(w', kind, app, chunks[1..], replies[1..], j - 1).Done?;
    }
  }

  /** The chunk at which a request stops: the first that is not done, if there is one. */
  function Stop(w: World, kind: Kind, app: App, chunks: seq<seq<Node>>, replies: seq<Reply>): (k: nat)
    requires |chunks| == |replies|
    ensures k <= |chunks|
    decreases chunks
  {
    if chunks == [] then 0
    else
      var (w', r) := Apply(w, Event(kind, app, chunks[0], replies[0]));
      if r.Done? then 1 + Stop(w', kind, app, chunks[1..], replies[1..]) else 0
  }

  /** Whatever the module answers: a request is done exactly when every chunk, in the state it
      meets, is done. Otherwise it is answered as its first chunk that is not, and memory and
      module are as that chunk left them. */
  lemma {:induction false} RequestAnswered(w: World, kind: Kind, app: App, chunks: seq<seq<Node>>, replies: seq<Reply>)
    requires |chunks| == |replies|
    ensures var (w', r) := Operate(w, kind, app, chunks, replies);
            var k := Stop(w, kind, app, chunks, replies);
            && AllDone(w, kind, app, chunks, replies, k)
            && (r.Done? <==> AllDone(w, kind, app, chunks, replies, |chunks|))
            && (r.Done? ==> k == |chunks| && w' == Through(w, kind, app, chunks, replies, k))
            && (!r.Done? ==> k < |chunks| && r == Answer(w, kind, app, chunks, replies, k)
                             && w' == Through(w, kind, app, chunks, replies, k + 1))
    decreases chunks
  {
    hide Apply;
    if chunks != [] {
      var (first, r) := Apply(w, Event(kind, app, chunks[0], replies[0]));
      assert Through(w, kind, app, chunks, replies, 0) == w;
      assert Answer(w, kind, app, chunks, replies, 0) == r;
      if r.Done? {
        RequestAnswered(first, kind, app, chunks[1..], replies[1..]);
        var k := Stop(first, kind, app, chunks[1..], replies[1..]);
        AllDoneFirst(w, kind, app, chunks, replies, k);
        AllDoneFirst(w, kind, app, chunks, replies, |chunks| - 1);
        ThroughFirst(w, kind, app, chunks, replies, k);
        if k < |chunks| - 1 {
          AnswerFirst(w, kind, app, chunks, replies, k);
          ThroughFirst(w, kind, app, chunks, replies, k + 1);
        }
      } else {
        assert Through(w, kind, app, chunks, replies, 1) == first;
      }
    }
  }

  lemma JoinedTo(chunks: seq<seq<Node>>, k: nat)
    requires k < |chunks|
    ensures Addrs(Joined(chunks[..k + 1])) == Addrs(Joined(chunks[..k])) + Addrs(chunks[k])
  {
    assert chunks[..k + 1] == chunks[..k] + [chunks[k]];
    JoinedNext(chunks[..k], chunks[k]);
    AddrsOfBoth(Joined(chunks[..k]), chunks[k]);
  }

  lemma {:induction false} ThroughSame(w: World, kind: Kind, app: App, chunks: seq<seq<Node>>, replies: seq<Reply>,
      k: nat)
    requires |chunks| == |replies| && k <= |chunks|
    ensures SameOutside(w, Through(w, kind, app, chunks, replies, k), app, Addrs(Joined(chunks[..k])))
    decreases k
  {
    hide Apply, SameOutside, Joined, Addrs;
    if k == 0 {
      WorldSame(w, app, Addrs(Joined(chunks[..k])));
    } else {
      var mid := Through(w, kind, app, chunks, replies, k - 1);
      var e := Event(kind, app, chunks[k - 1], replies[k - 1]);
      ThroughSame(w, kind, app, chunks, replies, k - 1);
      ChunkSame(mid, e);
      JoinedTo(chunks, k - 1);
      SameTwice(w, mid, Apply(mid, e).0, app, Addrs(Joined(chunks[..k - 1])), Addrs(chunks[k - 1]));
    }
  }

  /** The nodes of the chunks up to the one at which a request stops. */
  function Reached(w: World, kind: Kind, app: App, chunks: seq<seq<Node>>, replies: seq<Reply>): seq<Node>
    requires |chunks| == |replies|
  {
    var k := Stop(w, kind, app, chunks, replies);
    Joined(if k < |chunks| then chunks[..k + 1] else chunks)
  }

  /** A request touches nothing but the nodes of its chunks up to the one it stops at. */
  lemma {:induction false} RequestTouches(w: World, kind: Kind, app: App, chunks: seq<seq<Node>>, replies: seq<Reply>)
    requires |chunks| == |replies|
    ensures SameOutside(w, Operate(w, kind, app, chunks, replies).0, app, Addrs(Reached(w, kind, app, chunks, replies)))
  {
    hide SameOutside, Operate, Through, Joined, Stop, Answer, Addrs, AllDone;
    var k := Stop(w, kind, app, chunks, replies);
    RequestAnswered(w, kind, app, chunks, replies);
    ThroughSame(w, kind, app, chunks, replies, if k < |chunks| then k + 1 else k);
    assert k == |chunks| ==> chunks[..k] == chunks;
  }

  /** A request goes to the module ten nodes at a time. */
  lemma TenAtATime(nodes: seq<Node>, i: nat)
    requires i < |Chunks(nodes, CHUNK)|
    ensures var chunks := Chunks(nodes, CHUNK);
            0 < |chunks[i]| <= 10 && (i < |chunks| - 1 ==> |chunks[i]| == 10)
  {
  }

  // ---- the start ----

  /** What a start sends: the chunks in order, up to the first that cannot be sent or that the
      module does not confirm, which it is answered with. */
  lemma {:induction false} StartAnswered(device: Device, chunks: seq<seq<Node>>, replies: seq<Reply>) returns (k: nat)
    requires |chunks| == |replies|
    ensures k <= |chunks| && forall j :: 0 <= j < k ==> AllSendable(chunks[j]) && replies[j].Confirm?
    ensures AllSendable(Joined(chunks[..k]))
    ensures var (device', r) := Send(device, chunks, replies);
            var stored := Stored(device, Joined(chunks[..k]));
            if k == |chunks| then r == Done && device' == stored
            else if !AllSendable(chunks[k]) then r == Crash && device' == stored
            else if replies[k].Deny? then r == Denied && device' == stored
            else
              && replies[k].Silence? && r == TimedOut
              && forall x :: x !in WiresOf(Addrs(chunks[k])) ==> SameAt(stored, device', x)
    decreases chunks
  {
    hide Sendable, WiresOf, Addrs;
    if chunks == [] || !AllSendable(chunks[0]) || !replies[0].Confirm? {
      k := 0;
      assert Joined(chunks[..k]) == [] && AllSendable([]);
    } else {
      var n := StartAnswered(Stored(device, chunks[0]), chunks[1..], replies[1..]);
      k := n + 1;
      forall j | 0 <= j < k ensures AllSendable(chunks[j]) && replies[j].Confirm? {
        assert j > 0 ==> chunks[j] == chunks[1..][j - 1] && replies[j] == replies[1..][j - 1];
      }
      assert chunks[..k][1..] == chunks[1..][..n] && chunks[..k][0] == chunks[0];
      SendableBoth(chunks[0], Joined(chunks[1..][..n]));
      StoredBoth(device, chunks[0], Joined(chunks[1..][..n]));
    }
  }

  /** A load that fails stops at the first entry that gives a known address another protocol:
      the archive holds the entries before it, and the error names both protocols. */
  lemma {:induction false} LoadStopsFirst(entries: seq<Entry>) returns (k: nat)
    requires Conflict(entries)
    ensures k < |entries| && !Conflict(entries[..k])
    ensures var before, n := Load(EMPTY, entries[..k]).0, entries[k].node;
            && Holds(before, entries[..k])
            && n.acqAddr in before.index && before.index[n.acqAddr] != n.proType
            && Load(EMPTY, entries).1 == Some(TypeMismatch(n.proType, before.index[n.acqAddr]))
            && Load(EMPTY, entries).0 == AddInit(before, entries[k].app, n).0
            && SameBookOutside(before, Load(EMPTY, entries).0, entries[k].app, {})
  {
    hide Holds, SameBookOutside;
    LoadIs(entries);
    var init, last := entries[..|entries| - 1], entries[|entries| - 1];
    LoadIs(init);
    if Conflict(init) {
      k := LoadStopsFirst(init);
      assert entries[..k] == init[..k] && entries[k] == init[k];
    } else {
      k := |init|;
      assert entries[..k] == init && entries == init + [last];
      var before := Load(EMPTY, init).0;
      assert Consistent(before) by { HoldsConsistent(before, init); }
      AddInitIs(before, last.app, last.node);
      EntrySame(before, last.app, last.node);
    }
  }

  lemma HoldsConsistent(b: Book, entries: seq<Entry>)
    requires Holds(b, entries)
    ensures Consistent(b)
  {
  }

  lemma EntrySame(b: Book, app: App, node: Node)
    requires node.acqAddr in b.index && b.index[node.acqAddr] != node.proType
    ensures SameBookOutside(b, AddInit(b, app, node).0, app, {})
  {
  }

  /** What is sent first was stored first: more nodes only add at the end. */
  lemma {:induction false} DedupKeepsOrder(nodes: seq<Node>, n: nat)
    requires n <= |nodes|
    ensures Dedup(nodes[..n]) <= Dedup(nodes)
  {
    if n < |nodes| {
      DedupKeepsOrder(nodes[..|nodes| - 1], n);
      assert nodes[..|nodes| - 1][..n] == nodes[..n];
    } else {
      assert nodes[..n] == nodes;
    }
  }

  // ---- the order of a list ----

  /** A node that is shared enters the list last, and one that is given up leaves the others in
      their order. */
  lemma ListOrder(b: Book, app: App, node: Node, before: seq<Node>, after: seq<Node>)
    requires !Has(before, node.acqAddr)
    ensures var list := before + [node] + after;
            list[|before|] == node && Has(list, node.acqAddr) && Dropped(list, node.acqAddr) == before + after
    ensures node.acqAddr in b.index && b.index[node.acqAddr] == node.proType && !Keeps(b.lists, app, node.acqAddr) ==>
              AddExist(b, app, node).0.lists == b.lists[app := ListOf(b.lists, app) + [node]]
  {
    var list := before + [node] + after;
    assert list[|before|] == node;
    assert forall i :: 0 <= i < |before| ==> list[i] == before[i];
    PositionIs(list, node.acqAddr, |before|);
  }

  lemma {:induction false} PositionIs(list: seq<Node>, addr: Addr, i: nat)
    requires i < |list| && list[i].acqAddr == addr && forall j :: 0 <= j < i ==> list[j].acqAddr != addr
    ensures Position(list, addr) == i
  {
  }
}
