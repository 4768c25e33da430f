/** Whole requests, which go to the module ten nodes at a time. */
module ArchiveRequests {
  import opened Wrappers
  import opened WireForm
  import opened Archive
  import opened ArchiveSync
  import opened ArchiveRuns
  import opened Chunking

  /** The chunks in order, up to the first that is not done. */
  function Operate(w: World, kind: Kind, app: App, chunks: seq<seq<Node>>, replies: seq<Reply>): (World, Outcome)
    requires |chunks| == |replies|
    decreases chunks
  {
    if chunks == [] then (w, Done)
    else
      var (w', r) := Apply(w, Event(kind, app, chunks[0], replies[0]));
      if r.Done? then Operate(w', kind, app, chunks[1..], replies[1..]) else (w', r)
  }

  predicate AllConfirm(replies: seq<Reply>) {
    forall i :: 0 <= i < |replies| ==> replies[i].Confirm?
  }

  lemma AddrsOfBoth(nodes: seq<Node>, more: seq<Node>)
    ensures Addrs(nodes + more) == Addrs(nodes) + Addrs(more)
  {
    var all := nodes + more;
    forall a | a in Addrs(nodes) + Addrs(more) ensures a in Addrs(all) {
      if a in Addrs(nodes) {
        var i :| 0 <= i < |nodes| && nodes[i].acqAddr == a;
        assert all[i].acqAddr == a;
      } else {
        var i :| 0 <= i < |more| && more[i].acqAddr == a;
        assert all[|nodes| + i].acqAddr == a;
      }
    }
  }

  lemma DistinctParts(nodes: seq<Node>, more: seq<Node>)
    requires Distinct(nodes + more)
    ensures Distinct(nodes) && Distinct(more) && Addrs(nodes) !! Addrs(more)
  {
    var all := nodes + more;
    assert forall i :: 0 <= i < |nodes| ==> all[i] == nodes[i];
    assert forall i :: 0 <= i < |more| ==> all[|nodes| + i] == more[i];
  }

  // ---- deleting a whole request ----

  /** Those of the addresses that only this application lists. */
  function SoleOf(lists: Lists, app: App, addrs: set<Addr>): set<Addr> {
    set a | a in addrs && Sole(lists, app, a)
  }

  lemma SoleOfNodes(lists: Lists, app: App, nodes: seq<Node>)
    ensures Addrs(SoleNodes(lists, app, nodes)) == SoleOf(lists, app, Addrs(nodes))
  {
    hide Pick, Sole;
    var skip := NotSole(lists, app, nodes);
    NotSoleIs(lists, app, nodes);
    forall a ensures a in Addrs(Pick(skip, nodes)) <==> a in SoleOf(lists, app, Addrs(nodes)) {
      PickedAddrs(skip, nodes, a);
      if a in Addrs(nodes) {
        var i :| 0 <= i < |nodes| && nodes[i].acqAddr == a;
      }
    }
  }

  lemma SoleOfRest(lists: Lists, lists': Lists, app: App, gone: set<Addr>, addrs: set<Addr>)
    requires OnlyApp(lists, lists', app) && gone !! addrs
    requires forall a :: Keeps(lists', app, a) <==> Keeps(lists, app, a) && a !in gone
    ensures SoleOf(lists', app, addrs) == SoleOf(lists, app, addrs)
    ensures SoleOf(lists, app, gone + addrs) == SoleOf(lists, app, gone) + SoleOf(lists, app, addrs)
  {
    hide Keeps, OnlyApp;
    forall a ensures Shared(lists', app, a) <==> Shared(lists, app, a) {
      SharedSame(lists, lists', app, a);
    }
  }

  lemma WiresOfBoth(addrs: set<Addr>, more: set<Addr>)
    ensures WiresOf(addrs + more) == WiresOf(addrs) + WiresOf(more)
  {
    hide Wire;
  }

  /** `w'` is `w` after the application gave up these addresses, and index and module lost
      those it was alone with. */
  ghost predicate Deleted(w: World, w': World, app: App, addrs: set<Addr>) {
    var sole := SoleOf(w.book.lists, app, addrs);
    && Kept(w'.book) && OnlyApp(w.book.lists, w'.book.lists, app)
    && (forall a :: Keeps(w'.book.lists, app, a) <==> Keeps(w.book.lists, app, a) && a !in addrs)
    && w'.book.index == w.book.index - sole
    && w'.device == w.device - WiresOf(sole) && w'.unsure == w.unsure - WiresOf(sole)
  }

  lemma DeletedTwice(w: World, w': World, w'': World, app: App, addrs: set<Addr>, more: set<Addr>)
    requires Deleted(w, w', app, addrs) && Deleted(w', w'', app, more) && addrs !! more
    ensures Deleted(w, w'', app, addrs + more)
  {
    hide Keeps, SoleOf, Kept, WiresOf;
    SoleOfRest(w.book.lists, w'.book.lists, app, addrs, more);
    WiresOfBoth(SoleOf(w.book.lists, app, addrs), SoleOf(w.book.lists, app, more));
  }

  lemma DeletedNothing(w: World, app: App)
    requires Kept(w.book)
    ensures Deleted(w, w, app, {})
  {
    hide Kept;
    assert SoleOf(w.book.lists, app, {}) == {} && WiresOf({}) == {};
  }

  lemma {:induction false} DelAllDone(w: World, app: App, chunks: seq<seq<Node>>, replies: seq<Reply>)
    requires |chunks| == |replies| && AllConfirm(replies) && Kept(w.book) && Distinct(Joined(chunks))
    ensures var (w', r) := Operate(w, Del, app, chunks, replies);
            r.Done? && Deleted(w, w', app, Addrs(Joined(chunks)))
    decreases chunks
  {
    hide Deleted, Kept, DelChunk, Distinct, SoleNodes;
    if chunks == [] {
      DeletedNothing(w, app);
      assert Addrs(Joined(chunks)) == {};
    } else {
      var first, rest := chunks[0], Joined(chunks[1..]);
      DistinctParts(first, rest);
      AddrsOfBoth(first, rest);
      DelChunkDone(w, app, first);
      var w' := DelChunk(w, app, first, Confirm).0;
      ChunkDeleted(w, app, first);
      DelAllDone(w', app, chunks[1..], replies[1..]);
      DeletedTwice(w, w', Operate(w', Del, app, chunks[1..], replies[1..]).0, app, Addrs(first), Addrs(rest));
    }
  }

  lemma ChunkDeleted(w: World, app: App, nodes: seq<Node>)
    requires Kept(w.book) && Distinct(nodes)
    ensures Deleted(w, DelChunk(w, app, nodes, Confirm).0, app, Addrs(nodes))
  {
    hide Kept, DelChunk, Distinct, SoleNodes, Keeps, OnlyApp;
    DelChunkDone(w, app, nodes);
    SoleOfNodes(w.book.lists, app, nodes);
  }

  /** Clearing an application, confirmed all along, empties its list, touches no other list,
      and leaves in the index what the others list. Memory and module stay together exactly
      when no other application lists a second text of an address that was taken off. */
  lemma {:induction false} ClearEmpties(w: World, app: App, replies: seq<Reply>)
    requires Good(w) && |replies| == |Chunks(ListOf(w.book.lists, app), CHUNK)| && AllConfirm(replies)
    ensures var list := ListOf(w.book.lists, app);
            var (w', r) := Operate(w, Del, app, Chunks(list, CHUNK), replies);
            && r.Done? && Kept(w'.book) && ListOf(w'.book.lists, app) == []
            && OnlyApp(w.book.lists, w'.book.lists, app)
            && (forall a :: a in w'.book.index <==> Shared(w.book.lists, app, a))
            && (Good(w') <==> !Strands(w.book.index, SoleOf(w.book.lists, app, Addrs(list))))
  {
    hide Kept, Agree, Strands, Operate, Shared, Chunks;
    var list := ListOf(w.book.lists, app);
    ChunksJoin(list, CHUNK);
    assert Distinct(list) by { OwnListDistinct(w.book, app); }
    DelAllDone(w, app, Chunks(list, CHUNK), replies);
    var w' := Operate(w, Del, app, Chunks(list, CHUNK), replies).0;
    OwnListGone(w.book, w'.book, app);
    WithoutAgrees(w, w'.book, SoleOf(w.book.lists, app, Addrs(list)));
    forall a ensures a in w'.book.index <==> Shared(w.book.lists, app, a) {
      OnlyOthers(w'.book, app, a);
      SharedSame(w.book.lists, w'.book.lists, app, a);
    }
  }

  lemma OwnListDistinct(b: Book, app: App)
    requires Kept(b)
    ensures Distinct(ListOf(b.lists, app))
  {
  }

  lemma OwnListGone(b: Book, b': Book, app: App)
    requires forall a :: Keeps(b'.lists, app, a) <==> Keeps(b.lists, app, a) && a !in Addrs(ListOf(b.lists, app))
    ensures ListOf(b'.lists, app) == []
  {
    assert forall a :: Keeps(b.lists, app, a) ==> a in Addrs(ListOf(b.lists, app));
    var list := ListOf(b'.lists, app);
    assert list != [] ==> Keeps(b'.lists, app, list[0].acqAddr);
  }

  lemma OnlyOthers(b: Book, app: App, a: Addr)
    requires Kept(b) && ListOf(b.lists, app) == []
    ensures a in b.index <==> Shared(b.lists, app, a)
  {
    hide Encodable;
    if a in b.index {
      assert Listed(b.lists, a);
      var other :| other in b.lists && Has(b.lists[other], a);
    }
  }

  // ---- adding a whole request ----

  /** No list but this application's is another one; it may be there now, though empty. */
  ghost predicate OthersSame(lists: Lists, lists': Lists, app: App) {
    forall other :: other != app ==> ListOf(lists', other) == ListOf(lists, other)
  }

  lemma HasAppended(list: seq<Node>, more: seq<Node>, a: Addr)
    ensures Has(list + more, a) <==> Has(list, a) || a in Addrs(more)
  {
    if Has(list, a) {
      var i :| 0 <= i < |list| && list[i].acqAddr == a;
      assert (list + more)[i].acqAddr == a;
    } else if a in Addrs(more) {
      var i :| 0 <= i < |more| && more[i].acqAddr == a;
      assert (list + more)[|list| + i].acqAddr == a;
    }
  }

  lemma AddExistLists(b: Book, app: App, node: Node, a: Addr)
    requires Consistent(b) && AddExist(b, app, node).1.Ok?
    ensures var lists := AddExist(b, app, node).0.lists;
            && (Keeps(lists, app, a) <==> Keeps(b.lists, app, a) || (a == node.acqAddr && a in b.index))
            && OthersSame(b.lists, lists, app)
  {
    HasAppended(ListOf(b.lists, app), [node], a);
    assert [node][0] == node;
    if Keeps(b.lists, app, a) {
      assert Indexed(b.lists[app], b.index);
    }
  }

  lemma {:induction false} NewNodesListed(b: Book, app: App, nodes: seq<Node>, a: Addr)
    requires Consistent(b) && !Clashes(b.index, nodes)
    ensures var lists := NewNodes(b, app, nodes).0.lists;
            && (Keeps(lists, app, a) <==> Keeps(b.lists, app, a) || (a in Addrs(nodes) && a in b.index))
            && OthersSame(b.lists, lists, app)
  {
    if nodes != [] {
      var init, last := nodes[..|nodes| - 1], nodes[|nodes| - 1];
      assert nodes == init + [last];
      assert !Clashes(b.index, init) by { assert forall i :: 0 <= i < |init| ==> init[i] == nodes[i]; }
      NewNodesListed(b, app, init, a);
      NewNodesAre(b, app, init);
      NewNodesAre(b, app, nodes);
      AddrsOfLast(init, last);
      AddExistLists(NewNodes(b, app, init).0, app, last, a);
    }
  }

  /** `w'` is `w` after these nodes, which are all new, entered index and module. */
  ghost predicate Added(w: World, w': World, list: seq<Node>)
    requires AllSendable(list)
  {
    && Kept(w'.book)
    && w'.book.index == Entered(w.book.index, list) && w'.device == Stored(w.device, list)
    && w'.unsure == w.unsure - WiresOf(Addrs(list))
  }

  lemma PickedSendable(skip: set<Addr>, nodes: seq<Node>)
    requires AllSendable(nodes)
    ensures AllSendable(Pick(skip, nodes))
  {
    hide Sendable;
    var list := Pick(skip, nodes);
    forall i | 0 <= i < |list| ensures Sendable(list[i]) {
      var j :| 0 <= j < |nodes| && nodes[j] == list[i];
    }
  }

  /** A confirmed chunk of nodes that have their wire form enters list, index and module. */
  lemma AddChunkDone(w: World, app: App, nodes: seq<Node>)
    requires Kept(w.book) && Distinct(nodes) && !Clashes(w.book.index, nodes) && AllSendable(nodes)
    ensures AddChunk(w, app, nodes, Confirm).1.Done?
    ensures AllSendable(Pick(w.book.index.Keys, nodes))
    ensures Added(w, AddChunk(w, app, nodes, Confirm).0, Pick(w.book.index.Keys, nodes))
  {
    hide AllSendable, Stored, Entered, Consistent, Clashes, Encodable, AddAll, Distinct, Twice, NewNodes;
    var list := Pick(w.book.index.Keys, nodes);
    NewNodesAre(w.book, app, nodes);
    PickDistinct(w.book.index.Keys, nodes);
    PickedSendable(w.book.index.Keys, nodes);
    PickNew(w.book.index, nodes);
    NotTwice(w.book.index.Keys, nodes);
    var b := NewNodes(w.book, app, nodes).0;
    AddAllAre(b, app, list);
    AddAllKeeps(b, app, list);
    EnteredEncodable(b.index, list);
    if list == [] {
      NothingEnters(w);
    }
  }

  lemma NothingEnters(w: World)
    ensures AllSendable([]) && Entered(w.book.index, []) == w.book.index && Stored(w.device, []) == w.device
    ensures WiresOf(Addrs([])) == {}
  {
  }

  lemma AddChunkListed(w: World, app: App, nodes: seq<Node>, a: Addr)
    requires Kept(w.book) && Distinct(nodes) && !Clashes(w.book.index, nodes) && AllSendable(nodes)
    ensures var lists := AddChunk(w, app, nodes, Confirm).0.book.lists;
            && (Keeps(lists, app, a) <==> Keeps(w.book.lists, app, a) || a in Addrs(nodes))
            && OthersSame(w.book.lists, lists, app)
  {
    hide AllSendable, Stored, Entered, Consistent, Clashes, Encodable, AddAll, Distinct, Twice, NewNodes, Pick;
    NewNodesAre(w.book, app, nodes);
    NewNodesListed(w.book, app, nodes, a);
    PickedAddrs(w.book.index.Keys, nodes, a);
    PickedSendable(w.book.index.Keys, nodes);
    var (b, r) := NewNodes(w.book, app, nodes);
    AddAllAre(b, app, r.value);
    HasAppended(ListOf(b.lists, app), r.value, a);
  }

  // ---- what the chunks add up to ----

  lemma {:induction false} EnteredBoth(index: map<Addr, Protocol>, nodes: seq<Node>, more: seq<Node>)
    ensures Entered(index, nodes + more) == Entered(Entered(index, nodes), more)
  {
    if more == [] {
      assert nodes + more == nodes;
    } else {
      EnteredBoth(index, nodes, more[..|more| - 1]);
      assert (nodes + more)[..|nodes + more| - 1] == nodes + more[..|more| - 1];
    }
  }

  lemma {:induction false} StoredBoth(device: Device, nodes: seq<Node>, more: seq<Node>)
    requires AllSendable(nodes) && AllSendable(more)
    ensures AllSendable(nodes + more)
    ensures Stored(device, nodes + more) == Stored(Stored(device, nodes), more)
  {
    hide Wire, Protocol8;
    if more == [] {
      assert nodes + more == nodes;
    } else {
      StoredBoth(device, nodes, more[..|more| - 1]);
      assert (nodes + more)[..|nodes + more| - 1] == nodes + more[..|more| - 1];
    }
  }

  lemma {:induction false} PickBoth(skip: set<Addr>, nodes: seq<Node>, more: seq<Node>)
    ensures Pick(skip, nodes + more) == Pick(skip, nodes) + Pick(skip, more)
  {
    if more == [] {
      assert nodes + more == nodes;
    } else {
      PickBoth(skip, nodes, more[..|more| - 1]);
      assert (nodes + more)[..|nodes + more| - 1] == nodes + more[..|more| - 1];
    }
  }

  lemma {:induction false} PickSame(skip: set<Addr>, skip': set<Addr>, nodes: seq<Node>)
    requires forall a :: a in Addrs(nodes) ==> (a in skip <==> a in skip')
    ensures Pick(skip', nodes) == Pick(skip, nodes)
  {
    if nodes != [] {
      var init := nodes[..|nodes| - 1];
      assert nodes == init + [nodes[|nodes| - 1]];
      AddrsOfLast(init, nodes[|nodes| - 1]);
      PickSame(skip, skip', init);
    }
  }

  lemma AddedTwice(w: World, w': World, w'': World, list: seq<Node>, more: seq<Node>)
    requires AllSendable(list) && AllSendable(more) && Added(w, w', list) && Added(w', w'', more)
    ensures AllSendable(list + more) && Added(w, w'', list + more)
  {
    hide Stored, Entered, Kept, AllSendable;
    EnteredBoth(w.book.index, list, more);
    StoredBoth(w.device, list, more);
    AddrsOfBoth(list, more);
    WiresOfBoth(Addrs(list), Addrs(more));
  }

  /** A chunk added first makes none of the other nodes known, and none clash. */
  lemma RestUnchanged(w: World, w': World, list: seq<Node>, first: seq<Node>, rest: seq<Node>)
    requires AllSendable(list) && Added(w, w', list) && list == Pick(w.book.index.Keys, first)
    requires Addrs(first) !! Addrs(rest) && !Clashes(w.book.index, first + rest)
    ensures Pick(w'.book.index.Keys, rest) == Pick(w.book.index.Keys, rest)
    ensures !Clashes(w.book.index, first) && !Clashes(w'.book.index, rest)
  {
    hide Stored, Kept, AllSendable, Pick;
    forall a | a in Addrs(rest)
      ensures (a in w'.book.index <==> a in w.book.index)
          && (a in w.book.index ==> w'.book.index[a] == w.book.index[a]) {
      EnteredAt(w.book.index, list, a);
      PickedAddrs(w.book.index.Keys, first, a);
    }
    PickSame(w.book.index.Keys, w'.book.index.Keys, rest);
    assert forall i :: 0 <= i < |first| ==> (first + rest)[i] == first[i];
    forall i | 0 <= i < |rest| ensures rest[i].acqAddr in Addrs(rest) && (first + rest)[|first| + i] == rest[i] {
    }
  }

  lemma {:induction false} AddAllDone(w: World, app: App, chunks: seq<seq<Node>>, replies: seq<Reply>)
    requires |chunks| == |replies| && AllConfirm(replies) && Kept(w.book)
    requires var all := Joined(chunks); Distinct(all) && AllSendable(all) && !Clashes(w.book.index, all)
    ensures Operate(w, Add, app, chunks, replies).1.Done?
    ensures AllSendable(Pick(w.book.index.Keys, Joined(chunks)))
    ensures Added(w, Operate(w, Add, app, chunks, replies).0, Pick(w.book.index.Keys, Joined(chunks)))
    decreases chunks
  {
    hide Kept, AddChunk, Distinct, AllSendable, Added, Clashes, Pick;
    if chunks == [] {
      NothingAdded(w);
    } else {
      var first, rest := chunks[0], Joined(chunks[1..]);
      DistinctParts(first, rest);
      SendableParts(first, rest);
      assert !Clashes(w.book.index, first) by { ClashesLess(w.book.index, first, rest); }
      AddChunkDone(w, app, first);
      var w' := AddChunk(w, app, first, Confirm).0;
      var list := Pick(w.book.index.Keys, first);
      RestUnchanged(w, w', list, first, rest);
      assert Kept(w'.book) by { AddedKept(w, w', list); }
      AddAllDone(w', app, chunks[1..], replies[1..]);
      PickBoth(w.book.index.Keys, first, rest);
      AddedTwice(w, w', Operate(w', Add, app, chunks[1..], replies[1..]).0, list, Pick(w.book.index.Keys, rest));
    }
  }

  lemma NothingAdded(w: World)
    requires Kept(w.book)
    ensures Pick(w.book.index.Keys, []) == [] && AllSendable([]) && Added(w, w, [])
  {
    NothingEnters(w);
  }

  lemma AddedKept(w: World, w': World, list: seq<Node>)
    requires AllSendable(list) && Added(w, w', list)
    ensures Kept(w'.book)
  {
  }

  lemma ClashesLess(index: map<Addr, Protocol>, first: seq<Node>, rest: seq<Node>)
    requires !Clashes(index, first + rest)
    ensures !Clashes(index, first)
  {
    assert forall i :: 0 <= i < |first| ==> (first + rest)[i] == first[i];
  }

  lemma SendableParts(nodes: seq<Node>, more: seq<Node>)
    requires AllSendable(nodes + more)
    ensures AllSendable(nodes) && AllSendable(more)
  {
    hide Sendable;
    assert forall i :: 0 <= i < |nodes| ==> (nodes + more)[i] == nodes[i];
    assert forall i :: 0 <= i < |more| ==> (nodes + more)[|nodes| + i] == more[i];
  }

  lemma {:induction false} AddAllListed(w: World, app: App, chunks: seq<seq<Node>>, replies: seq<Reply>, a: Addr)
    requires |chunks| == |replies| && AllConfirm(replies) && Kept(w.book)
    requires var all := Joined(chunks); Distinct(all) && AllSendable(all) && !Clashes(w.book.index, all)
    ensures var lists := Operate(w, Add, app, chunks, replies).0.book.lists;
            && (Keeps(lists, app, a) <==> Keeps(w.book.lists, app, a) || a in Addrs(Joined(chunks)))
            && OthersSame(w.book.lists, lists, app)
    decreases chunks
  {
    hide Kept, AddChunk, Distinct, AllSendable, Added, Clashes, Pick, Keeps;
    if chunks != [] {
      var first, rest := chunks[0], Joined(chunks[1..]);
      DistinctParts(first, rest);
      SendableParts(first, rest);
      AddrsOfBoth(first, rest);
      ClashesLess(w.book.index, first, rest);
      AddChunkDone(w, app, first);
      AddChunkListed(w, app, first, a);
      var w' := AddChunk(w, app, first, Confirm).0;
      RestUnchanged(w, w', Pick(w.book.index.Keys, first), first, rest);
      AddedKept(w, w', Pick(w.book.index.Keys, first));
      AddAllListed(w', app, chunks[1..], replies[1..], a);
    }
  }

  /** Adding nodes with different addresses and a wire form that clash with nothing, confirmed
      all along, puts exactly them on the application's list. Memory and module stay together
      exactly when no new node differs in protocol from a second text of its address. */
  lemma {:induction false} AddListsAll(w: World, app: App, nodes: seq<Node>, replies: seq<Reply>)
    requires Good(w) && Distinct(nodes) && AllSendable(nodes) && !Clashes(w.book.index, nodes)
    requires |replies| == |Chunks(nodes, CHUNK)| && AllConfirm(replies)
    ensures var (w', r) := Operate(w, Add, app, Chunks(nodes, CHUNK), replies);
            && r.Done? && Kept(w'.book) && OthersSame(w.book.lists, w'.book.lists, app)
            && (forall a :: Keeps(w'.book.lists, app, a) <==> Keeps(w.book.lists, app, a) || a in Addrs(nodes))
            && (Good(w') <==> !Differs(w.book.index, Pick(w.book.index.Keys, nodes)))
  {
    hide Kept, Agree, Distinct, AllSendable, Clashes, Pick, Keeps, Differs, Operate, Chunks, Added, OthersSame;
    ChunksJoin(nodes, CHUNK);
    AddAllDone(w, app, Chunks(nodes, CHUNK), replies);
    var w' := Operate(w, Add, app, Chunks(nodes, CHUNK), replies).0;
    forall a ensures Keeps(w'.book.lists, app, a) <==> Keeps(w.book.lists, app, a) || a in Addrs(nodes)
      ensures OthersSame(w.book.lists, w'.book.lists, app) {
      AddAllListed(w, app, Chunks(nodes, CHUNK), replies, a);
    }
    assert OthersSame(w.book.lists, w'.book.lists, app) by {
      AddAllListed(w, app, Chunks(nodes, CHUNK), replies, "");
    }
    AddedAgrees(w, w', app, nodes);
  }

  lemma AddedAgrees(w: World, w': World, app: App, nodes: seq<Node>)
    requires Good(w) && Distinct(nodes) && AllSendable(nodes)
    requires AllSendable(Pick(w.book.index.Keys, nodes)) && Added(w, w', Pick(w.book.index.Keys, nodes))
    ensures Kept(w'.book) && (Agree(w') <==> !Differs(w.book.index, Pick(w.book.index.Keys, nodes)))
  {
    hide Consistent, Encodable, Distinct, AllSendable, Pick, Differs, Stored, Entered, AddAll, Wire, Protocol8, Twice;
    var list := Pick(w.book.index.Keys, nodes);
    PickDistinct(w.book.index.Keys, nodes);
    NotTwice(w.book.index.Keys, nodes);
    PickNew(w.book.index, nodes);
    AddAgrees(w, app, list);
    AddAllAre(w.book, app, list);
    SameIndexAgrees(AfterAdd(w, app, list), w');
  }

  lemma SameIndexAgrees(w: World, w': World)
    requires w'.book.index == w.book.index && w'.device == w.device && w'.unsure == w.unsure
    ensures Agree(w') <==> Agree(w)
  {
    hide Wire, Protocol8;
    forall x ensures AgreeAt(w', x) <==> AgreeAt(w, x) {
    }
  }
}
