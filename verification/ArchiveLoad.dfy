/** The start of the program: the stored lists enter the memory, and their union, without
    repetitions, goes to the cleared module. */
module ArchiveLoad {
  import opened Wrappers
  import opened WireForm
  import opened Archive
  import opened ArchiveSync
  import opened ArchiveRuns
  import opened ArchiveRequests
  import opened Chunking

  /** One stored node of one application. */
  datatype Entry = Entry(app: App, node: Node)

  function AddInit(b: Book, app: App, node: Node): (Book, Option<NodeError>) {
    var (b', r) := AddExist(b, app, node);
    match r
    case Err(e) => (b', Some(e))
    case Ok(known) => (if known then b' else AddChecked(b', app, node), None)
  }

  /** The entries in order, up to the first that does not fit. */
  function Load(b: Book, entries: seq<Entry>): (Book, Option<NodeError>) {
    if entries == [] then (b, None)
    else
      var (b', error) := Load(b, entries[..|entries| - 1]);
      var last := entries[|entries| - 1];
      if error.Some? then (b', error) else AddInit(b', last.app, last.node)
  }

  /** Two entries give one address two protocols. */
  predicate Conflict(entries: seq<Entry>) {
    exists i, j :: 0 <= i < |entries| && 0 <= j < |entries|
      && entries[i].node.acqAddr == entries[j].node.acqAddr && entries[i].node.proType != entries[j].node.proType
  }

  predicate Assigns(entries: seq<Entry>, app: App, a: Addr) {
    exists i :: 0 <= i < |entries| && entries[i].app == app && entries[i].node.acqAddr == a
  }

  predicate Stores(entries: seq<Entry>, a: Addr, p: Protocol) {
    exists i :: 0 <= i < |entries| && entries[i].node == Node(a, p)
  }

  /** The archive holds what the entries say and nothing else. */
  ghost predicate Holds(b: Book, entries: seq<Entry>) {
    && Consistent(b)
    && (forall a, p :: Stores(entries, a, p) <==> a in b.index && b.index[a] == p)
    && (forall app, a :: Keeps(b.lists, app, a) <==> Assigns(entries, app, a))
  }

  lemma StoresMore(entries: seq<Entry>, e: Entry, a: Addr, p: Protocol)
    ensures Stores(entries + [e], a, p) <==> Stores(entries, a, p) || e.node == Node(a, p)
  {
    if Stores(entries, a, p) {
      var i :| 0 <= i < |entries| && entries[i].node == Node(a, p);
      assert (entries + [e])[i].node == Node(a, p);
    }
    assert (entries + [e])[|entries|] == e;
  }

  lemma AssignsMore(entries: seq<Entry>, e: Entry, app: App, a: Addr)
    ensures Assigns(entries + [e], app, a) <==> Assigns(entries, app, a) || (e.app == app && e.node.acqAddr == a)
  {
    if Assigns(entries, app, a) {
      var i :| 0 <= i < |entries| && entries[i].app == app && entries[i].node.acqAddr == a;
      assert (entries + [e])[i].app == app && (entries + [e])[i].node.acqAddr == a;
    }
    assert (entries + [e])[|entries|] == e;
  }

  /** One loaded node is listed and indexed, unless the index has another protocol for it. */
  lemma AddInitIs(b: Book, app: App, node: Node)
    requires Consistent(b)
    ensures var (b', error) := AddInit(b, app, node);
            && (error.Some? <==> node.acqAddr in b.index && b.index[node.acqAddr] != node.proType)
            && (error.None? ==>
                  && Consistent(b') && b'.index == b.index[node.acqAddr := node.proType]
                  && OthersSame(b.lists, b'.lists, app))
  {
    hide AddExist, Consistent, Keeps;
    var (b', r) := AddExist(b, app, node);
    AddExistKeeps(b, app, node);
    if r.Ok? {
      AddExistLists(b, app, node, node.acqAddr);
      if !r.value {
        AddCheckedKeeps(b', app, node);
      }
    }
  }

  lemma AddInitKeeps(b: Book, app: App, node: Node, a: Addr)
    requires Consistent(b) && AddInit(b, app, node).1.None?
    ensures Keeps(AddInit(b, app, node).0.lists, app, a) <==> Keeps(b.lists, app, a) || a == node.acqAddr
  {
    var (b', r) := AddExist(b, app, node);
    AddExistLists(b, app, node, a);
    AddExistKeeps(b, app, node);
    HasAppended(ListOf(b'.lists, app), [node], a);
    assert [node][0] == node;
  }

  lemma HoldsMore(b: Book, entries: seq<Entry>, e: Entry)
    requires Holds(b, entries) && AddInit(b, e.app, e.node).1.None?
    ensures Holds(AddInit(b, e.app, e.node).0, entries + [e])
  {
    AddInitIs(b, e.app, e.node);
    var b' := AddInit(b, e.app, e.node).0;
    forall a, p ensures Stores(entries + [e], a, p) <==> a in b'.index && b'.index[a] == p {
      StoresMore(entries, e, a, p);
    }
    forall app, a ensures Keeps(b'.lists, app, a) <==> Assigns(entries + [e], app, a) {
      AssignsMore(entries, e, app, a);
      AddInitKeeps(b, e.app, e.node, a);
      assert app != e.app ==> ListOf(b'.lists, app) == ListOf(b.lists, app);
    }
  }

  lemma ConflictMore(b: Book, entries: seq<Entry>, e: Entry)
    requires Holds(b, entries)
    ensures Conflict(entries + [e]) <==> e.node.acqAddr in b.index && b.index[e.node.acqAddr] != e.node.proType
  {
    var all, a := entries + [e], e.node.acqAddr;
    assert all[|entries|] == e;
    if a in b.index && b.index[a] != e.node.proType {
      assert Stores(entries, a, b.index[a]);
      var i :| 0 <= i < |entries| && entries[i].node == Node(a, b.index[a]);
      assert all[i] == entries[i];
    } else if Conflict(all) {
      forall i | 0 <= i < |all|
        ensures all[i].node == e.node || Stores(entries, all[i].node.acqAddr, all[i].node.proType) {
        assert i < |entries| ==> all[i] == entries[i];
      }
    }
  }

  /** Loading succeeds exactly when no address has two protocols, and then the archive holds
      exactly what was stored. */
  lemma {:induction false} LoadIs(entries: seq<Entry>)
    ensures Load(EMPTY, entries).1.None? <==> !Conflict(entries)
    ensures Load(EMPTY, entries).1.None? ==> Holds(Load(EMPTY, entries).0, entries)
  {
    if entries != [] {
      var init, last := entries[..|entries| - 1], entries[|entries| - 1];
      LoadIs(init);
      assert entries == init + [last];
      if Conflict(init) {
        var i, j :| 0 <= i < |init| && 0 <= j < |init|
          && init[i].node.acqAddr == init[j].node.acqAddr && init[i].node.proType != init[j].node.proType;
        assert entries[i] == init[i] && entries[j] == init[j];
      } else {
        var b := Load(EMPTY, init).0;
        AddInitIs(b, last.app, last.node);
        ConflictMore(b, init, last);
        if !Conflict(entries) {
          HoldsMore(b, init, last);
        }
      }
    }
  }

  // ---- what is sent ----

  /** The nodes without repetitions, in the order of their first appearance. */
  function Dedup(nodes: seq<Node>): (list: seq<Node>)
    ensures forall n :: n in list <==> n in nodes
    ensures forall i, j :: 0 <= i < j < |list| ==> list[i] != list[j]
  {
    if nodes == [] then []
    else
      var list, last := Dedup(nodes[..|nodes| - 1]), nodes[|nodes| - 1];
      assert nodes == nodes[..|nodes| - 1] + [last];
      if last in list then list else list + [last]
  }

  /** The chunks in order; nodes without a wire form make the program panic. */
  function Send(device: Device, chunks: seq<seq<Node>>, replies: seq<Reply>): (Device, Outcome)
    requires |chunks| == |replies|
    decreases chunks
  {
    if chunks == [] then (device, Done)
    else if !AllSendable(chunks[0]) then (device, Crash)
    else
      match replies[0]
      case Confirm => Send(Stored(device, chunks[0]), chunks[1..], replies[1..])
      case Deny => (device, Denied)
      case Silence(after) =>
        var wires := WiresOf(Addrs(chunks[0]));
        var touched := map x | x in after && x in wires :: after[x];
        ((device - wires) + touched, TimedOut)
  }

  function Nodes(entries: seq<Entry>): seq<Node> {
    seq(|entries|, i requires 0 <= i < |entries| => entries[i].node)
  }

  /** What a confirmed start sends is stored, up to the first chunk that cannot be sent. */
  lemma {:induction false} SendStores(device: Device, chunks: seq<seq<Node>>, replies: seq<Reply>)
    requires |chunks| == |replies| && AllConfirm(replies)
    ensures var (device', r) := Send(device, chunks, replies);
            if AllSendable(Joined(chunks)) then r.Done? && device' == Stored(device, Joined(chunks)) else r.Crash?
    decreases chunks
  {
    hide Sendable;
    if chunks != [] {
      var first, rest := chunks[0], Joined(chunks[1..]);
      SendableBoth(first, rest);
      if AllSendable(first) {
        SendStores(Stored(device, first), chunks[1..], replies[1..]);
        if AllSendable(rest) {
          StoredBoth(device, first, rest);
        }
      }
    }
  }

  lemma SendableBoth(nodes: seq<Node>, more: seq<Node>)
    ensures AllSendable(nodes + more) <==> AllSendable(nodes) && AllSendable(more)
  {
    hide Sendable;
    assert forall i :: 0 <= i < |nodes| ==> (nodes + more)[i] == nodes[i];
    assert forall i :: 0 <= i < |more| ==> (nodes + more)[|nodes| + i] == more[i];
  }

  lemma DedupDistinct(entries: seq<Entry>, given: seq<Node>)
    requires !Conflict(entries) && multiset(given) == multiset(Nodes(entries))
    ensures Distinct(Dedup(given))
  {
    var list := Dedup(given);
    forall i, j | 0 <= i < j < |list| ensures list[i].acqAddr != list[j].acqAddr {
      EntryOf(entries, given, list[i]);
      EntryOf(entries, given, list[j]);
    }
  }

  lemma EntryOf(entries: seq<Entry>, given: seq<Node>, n: Node)
    requires multiset(given) == multiset(Nodes(entries))
    ensures n in given <==> Stores(entries, n.acqAddr, n.proType)
  {
    assert n in given <==> n in multiset(given);
    assert n in Nodes(entries) <==> n in multiset(Nodes(entries));
    if Stores(entries, n.acqAddr, n.proType) {
      var i :| 0 <= i < |entries| && entries[i].node == Node(n.acqAddr, n.proType);
      assert Nodes(entries)[i] == n;
    }
  }

  lemma SameAt(entries: seq<Entry>, given: seq<Node>, b: Book, a: Addr)
    requires Holds(b, entries) && multiset(given) == multiset(Nodes(entries)) && Distinct(Dedup(given))
    ensures var index := Entered(map[], Dedup(given));
            (a in b.index <==> a in index) && (a in index ==> b.index[a] == index[a])
  {
    var list := Dedup(given);
    EnteredAt(map[], list, a);
    if a in Addrs(list) {
      EntryOf(entries, given, Node(a, Entered(map[], list)[a]));
    } else if a in b.index {
      EntryOf(entries, given, Node(a, b.index[a]));
      assert false;
    }
  }

  /** In whatever order the applications come, the nodes sent are those the memory indexes. */
  lemma LoadedIndex(entries: seq<Entry>, given: seq<Node>)
    requires !Conflict(entries) && multiset(given) == multiset(Nodes(entries))
    ensures Load(EMPTY, entries).1.None? && Consistent(Load(EMPTY, entries).0)
    ensures Entered(map[], Dedup(given)) == Load(EMPTY, entries).0.index
  {
    hide Consistent;
    LoadIs(entries);
    DedupDistinct(entries, given);
    var b, index := Load(EMPTY, entries).0, Entered(map[], Dedup(given));
    forall a ensures a in b.index <==> a in index
      ensures a in index ==> b.index[a] == index[a] {
      SameAt(entries, given, b, a);
    }
  }

  // ---- memory and module after the start ----

  /** Two stored texts of one address have protocols of different numbers. */
  ghost predicate WireConflict(entries: seq<Entry>) {
    Differs(map[], Nodes(entries))
  }

  lemma DedupSendable(entries: seq<Entry>, given: seq<Node>)
    requires multiset(given) == multiset(Nodes(entries))
    ensures AllSendable(Dedup(given)) <==> AllSendable(Nodes(entries))
    ensures Differs(map[], Dedup(given)) <==> WireConflict(entries)
  {
    hide Wire, Protocol8, Nodes;
    var list, nodes := Dedup(given), Nodes(entries);
    forall n ensures n in list <==> n in nodes {
      assert n in given <==> n in multiset(given);
      assert n in nodes <==> n in multiset(nodes);
    }
    SameNodes(list, nodes);
    SameNodes(nodes, list);
  }

  lemma SameNodes(nodes: seq<Node>, nodes': seq<Node>)
    requires forall n :: n in nodes' ==> n in nodes
    ensures AllSendable(nodes) ==> AllSendable(nodes')
    ensures Differs(map[], nodes') ==> Differs(map[], nodes)
  {
    hide Wire, Protocol8;
    if AllSendable(nodes) {
      forall i | 0 <= i < |nodes'| ensures Sendable(nodes'[i]) {
        assert nodes'[i] in nodes';
        var j :| 0 <= j < |nodes| && nodes[j] == nodes'[i];
      }
    }
    if Differs(map[], nodes') {
      var i, a, p :| 0 <= i < |nodes'| && Says(map[], nodes', a, p)
        && Wire(a) == Wire(nodes'[i].acqAddr) && Protocol8(p) != Protocol8(nodes'[i].proType);
      assert nodes'[i] in nodes';
      var j :| 0 <= j < |nodes| && nodes[j] == nodes'[i];
      assert Says(map[], nodes, a, p);
    }
  }

  /** A load into a cleared module whose chunks were all confirmed panics exactly when a stored
      node has no wire form. Otherwise memory and module agree exactly when no two stored
      texts of one address differ in protocol, in whatever order the applications came; and
      no text was sent twice. */
  lemma {:induction false} LoadAgrees(entries: seq<Entry>, given: seq<Node>, replies: seq<Reply>)
    requires !Conflict(entries) && multiset(given) == multiset(Nodes(entries))
    requires |replies| == |Chunks(Dedup(given), CHUNK)| && AllConfirm(replies)
    ensures var (b, error) := Load(EMPTY, entries);
            var (device, r) := Send(map[], Chunks(Dedup(given), CHUNK), replies);
            && error.None? && (r.Crash? <==> !AllSendable(Nodes(entries))) && (r.Done? <==> !r.Crash?)
            && (r.Done? ==> (Good(World(b, device, {})) <==> !WireConflict(entries)))
    ensures Distinct(Joined(Chunks(Dedup(given), CHUNK)))
  {
    hide Load, Dedup, Stored, Entered, Chunks, Joined, Send, Nodes, Conflict, AllSendable, Good, Consistent, Differs,
        WireConflict;
    LoadedIndex(entries, given);
    DedupDistinct(entries, given);
    DedupSendable(entries, given);
    ChunksJoin(Dedup(given), CHUNK);
    SendStores(map[], Chunks(Dedup(given), CHUNK), replies);
    if AllSendable(Dedup(given)) {
      LoadedWorld(Load(EMPTY, entries).0, Dedup(given));
    }
  }

  lemma LoadedWorld(b: Book, list: seq<Node>)
    requires Consistent(b) && AllSendable(list) && Distinct(list) && b.index == Entered(map[], list)
    ensures Good(World(b, Stored(map[], list), {})) <==> !Differs(map[], list)
  {
    hide Consistent, Stored, Entered, Agree, AllSendable, Differs, AddAll, Distinct;
    StartIsGood();
    NothingIndexed();
    AddAgrees(START, "", list);
    AddAllAre(EMPTY, "", list);
    EnteredEncodable(map[], list);
    SameIndexAgrees(AfterAdd(START, "", list), World(b, Stored(map[], list), {}));
  }

  lemma NothingIndexed()
    ensures START.book.index == map[] && Encodable(map[])
  {
  }

  /** From the load on, whatever the applications add and delete and the module answers, the
      module holds exactly what they list, if each address is in use under one text. */
  lemma {:induction false} ModuleHoldsUnionSinceLoad(entries: seq<Entry>, given: seq<Node>, replies: seq<Reply>,
                                                     events: seq<Event>, texts: set<Addr>)
    requires !Conflict(entries) && multiset(given) == multiset(Nodes(entries)) && AllSendable(Nodes(entries))
    requires |replies| == |Chunks(Dedup(given), CHUNK)| && AllConfirm(replies)
    requires OneTextEach(texts) && Addrs(Nodes(entries)) <= texts && AllDrawn(events, texts)
    ensures var loaded := World(Load(EMPTY, entries).0, Send(map[], Chunks(Dedup(given), CHUNK), replies).0, {});
            RunsWell(loaded, events) && HoldsUnion(After(loaded, events))
  {
    hide Load, Send, Chunks, Dedup, Good, AllDrawn, OneTextEach, AllSendable, Nodes, Conflict, WireConflict,
        HoldsUnion, RunsWell;
    LoadAgrees(entries, given, replies);
    OneTextNoConflict(entries, texts);
    LoadIs(entries);
    LoadedTexts(entries, Load(EMPTY, entries).0, texts);
    ModuleHoldsUnion(World(Load(EMPTY, entries).0, Send(map[], Chunks(Dedup(given), CHUNK), replies).0, {}), events,
        texts);
  }

  lemma LoadedTexts(entries: seq<Entry>, b: Book, texts: set<Addr>)
    requires Holds(b, entries) && Addrs(Nodes(entries)) <= texts
    ensures b.index.Keys <= texts
  {
    forall a | a in b.index ensures a in texts {
      assert Stores(entries, a, b.index[a]);
      var i :| 0 <= i < |entries| && entries[i].node == Node(a, b.index[a]);
      assert Nodes(entries)[i].acqAddr == a;
    }
  }

  lemma OneTextNoConflict(entries: seq<Entry>, texts: set<Addr>)
    requires !Conflict(entries) && AllSendable(Nodes(entries)) && OneTextEach(texts) && Addrs(Nodes(entries)) <= texts
    ensures !WireConflict(entries)
  {
    hide Wire, Protocol8;
    var nodes := Nodes(entries);
    forall i, a, p | 0 <= i < |nodes| && Says(map[], nodes, a, p) && Wire(a) == Wire(nodes[i].acqAddr)
      ensures p == nodes[i].proType {
      var j :| 0 <= j < |nodes| && nodes[j] == Node(a, p);
      assert nodes[i].acqAddr in Addrs(nodes) && nodes[j].acqAddr in Addrs(nodes);
      assert entries[i].node == nodes[i] && entries[j].node == nodes[j];
    }
  }
}
