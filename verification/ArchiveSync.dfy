/** The module keeps its own archive. Only new and last-reference nodes are ever sent to it,
    and still it agrees with the archive in memory. */
module ArchiveSync {
  import opened Wrappers
  import opened Archive
  import opened WireForm
  import UserData

  /** A request goes to the module ten nodes at a time. */
  const CHUNK := 10

  /** The module knows a meter by the six bytes of its address, and a protocol by number. */
  type WireAddr = UserData.Address
  type Device = map<WireAddr, nat>

  /** What the module answered to a command: it did it, it did nothing, or nobody knows, and
      at the addresses of the command its archive may be `after`. */
  datatype Reply = Confirm | Deny | Silence(after: Device)

  /** How a command ended; `Crash` is a panic, with the archive's lock held. */
  datatype Outcome = Done | Rejected(error: NodeError) | Denied | TimedOut | Crash

  /** Memory and module; `unsure` are addresses of commands that were never answered. */
  datatype World = World(book: Book, device: Device, unsure: set<WireAddr>)

  // ---- which nodes of a chunk reach the module ----

  /** The nodes of a chunk that the module does not have yet; the others are shared, up to
      the first whose protocol is another one. */
  function NewNodes(b: Book, app: App, nodes: seq<Node>): (Book, Result<seq<Node>, NodeError>) {
    if nodes == [] then (b, Ok([]))
    else
      var (b', r) := NewNodes(b, app, nodes[..|nodes| - 1]);
      var last := nodes[|nodes| - 1];
      match r
      case Err(e) => (b', Err(e))
      case Ok(list) =>
        var (b'', exists') := AddExist(b', app, last);
        match exists'
        case Err(e) => (b'', Err(e))
        case Ok(known) => (b'', Ok(if known then list else list + [last]))
  }

  /** The nodes of a chunk that no other application keeps; the others are given up. Only
      the addresses count: a request to delete names no protocol. */
  function LastReferences(b: Book, app: App, nodes: seq<Node>): (Book, seq<Node>) {
    if nodes == [] then (b, [])
    else
      var (b', list) := LastReferences(b, app, nodes[..|nodes| - 1]);
      var last := nodes[|nodes| - 1];
      var (b'', sole) := ShouldRemove(b', app, last.acqAddr);
      (b'', if sole then list + [last] else list)
  }

  function AddAll(b: Book, app: App, nodes: seq<Node>): Book {
    if nodes == [] then b
    else AddChecked(AddAll(b, app, nodes[..|nodes| - 1]), app, nodes[|nodes| - 1])
  }

  /** How a removal ended: `Gone` is the panic on an address the list does not have. */
  datatype Removal = Removed | Gone | NotIndexed(addr: Addr)

  /** In order, up to the first that is not there. */
  function RemoveAll(b: Book, app: App, nodes: seq<Node>): (Book, Removal) {
    if nodes == [] then (b, Removed)
    else
      var (b', r) := RemoveAll(b, app, nodes[..|nodes| - 1]);
      var last := nodes[|nodes| - 1].acqAddr;
      if !r.Removed? then (b', r)
      else if !Keeps(b'.lists, app, last) then (b', Gone)
      else (RemoveChecked(b', app, last), if last in b'.index then Removed else NotIndexed(last))
  }

  // ---- one chunk ----

  function Addrs(nodes: seq<Node>): set<Addr> {
    set i | 0 <= i < |nodes| :: nodes[i].acqAddr
  }

  function WiresOf(addrs: set<Addr>): set<WireAddr> {
    set a | a in addrs && Wire(a).Some? :: Wire(a).value
  }

  /** Both texts of the node have their form on the line. */
  predicate Sendable(node: Node) {
    Wire(node.acqAddr).Some? && Protocol8(node.proType).Some?
  }

  predicate AllSendable(nodes: seq<Node>) {
    forall i :: 0 <= i < |nodes| ==> Sendable(nodes[i])
  }

  predicate AllWired(nodes: seq<Node>) {
    forall i :: 0 <= i < |nodes| ==> Wire(nodes[i].acqAddr).Some?
  }

  /** The index after these nodes entered it. */
  function Entered(index: map<Addr, Protocol>, nodes: seq<Node>): map<Addr, Protocol> {
    if nodes == [] then index
    else Entered(index, nodes[..|nodes| - 1])[nodes[|nodes| - 1].acqAddr := nodes[|nodes| - 1].proType]
  }

  /** The module's archive after it stored these nodes, which have their wire form. */
  function Stored(device: Device, nodes: seq<Node>): Device
    requires AllSendable(nodes)
  {
    if nodes == [] then device
    else
      var last := nodes[|nodes| - 1];
      Stored(device, nodes[..|nodes| - 1])[Wire(last.acqAddr).value := Protocol8(last.proType).value]
  }

  /** The module refused, or did not answer, a command about these addresses. */
  function NotDone(w: World, reply: Reply, wires: set<WireAddr>): (World, Outcome)
    requires !reply.Confirm?
  {
    match reply
    case Deny => (w, Denied)
    case Silence(after) =>
      var touched := map x | x in after && x in wires :: after[x];
      (w.(device := (w.device - wires) + touched, unsure := w.unsure + wires), TimedOut)
  }

  /** Nodes without a wire form make the program panic before anything is sent. */
  function AddChunk(w: World, app: App, nodes: seq<Node>, reply: Reply): (World, Outcome) {
    var (b, r) := NewNodes(w.book, app, nodes);
    var w' := w.(book := b);
    if r.Err? then (w', Rejected(r.error))
    else if r.value == [] then (w', Done)
    else if !AllSendable(r.value) then (w', Crash)
    else
      var wires := WiresOf(Addrs(r.value));
      if !reply.Confirm? then NotDone(w', reply, wires)
      else (World(AddAll(b, app, r.value), Stored(w.device, r.value), w.unsure - wires), Done)
  }

  function DelChunk(w: World, app: App, nodes: seq<Node>, reply: Reply): (World, Outcome) {
    var (b, list) := LastReferences(w.book, app, nodes);
    var w' := w.(book := b);
    if list == [] then (w', Done)
    else if !AllWired(list) then (w', Crash)
    else
      var wires := WiresOf(Addrs(list));
      if !reply.Confirm? then NotDone(w', reply, wires)
      else
        var (b', r) := RemoveAll(b, app, list);
        (World(b', w.device - wires, w.unsure - wires),
         match r case Removed => Done case Gone => Crash case NotIndexed(a) => Rejected(NotFound(a)))
  }

  /** The nodes whose address is not to be skipped. */
  function Pick(skip: set<Addr>, nodes: seq<Node>): (list: seq<Node>)
    ensures forall i :: 0 <= i < |list| ==> list[i] in nodes && list[i].acqAddr !in skip
    ensures forall i :: 0 <= i < |nodes| && nodes[i].acqAddr !in skip ==> nodes[i] in list
  {
    if nodes == [] then []
    else
      var list, last := Pick(skip, nodes[..|nodes| - 1]), nodes[|nodes| - 1];
      if last.acqAddr in skip then list else list + [last]
  }

  /** Two nodes with one address, which is not to be skipped. */
  predicate Twice(skip: set<Addr>, nodes: seq<Node>) {
    exists i, j :: 0 <= i < j < |nodes| && nodes[i].acqAddr == nodes[j].acqAddr && nodes[i].acqAddr !in skip
  }

  lemma AddrsOfLast(init: seq<Node>, last: Node)
    ensures Addrs(init + [last]) == Addrs(init) + {last.acqAddr}
  {
    forall a | a in Addrs(init) + {last.acqAddr} ensures a in Addrs(init + [last]) {
      if a in Addrs(init) {
        var i :| 0 <= i < |init| && init[i].acqAddr == a;
        assert (init + [last])[i].acqAddr == a;
      } else {
        assert (init + [last])[|init|].acqAddr == a;
      }
    }
  }

  lemma DistinctWithLast(init: seq<Node>, last: Node)
    ensures Distinct(init + [last]) <==> Distinct(init) && last.acqAddr !in Addrs(init)
  {
    var nodes := init + [last];
    if Distinct(nodes) {
      assert forall i :: 0 <= i < |init| ==> nodes[i] == init[i];
      assert nodes[|init|] == last;
    }
  }

  lemma PickedAddrs(skip: set<Addr>, nodes: seq<Node>, a: Addr)
    ensures a in Addrs(Pick(skip, nodes)) <==> a in Addrs(nodes) && a !in skip
  {
    var list := Pick(skip, nodes);
    if a in Addrs(list) {
      var i :| 0 <= i < |list| && list[i].acqAddr == a;
      var j :| 0 <= j < |nodes| && nodes[j] == list[i];
    }
    if a in Addrs(nodes) && a !in skip {
      var j :| 0 <= j < |nodes| && nodes[j].acqAddr == a;
      var i :| 0 <= i < |list| && list[i] == nodes[j];
    }
  }

  lemma {:induction false} PickDistinct(skip: set<Addr>, nodes: seq<Node>)
    ensures Distinct(Pick(skip, nodes)) <==> !Twice(skip, nodes)
  {
    if nodes != [] {
      var init, last := nodes[..|nodes| - 1], nodes[|nodes| - 1];
      PickDistinct(skip, init);
      assert nodes == init + [last];
      DistinctWithLast(Pick(skip, init), last);
      TwiceWithLast(skip, init, last);
      PickedAddrs(skip, init, last.acqAddr);
    }
  }

  lemma NotTwice(skip: set<Addr>, nodes: seq<Node>)
    requires Distinct(nodes)
    ensures !Twice(skip, nodes)
  {
  }

  lemma TwiceWithLast(skip: set<Addr>, init: seq<Node>, last: Node)
    ensures Twice(skip, init + [last]) <==>
            Twice(skip, init) || (last.acqAddr !in skip && last.acqAddr in Addrs(init))
  {
    var nodes := init + [last];
    if Twice(skip, init) {
      var i, j :| 0 <= i < j < |init| && init[i].acqAddr == init[j].acqAddr && init[i].acqAddr !in skip;
      assert nodes[i].acqAddr == nodes[j].acqAddr;
    } else if last.acqAddr !in skip && last.acqAddr in Addrs(init) {
      var i :| 0 <= i < |init| && init[i].acqAddr == last.acqAddr;
      assert nodes[i].acqAddr == nodes[|init|].acqAddr;
    }
  }

  // ---- memory and module ----

  /** At one address the module has what every text of it in the index says, and nothing if
      there is none. */
  ghost predicate AgreeAt(w: World, x: WireAddr) {
    && (x in w.device ==> exists a :: a in w.book.index && Wire(a) == Some(x))
    && (forall a :: a in w.book.index && Wire(a) == Some(x) ==>
          x in w.device && Protocol8(w.book.index[a]) == Some(w.device[x]))
  }

  ghost predicate Agree(w: World) {
    forall x :: x !in w.unsure ==> AgreeAt(w, x)
  }

  /** Every text of the index has its wire form. */
  ghost predicate Encodable(index: map<Addr, Protocol>) {
    forall a :: a in index ==> Wire(a).Some? && Protocol8(index[a]).Some?
  }

  ghost predicate Kept(b: Book) {
    Consistent(b) && Encodable(b.index)
  }

  ghost predicate Good(w: World) {
    Kept(w.book) && Agree(w)
  }

  // ---- adding ----

  /** A node of the chunk that the archive has with another protocol. */
  predicate Clashes(index: map<Addr, Protocol>, nodes: seq<Node>) {
    exists i :: 0 <= i < |nodes| && nodes[i].acqAddr in index && index[nodes[i].acqAddr] != nodes[i].proType
  }

  /** A chunk is refused exactly when it clashes; else what is sent are its nodes that the
      index does not have, in order, and nothing but shared nodes entered the archive. */
  lemma {:induction false} NewNodesAre(b: Book, app: App, nodes: seq<Node>)
    requires Consistent(b)
    ensures var (b', r) := NewNodes(b, app, nodes);
            && Consistent(b') && b'.index == b.index
            && (r.Err? <==> Clashes(b.index, nodes))
            && (r.Ok? ==> r.value == Pick(b.index.Keys, nodes))
  {
    if nodes != [] {
      var init, last := nodes[..|nodes| - 1], nodes[|nodes| - 1];
      NewNodesAre(b, app, init);
      var (b', r) := NewNodes(b, app, init);
      assert nodes == init + [last];
      if r.Ok? {
        AddExistKeeps(b', app, last);
        NoClashYet(b.index, init, last);
      } else {
        var i :| 0 <= i < |init| && init[i].acqAddr in b.index && b.index[init[i].acqAddr] != init[i].proType;
        assert nodes[i] == init[i];
      }
    }
  }

  lemma NoClashYet(index: map<Addr, Protocol>, init: seq<Node>, last: Node)
    requires !Clashes(index, init)
    ensures Clashes(index, init + [last]) <==> last.acqAddr in index && index[last.acqAddr] != last.proType
  {
    assert (init + [last])[|init|] == last;
  }

  /** What confirmed nodes do to the archive: the app lists them, the index has them. */
  lemma {:induction false} AddAllAre(b: Book, app: App, nodes: seq<Node>)
    ensures AddAll(b, app, nodes).index == Entered(b.index, nodes)
    ensures nodes != [] ==> AddAll(b, app, nodes).lists == b.lists[app := ListOf(b.lists, app) + nodes]
  {
    if nodes != [] {
      var init, last := nodes[..|nodes| - 1], nodes[|nodes| - 1];
      AddAllAre(b, app, init);
      assert nodes == init + [last];
      assert ListOf(b.lists, app) + nodes == ListOf(b.lists, app) + init + [last];
    }
  }

  lemma {:induction false} EnteredAt(index: map<Addr, Protocol>, nodes: seq<Node>, a: Addr)
    ensures a in Addrs(nodes) ==>
              a in Entered(index, nodes) && Node(a, Entered(index, nodes)[a]) in nodes
    ensures a !in Addrs(nodes) ==>
              (a in Entered(index, nodes) <==> a in index) && (a in index ==> Entered(index, nodes)[a] == index[a])
  {
    if nodes != [] {
      var init, last := nodes[..|nodes| - 1], nodes[|nodes| - 1];
      EnteredAt(index, init, a);
      assert nodes == init + [last];
      AddrsOfLast(init, last);
    }
  }

  lemma {:induction false} StoredAt(device: Device, nodes: seq<Node>, x: WireAddr)
    requires AllSendable(nodes)
    ensures x in WiresOf(Addrs(nodes)) ==>
              x in Stored(device, nodes)
              && exists i :: 0 <= i < |nodes| && Wire(nodes[i].acqAddr) == Some(x)
                   && Protocol8(nodes[i].proType) == Some(Stored(device, nodes)[x])
    ensures x !in WiresOf(Addrs(nodes)) ==>
              (x in Stored(device, nodes) <==> x in device) && (x in device ==> Stored(device, nodes)[x] == device[x])
  {
    hide Wire, Protocol8;
    if nodes != [] {
      var init, last := nodes[..|nodes| - 1], nodes[|nodes| - 1];
      StoredAt(device, init, x);
      assert nodes == init + [last];
      AddrsOfLast(init, last);
      assert x in WiresOf(Addrs(nodes)) <==> x in WiresOf(Addrs(init)) || Wire(last.acqAddr) == Some(x);
      if Wire(last.acqAddr) == Some(x) {
        assert nodes[|init|] == last;
      } else if x in WiresOf(Addrs(init)) {
        var i :| 0 <= i < |init| && Wire(init[i].acqAddr) == Some(x)
          && Protocol8(init[i].proType) == Some(Stored(device, init)[x]);
        assert nodes[i] == init[i];
      }
    }
  }

  lemma {:induction false} AddAllKeeps(b: Book, app: App, nodes: seq<Node>)
    requires Consistent(b) && Distinct(nodes) && Addrs(nodes) !! b.index.Keys
    ensures Consistent(AddAll(b, app, nodes))
  {
    if nodes != [] {
      var init, last := nodes[..|nodes| - 1], nodes[|nodes| - 1];
      assert Addrs(init) <= Addrs(nodes) && last.acqAddr in Addrs(nodes);
      AddAllKeeps(b, app, init);
      AddAllAre(b, app, init);
      EnteredAt(b.index, init, last.acqAddr);
      assert last.acqAddr !in Addrs(init);
      AddCheckedKeeps(AddAll(b, app, init), app, last);
    }
  }

  /** Confirmed nodes keep the archive consistent exactly when no address comes twice. */
  lemma AddAllConsistent(b: Book, app: App, nodes: seq<Node>)
    requires Consistent(b) && Addrs(nodes) !! b.index.Keys
    ensures Consistent(AddAll(b, app, nodes)) <==> Distinct(nodes)
  {
    if Distinct(nodes) {
      AddAllKeeps(b, app, nodes);
    } else {
      AddAllAre(b, app, nodes);
      NotDistinctAfter(ListOf(b.lists, app), nodes);
      assert app in AddAll(b, app, nodes).lists;
    }
  }

  lemma NotDistinctAfter(list: seq<Node>, nodes: seq<Node>)
    requires !Distinct(nodes)
    ensures !Distinct(list + nodes)
  {
    var i, j :| 0 <= i < j < |nodes| && nodes[i].acqAddr == nodes[j].acqAddr;
    assert (list + nodes)[|list| + i].acqAddr == (list + nodes)[|list| + j].acqAddr;
  }

  lemma EnteredEncodable(index: map<Addr, Protocol>, nodes: seq<Node>)
    requires Encodable(index) && AllSendable(nodes)
    ensures Encodable(Entered(index, nodes))
  {
    hide Wire, Protocol8;
    forall a | a in Entered(index, nodes) ensures Wire(a).Some? && Protocol8(Entered(index, nodes)[a]).Some? {
      EnteredAt(index, nodes, a);
    }
  }

  lemma NotDoneAgrees(w: World, reply: Reply, wires: set<WireAddr>)
    requires Agree(w) && !reply.Confirm?
    ensures var (w', r) := NotDone(w, reply, wires);
            Agree(w') && w'.book == w.book && (r.Denied? || r.TimedOut?)
  {
    hide Wire, Protocol8;
    forall x | x !in NotDone(w, reply, wires).0.unsure ensures AgreeAt(NotDone(w, reply, wires).0, x) {
      assert AgreeAt(w, x);
    }
  }

  /** Two texts of one address, a new node's and another's, with different protocols. */
  ghost predicate Differs(index: map<Addr, Protocol>, nodes: seq<Node>) {
    exists i, a, p :: 0 <= i < |nodes| && Says(index, nodes, a, p)
      && Wire(a) == Wire(nodes[i].acqAddr) && Protocol8(p) != Protocol8(nodes[i].proType)
  }

  /** The index says so, or one of the nodes does. */
  predicate Says(index: map<Addr, Protocol>, nodes: seq<Node>, a: Addr, p: Protocol) {
    (a in index && index[a] == p) || Node(a, p) in nodes
  }

  /** With new addresses that all differ, the entered index says what the two said. */
  lemma EnteredSays(index: map<Addr, Protocol>, nodes: seq<Node>, a: Addr, p: Protocol)
    requires Distinct(nodes) && Addrs(nodes) !! index.Keys
    ensures Says(index, nodes, a, p) <==> a in Entered(index, nodes) && Entered(index, nodes)[a] == p
  {
    EnteredAt(index, nodes, a);
    if Node(a, p) in nodes {
      var j :| 0 <= j < |nodes| && nodes[j] == Node(a, p);
      assert a in Addrs(nodes);
      SameNode(nodes, Node(a, p), Node(a, Entered(index, nodes)[a]));
    }
  }

  lemma SameNode(nodes: seq<Node>, n: Node, n': Node)
    requires Distinct(nodes) && n in nodes && n' in nodes && n.acqAddr == n'.acqAddr
    ensures n == n'
  {
  }

  function AfterAdd(w: World, app: App, nodes: seq<Node>): World
    requires AllSendable(nodes)
  {
    World(AddAll(w.book, app, nodes), Stored(w.device, nodes), w.unsure - WiresOf(Addrs(nodes)))
  }

  /** Confirmed nodes keep memory and module together exactly when no text of one address
      says another protocol. */
  lemma AddAgrees(w: World, app: App, nodes: seq<Node>)
    requires Good(w) && AllSendable(nodes) && Distinct(nodes) && Addrs(nodes) !! w.book.index.Keys
    ensures Agree(AfterAdd(w, app, nodes)) <==> !Differs(w.book.index, nodes)
  {
    hide Wire, Protocol8, Stored, Entered, AddAll, Kept, Distinct;
    var w' := AfterAdd(w, app, nodes);
    AddAllAre(w.book, app, nodes);
    if Differs(w.book.index, nodes) {
      DiffersDisagrees(w, app, nodes);
    } else {
      forall x | x !in w'.unsure ensures AgreeAt(w', x) {
        if x in WiresOf(Addrs(nodes)) {
          StoredAgreesAt(w, app, nodes, x);
        } else {
          KeptAgreesAt(w, app, nodes, x);
        }
      }
    }
  }

  lemma DiffersDisagrees(w: World, app: App, nodes: seq<Node>)
    requires AllSendable(nodes) && Distinct(nodes) && Addrs(nodes) !! w.book.index.Keys
    requires Differs(w.book.index, nodes)
    ensures !Agree(AfterAdd(w, app, nodes))
  {
    hide Wire, Protocol8, Stored, Entered, AddAll, Distinct;
    var w' := AfterAdd(w, app, nodes);
    AddAllAre(w.book, app, nodes);
    var i, a, p :| 0 <= i < |nodes| && Says(w.book.index, nodes, a, p)
      && Wire(a) == Wire(nodes[i].acqAddr) && Protocol8(p) != Protocol8(nodes[i].proType);
    var x := Wire(nodes[i].acqAddr).value;
    EnteredSays(w.book.index, nodes, a, p);
    EnteredSays(w.book.index, nodes, nodes[i].acqAddr, nodes[i].proType);
    assert nodes[i].acqAddr in Addrs(nodes) && x in WiresOf(Addrs(nodes));
    assert !AgreeAt(w', x);
  }

  lemma StoredAgreesAt(w: World, app: App, nodes: seq<Node>, x: WireAddr)
    requires AllSendable(nodes) && Distinct(nodes) && Addrs(nodes) !! w.book.index.Keys
    requires !Differs(w.book.index, nodes) && x in WiresOf(Addrs(nodes))
    ensures AgreeAt(AfterAdd(w, app, nodes), x)
  {
    hide Wire, Protocol8, Stored, Entered, AddAll, Distinct;
    var w' := AfterAdd(w, app, nodes);
    AddAllAre(w.book, app, nodes);
    StoredAt(w.device, nodes, x);
    var i :| 0 <= i < |nodes| && Wire(nodes[i].acqAddr) == Some(x)
      && Protocol8(nodes[i].proType) == Some(Stored(w.device, nodes)[x]);
    EnteredSays(w.book.index, nodes, nodes[i].acqAddr, nodes[i].proType);
    forall a | a in w'.book.index && Wire(a) == Some(x) ensures Protocol8(w'.book.index[a]) == Some(w'.device[x]) {
      EnteredSays(w.book.index, nodes, a, w'.book.index[a]);
    }
  }

  lemma KeptAgreesAt(w: World, app: App, nodes: seq<Node>, x: WireAddr)
    requires Agree(w) && AllSendable(nodes) && x !in WiresOf(Addrs(nodes)) && x !in w.unsure
    ensures AgreeAt(AfterAdd(w, app, nodes), x)
  {
    hide Wire, Protocol8, Stored, Entered, AddAll;
    var w' := AfterAdd(w, app, nodes);
    AddAllAre(w.book, app, nodes);
    StoredAt(w.device, nodes, x);
    assert AgreeAt(w, x);
    forall a | Wire(a) == Some(x)
      ensures a in w'.book.index <==> a in w.book.index
      ensures a in w.book.index ==> w'.book.index[a] == w.book.index[a] {
      EnteredAt(w.book.index, nodes, a);
    }
    if x in w.device {
      var a :| a in w.book.index && Wire(a) == Some(x);
      assert a in w'.book.index;
    }
  }

  /** The new nodes of a chunk that is not refused. */
  function Unknown(w: World, nodes: seq<Node>): seq<Node> {
    if Clashes(w.book.index, nodes) then [] else Pick(w.book.index.Keys, nodes)
  }

  /** One added chunk ends well, whatever the module answers, exactly when its new nodes have
      their wire form and, if they are confirmed, come once each and differ in protocol from
      no other text of their addresses: then memory stays consistent and agrees with the
      module, and nothing panics. */
  lemma AddChunkKeeps(w: World, app: App, nodes: seq<Node>, reply: Reply)
    requires Good(w)
    ensures var list := Unknown(w, nodes);
            var (w', r) := AddChunk(w, app, nodes, reply);
            && (Good(w') && !r.Crash? <==>
                AllSendable(list) && (reply.Confirm? ==> Distinct(list) && !Differs(w.book.index, list)))
            && (r.Rejected? <==> Clashes(w.book.index, nodes))
            && (r.Crash? <==> !AllSendable(list))
  {
    hide Stored, NotDone, Pick, Distinct, AllSendable, NewNodes, AddAll, Clashes;
    NewNodesAre(w.book, app, nodes);
    var (b, r) := NewNodes(w.book, app, nodes);
    var w' := w.(book := b);
    AgreeBook(w, b);
    NothingToSend(w.book.index);
    if r.Ok? && r.value != [] && AllSendable(r.value) {
      PickNew(w.book.index, nodes);
      if reply.Confirm? {
        AddAllConsistent(b, app, r.value);
        AddAllAre(b, app, r.value);
        EnteredEncodable(b.index, r.value);
        if Distinct(r.value) {
          AddAgrees(w', app, r.value);
        }
      } else {
        NotDoneAgrees(w', reply, WiresOf(Addrs(r.value)));
      }
    }
  }

  lemma NothingToSend(index: map<Addr, Protocol>)
    ensures AllSendable([]) && Distinct([]) && !Differs(index, [])
  {
  }

  lemma AgreeBook(w: World, b: Book)
    requires Agree(w) && b.index == w.book.index
    ensures Agree(w.(book := b))
  {
    forall x | x !in w.unsure ensures AgreeAt(w.(book := b), x) {
      assert AgreeAt(w, x);
    }
  }

  lemma PickNew(index: map<Addr, Protocol>, nodes: seq<Node>)
    ensures Addrs(Pick(index.Keys, nodes)) !! index.Keys
  {
  }

  // ---- deleting ----

  ghost predicate OnlyApp(lists: Lists, lists': Lists, app: App) {
    lists'.Keys == lists.Keys && forall other :: other in lists && other != app ==> lists'[other] == lists[other]
  }

  predicate Sole(lists: Lists, app: App, addr: Addr) {
    Keeps(lists, app, addr) && !Shared(lists, app, addr)
  }

  function NotSole(lists: Lists, app: App, nodes: seq<Node>): set<Addr> {
    set i | 0 <= i < |nodes| && !Sole(lists, app, nodes[i].acqAddr) :: nodes[i].acqAddr
  }

  lemma SharedSame(lists: Lists, lists': Lists, app: App, addr: Addr)
    requires OnlyApp(lists, lists', app)
    ensures Shared(lists', app, addr) <==> Shared(lists, app, addr)
  {
  }

  lemma ShouldRemoveIs(b: Book, app: App, addr: Addr)
    requires Consistent(b)
    ensures var (b', r) := ShouldRemove(b, app, addr);
            && OnlyApp(b.lists, b'.lists, app)
            && (r <==> Sole(b.lists, app, addr))
            && forall a :: Keeps(b'.lists, app, a) <==>
                 Keeps(b.lists, app, a) && !(a == addr && Shared(b.lists, app, a))
  {
    if Keeps(b.lists, app, addr) && Shared(b.lists, app, addr) {
      forall a ensures Has(Dropped(b.lists[app], addr), a) <==> Has(b.lists[app], a) && a != addr {
        HasDropped(b.lists[app], addr, a);
      }
    }
  }

  /** What is sent are the nodes the app is alone with, in order; the shared ones left its
      list, and nothing else changed. */
  lemma {:induction false} LastReferencesAre(b: Book, app: App, nodes: seq<Node>, skip: set<Addr>)
    requires Consistent(b)
    requires forall i :: 0 <= i < |nodes| ==> (nodes[i].acqAddr in skip <==> !Sole(b.lists, app, nodes[i].acqAddr))
    ensures var (b', list) := LastReferences(b, app, nodes);
            && Consistent(b') && b'.index == b.index && OnlyApp(b.lists, b'.lists, app)
            && list == Pick(skip, nodes)
            && forall a :: Keeps(b'.lists, app, a) <==>
                 Keeps(b.lists, app, a) && !(a in Addrs(nodes) && Shared(b.lists, app, a))
  {
    hide ShouldRemove, Consistent, Keeps, Shared;
    if nodes != [] {
      var init, last := nodes[..|nodes| - 1], nodes[|nodes| - 1];
      LastReferencesAre(b, app, init, skip);
      assert nodes == init + [last];
      AddrsOfLast(init, last);
      var b' := LastReferences(b, app, init).0;
      ShouldRemoveKeeps(b', app, last.acqAddr);
      ShouldRemoveIs(b', app, last.acqAddr);
      forall a ensures Shared(b'.lists, app, a) <==> Shared(b.lists, app, a) {
        SharedSame(b.lists, b'.lists, app, a);
      }
    }
  }

  /** `b'` is `b` after the app gave up these addresses and the index lost them. */
  ghost predicate Without(b: Book, b': Book, app: App, addrs: set<Addr>) {
    && Consistent(b') && b'.index == b.index - addrs && OnlyApp(b.lists, b'.lists, app)
    && forall a :: Keeps(b'.lists, app, a) <==> Keeps(b.lists, app, a) && a !in addrs
  }

  /** Removing what the app is alone with works out exactly when no address comes twice;
      otherwise the program panics on the second. */
  lemma {:induction false} RemoveAllAre(b: Book, app: App, nodes: seq<Node>)
    requires Consistent(b) && forall a :: a in Addrs(nodes) ==> Sole(b.lists, app, a)
    ensures var (b', r) := RemoveAll(b, app, nodes);
            && Consistent(b') && r == (if Distinct(nodes) then Removed else Gone)
            && (r.Removed? ==> Without(b, b', app, Addrs(nodes)))
  {
    if nodes != [] {
      var init, last := nodes[..|nodes| - 1], nodes[|nodes| - 1];
      assert nodes == init + [last];
      AddrsOfLast(init, last);
      RemoveAllAre(b, app, init);
      DistinctWithLast(init, last);
      var b' := RemoveAll(b, app, init).0;
      if Distinct(init) && last.acqAddr !in Addrs(init) {
        RemoveOneMore(b, b', app, Addrs(init), last.acqAddr);
        KeptIsIndexed(b', app, last.acqAddr);
      }
    }
  }

  lemma KeptIsIndexed(b: Book, app: App, addr: Addr)
    requires Consistent(b) && Keeps(b.lists, app, addr)
    ensures addr in b.index
  {
    var i :| 0 <= i < |b.lists[app]| && b.lists[app][i].acqAddr == addr;
    assert Indexed(b.lists[app], b.index);
  }

  lemma RemoveOneMore(b: Book, b': Book, app: App, addrs: set<Addr>, addr: Addr)
    requires Without(b, b', app, addrs) && Sole(b.lists, app, addr) && addr !in addrs
    ensures Keeps(b'.lists, app, addr) && Without(b, RemoveChecked(b', app, addr), app, addrs + {addr})
  {
    SharedSame(b.lists, b'.lists, app, addr);
    RemoveOne(b', app, addr);
  }

  lemma RemoveOne(b: Book, app: App, addr: Addr)
    requires Consistent(b) && Sole(b.lists, app, addr)
    ensures Without(b, RemoveChecked(b, app, addr), app, {addr})
  {
    RemoveCheckedKeeps(b, app, addr);
    forall a ensures Has(Dropped(b.lists[app], addr), a) <==> Has(b.lists[app], a) && a != addr {
      HasDropped(b.lists[app], addr, a);
    }
  }

  lemma NotSoleIs(lists: Lists, app: App, nodes: seq<Node>)
    ensures forall i :: 0 <= i < |nodes| ==>
              (nodes[i].acqAddr in NotSole(lists, app, nodes) <==> !Sole(lists, app, nodes[i].acqAddr))
  {
  }

  /** The nodes of a chunk that the application is the last to have. */
  function SoleNodes(lists: Lists, app: App, nodes: seq<Node>): seq<Node> {
    Pick(NotSole(lists, app, nodes), nodes)
  }

  /** A text that stays in the index, for an address that is taken off the module. */
  ghost predicate Strands(index: map<Addr, Protocol>, addrs: set<Addr>) {
    exists a :: a in index && a !in addrs && Wire(a).Some? && Wire(a).value in WiresOf(addrs)
  }

  /** Taking addresses off index and module keeps the two together exactly when no other text
      of one of them stays. */
  lemma WithoutAgrees(w: World, b: Book, addrs: set<Addr>)
    requires Agree(w) && b.index == w.book.index - addrs
    ensures Agree(World(b, w.device - WiresOf(addrs), w.unsure - WiresOf(addrs))) <==> !Strands(w.book.index, addrs)
  {
    hide Wire, Protocol8;
    var wires := WiresOf(addrs);
    var w' := World(b, w.device - wires, w.unsure - wires);
    if Strands(w.book.index, addrs) {
      var a :| a in w.book.index && a !in addrs && Wire(a).Some? && Wire(a).value in wires;
      assert a in w'.book.index && !AgreeAt(w', Wire(a).value);
    } else {
      forall x | x !in w'.unsure ensures AgreeAt(w', x) {
        if x !in wires {
          assert AgreeAt(w, x);
          if x in w'.device {
            var a :| a in w.book.index && Wire(a) == Some(x);
            assert a in w'.book.index;
          }
        }
      }
    }
  }

  lemma SoleIsWired(b: Book, app: App, list: seq<Node>)
    requires Kept(b) && forall a :: a in Addrs(list) ==> Sole(b.lists, app, a)
    ensures AllWired(list) && Addrs(list) <= b.index.Keys
  {
    hide Wire, Protocol8, Consistent, Shared;
    forall i | 0 <= i < |list| ensures list[i].acqAddr in b.index {
      assert list[i].acqAddr in Addrs(list);
      KeptIsIndexed(b, app, list[i].acqAddr);
    }
  }

  /** One deleted chunk ends well, whatever the module answers, exactly unless it is confirmed
      and names one last reference twice, which panics, or takes an address off the module
      that another text in the index still names. */
  lemma DelChunkKeeps(w: World, app: App, nodes: seq<Node>, reply: Reply)
    requires Good(w)
    ensures var (w', r) := DelChunk(w, app, nodes, reply);
            var skip := NotSole(w.book.lists, app, nodes);
            && (r.Crash? <==> reply.Confirm? && Twice(skip, nodes)) && !r.Rejected?
            && (Good(w') && !r.Crash? <==>
                !(reply.Confirm? && (Twice(skip, nodes) || Strands(w.book.index, Addrs(Pick(skip, nodes))))))
  {
    hide Pick, Twice, LastReferences, RemoveAll, NotDone, Wire, Protocol8, Strands, AllWired, Consistent, Distinct;
    var skip := NotSole(w.book.lists, app, nodes);
    NotSoleIs(w.book.lists, app, nodes);
    PickedSole(w.book, app, nodes, skip);
    PickDistinct(skip, nodes);
    var (b, list) := LastReferences(w.book, app, nodes);
    var w' := w.(book := b);
    AgreeBook(w, b);
    SoleIsWired(b, app, list);
    if !reply.Confirm? {
      NotDoneAgrees(w', reply, WiresOf(Addrs(list)));
    } else if list == [] {
      NothingStrands(w.book.index);
    } else {
      RemoveAllAre(b, app, list);
      if Distinct(list) {
        WithoutAgrees(w', RemoveAll(b, app, list).0, Addrs(list));
        assert Encodable(RemoveAll(b, app, list).0.index);
      }
    }
  }

  lemma NothingStrands(index: map<Addr, Protocol>)
    ensures !Strands(index, Addrs([])) && Distinct([])
  {
  }

  /** A deleted chunk that is done takes exactly its addresses off the app's list, and off the
      index and the module exactly those that no other app had. */
  lemma DelChunkDone(w: World, app: App, nodes: seq<Node>)
    requires Kept(w.book) && Distinct(nodes)
    ensures var (w', r) := DelChunk(w, app, nodes, Confirm);
            var sole := Addrs(SoleNodes(w.book.lists, app, nodes));
            && r.Done? && Kept(w'.book) && OnlyApp(w.book.lists, w'.book.lists, app)
            && (forall a :: Keeps(w'.book.lists, app, a) <==> Keeps(w.book.lists, app, a) && a !in Addrs(nodes))
            && w'.book.index == w.book.index - sole
            && w'.device == w.device - WiresOf(sole) && w'.unsure == w.unsure - WiresOf(sole)
  {
    hide Pick, LastReferences, RemoveAll, Wire, Protocol8, AllWired, Consistent, Keeps, Sole, NotSole;
    var skip := NotSole(w.book.lists, app, nodes);
    NotSoleIs(w.book.lists, app, nodes);
    PickedSole(w.book, app, nodes, skip);
    PickDistinct(skip, nodes);
    var (b, list) := LastReferences(w.book, app, nodes);
    SoleIsWired(b, app, list);
    assert WiresOf({}) == {};
    if list != [] {
      RemoveAllAre(b, app, list);
    }
  }

  /** What is sent is what the app is still alone with; what is not sent it gave up. */
  lemma PickedSole(b: Book, app: App, nodes: seq<Node>, skip: set<Addr>)
    requires Consistent(b)
    requires forall i :: 0 <= i < |nodes| ==> (nodes[i].acqAddr in skip <==> !Sole(b.lists, app, nodes[i].acqAddr))
    ensures var (b', list) := LastReferences(b, app, nodes);
            && Consistent(b') && b'.index == b.index && OnlyApp(b.lists, b'.lists, app)
            && list == Pick(skip, nodes)
            && (forall a :: a in Addrs(list) ==> Sole(b'.lists, app, a))
            && (forall a :: Keeps(b'.lists, app, a) && a !in Addrs(list) <==>
                  Keeps(b.lists, app, a) && a !in Addrs(nodes))
  {
    LastReferencesAre(b, app, nodes, skip);
    var (b', list) := LastReferences(b, app, nodes);
    forall a ensures a in Addrs(list) <==> a in Addrs(nodes) && a !in skip {
      PickedAddrs(skip, nodes, a);
    }
    forall a ensures Sole(b'.lists, app, a) <==> Sole(b.lists, app, a) {
      SharedSame(b.lists, b'.lists, app, a);
    }
  }

}
