/** The archive in memory: lists of shared node objects, one list for each application, and
    a weak index over all of them. The number of references to an object decides whether an
    application is the last one that keeps it. */
module NodeConfig {
  import opened Wrappers
  import opened Archive
  import opened ArchiveSync
  import opened ArchiveRuns
  import opened ArchiveRequests
  import opened ArchiveLoad

  class NodeInfo {
    const acqAddr: Addr
    const proType: Protocol

    constructor (node: Node)
      ensures acqAddr == node.acqAddr && proType == node.proType
    {
      acqAddr := node.acqAddr;
      proType := node.proType;
    }

    function Value(): Node {
      Node(acqAddr, proType)
    }
  }

  type NodeData = map<App, seq<NodeInfo>>
  type GlobalData = map<Addr, NodeInfo>

  // ---- the objects as values ----

  function Values(list: seq<NodeInfo>): seq<Node> {
    seq(|list|, i requires 0 <= i < |list| => list[i].Value())
  }

  function ListsOf(data: NodeData): Lists {
    map app | app in data :: Values(data[app])
  }

  function IndexOf(global: GlobalData): map<Addr, Protocol> {
    map a | a in global :: global[a].proType
  }

  function BookOf(data: NodeData, global: GlobalData): Book {
    Book(ListsOf(data), IndexOf(global))
  }

  /** The places that hold a reference to an object. */
  function Holders(data: NodeData, node: NodeInfo): set<(App, int)> {
    set app, i | app in data && 0 <= i < |data[app]| && data[app][i] == node :: (app, i)
  }

  predicate OnceEach(list: seq<NodeInfo>) {
    forall i, j :: 0 <= i < j < |list| ==> list[i].acqAddr != list[j].acqAddr
  }

  /** Every entry of the list is the very object that the index has for its address. */
  predicate FromIndex(list: seq<NodeInfo>, global: GlobalData) {
    forall i :: 0 <= i < |list| ==> list[i].acqAddr in global && global[list[i].acqAddr] == list[i]
  }

  /** No address twice in a list; one object for one address in all of them; and the index
      has no key whose object is dead. */
  predicate Sound(data: NodeData, global: GlobalData) {
    && (forall app :: app in data ==> OnceEach(data[app]) && FromIndex(data[app], global))
    && (forall a :: a in global ==> global[a].acqAddr == a && Holders(data, global[a]) != {})
  }

  lemma HolderIs(data: NodeData, node: NodeInfo, app: App, i: int)
    ensures (app, i) in Holders(data, node) <==> app in data && 0 <= i < |data[app]| && data[app][i] == node
  {
  }

  lemma ListsUpdate(data: NodeData, app: App, list: seq<NodeInfo>)
    ensures ListsOf(data[app := list]) == ListsOf(data)[app := Values(list)]
  {
  }

  lemma ValuesPush(list: seq<NodeInfo>, node: NodeInfo)
    ensures Values(list + [node]) == Values(list) + [node.Value()]
  {
  }

  lemma ValuesDrop(list: seq<NodeInfo>, pos: nat)
    requires pos < |list|
    ensures Values(list[..pos] + list[pos + 1..]) == Values(list)[..pos] + Values(list)[pos + 1..]
  {
  }

  /** A sound archive is a consistent one: sharing an object is agreeing on its protocol. */
  lemma SoundIsConsistent(data: NodeData, global: GlobalData)
    requires Sound(data, global)
    ensures Consistent(BookOf(data, global))
  {
    var b := Book(ListsOf(data), IndexOf(global));
    forall app | app in b.lists ensures Distinct(b.lists[app]) && Indexed(b.lists[app], b.index) {
      assert OnceEach(data[app]) && FromIndex(data[app], global);
    }
    forall a | a in b.index ensures Listed(b.lists, a) {
      var holder :| holder in Holders(data, global[a]);
      HolderIs(data, global[a], holder.0, holder.1);
      assert b.lists[holder.0][holder.1].acqAddr == a;
    }
  }

  /** The reference count is one exactly when no other application has the address. */
  lemma CountOneIsLast(data: NodeData, global: GlobalData, app: App, pos: nat)
    requires Sound(data, global) && app in data && pos < |data[app]|
    ensures |Holders(data, data[app][pos])| == 1 <==> !Shared(ListsOf(data), app, data[app][pos].acqAddr)
  {
    var node := data[app][pos];
    var holders := Holders(data, node);
    HolderIs(data, node, app, pos);
    if Shared(ListsOf(data), app, node.acqAddr) {
      var other :| other in ListsOf(data) && other != app && Has(ListsOf(data)[other], node.acqAddr);
      var i :| 0 <= i < |data[other]| && Values(data[other])[i].acqAddr == node.acqAddr;
      assert FromIndex(data[app], global) && FromIndex(data[other], global);
      HolderIs(data, node, other, i);
      TwoAreNotOne(holders, (app, pos), (other, i));
    } else {
      forall holder | holder in holders ensures holder == (app, pos) {
        HolderIs(data, node, holder.0, holder.1);
        assert ListsOf(data)[holder.0][holder.1].acqAddr == node.acqAddr;
        assert Has(ListsOf(data)[holder.0], node.acqAddr);
        assert OnceEach(data[app]);
      }
      assert holders == {(app, pos)};
    }
  }

  lemma TwoAreNotOne<T>(s: set<T>, x: T, y: T)
    requires x in s && y in s && x != y
    ensures |s| != 1
  {
    assert |s - {x}| == |s| - 1;
    assert y in s - {x};
  }

  ghost predicate Alive(data: NodeData, node: NodeInfo) {
    exists app :: app in data && node in data[app]
  }

  lemma AliveIsHeld(data: NodeData, node: NodeInfo)
    ensures Alive(data, node) <==> Holders(data, node) != {}
  {
    if Alive(data, node) {
      var app :| app in data && node in data[app];
      var i :| 0 <= i < |data[app]| && data[app][i] == node;
      HolderIs(data, node, app, i);
    }
  }

  lemma AliveKeys(data: NodeData, global: GlobalData)
    requires Sound(data, global)
    ensures forall a :: a in global ==> Alive(data, global[a])
  {
    forall a | a in global ensures Alive(data, global[a]) {
      AliveIsHeld(data, global[a]);
    }
  }

  lemma SoundIf(data: NodeData, global: GlobalData)
    requires forall app :: app in data ==> OnceEach(data[app]) && FromIndex(data[app], global)
    requires forall a :: a in global ==> global[a].acqAddr == a && Alive(data, global[a])
    ensures Sound(data, global)
  {
    forall a | a in global ensures Holders(data, global[a]) != {} {
      AliveIsHeld(data, global[a]);
    }
  }

  function ListIn(data: NodeData, app: App): seq<NodeInfo> {
    if app in data then data[app] else []
  }

  /** An object with an address new to the list, known to the index or new to it too. */
  lemma PushSound(data: NodeData, global: GlobalData, app: App, node: NodeInfo)
    requires Sound(data, global) && !Has(Values(ListIn(data, app)), node.acqAddr)
    requires node.acqAddr in global ==> global[node.acqAddr] == node
    ensures Sound(data[app := ListIn(data, app) + [node]], global[node.acqAddr := node])
  {
    AliveKeys(data, global);
    var list := ListIn(data, app);
    var data', global' := data[app := list + [node]], global[node.acqAddr := node];
    forall i | 0 <= i < |list| ensures list[i].acqAddr != node.acqAddr {
      assert Values(list)[i].acqAddr == list[i].acqAddr;
    }
    assert OnceEach(list + [node]) && FromIndex(list + [node], global');
    forall other | other in data ensures FromIndex(data[other], global') {
    }
    forall a | a in global' ensures Alive(data', global'[a]) {
      if a == node.acqAddr {
        assert (list + [node])[|list|] == node;
        assert node in data'[app];
      } else {
        var other :| other in data && global[a] in data[other];
        assert global[a] in data'[other];
      }
    }
    SoundIf(data', global');
  }

  lemma EntrySound(data: NodeData, global: GlobalData, app: App)
    requires Sound(data, global)
    ensures Sound(data[app := ListIn(data, app)], global)
  {
    AliveKeys(data, global);
    var data' := data[app := ListIn(data, app)];
    forall a | a in global ensures Alive(data', global[a]) {
      var other :| other in data && global[a] in data[other];
      assert global[a] in data'[other];
    }
    SoundIf(data', global);
  }

  function WithoutAt(list: seq<NodeInfo>, pos: nat): seq<NodeInfo>
    requires pos < |list|
  {
    list[..pos] + list[pos + 1..]
  }

  lemma WithoutAtIs(list: seq<NodeInfo>, pos: nat, node: NodeInfo)
    requires pos < |list| && OnceEach(list)
    ensures OnceEach(WithoutAt(list, pos))
    ensures node in WithoutAt(list, pos) <==> node in list && node.acqAddr != list[pos].acqAddr
  {
    var list' := WithoutAt(list, pos);
    if node in list && node.acqAddr != list[pos].acqAddr {
      var i :| 0 <= i < |list| && list[i] == node;
      assert list'[if i < pos then i else i - 1] == node;
    }
  }

  /** One place gives an object up: the index forgets it exactly if it was the last one. */
  lemma DropSound(data: NodeData, global: GlobalData, app: App, pos: nat, last: bool)
    requires Sound(data, global) && app in data && pos < |data[app]|
    requires last <==> !Shared(ListsOf(data), app, data[app][pos].acqAddr)
    ensures var data' := data[app := WithoutAt(data[app], pos)];
            Sound(data', if last then global - {data[app][pos].acqAddr} else global)
  {
    AliveKeys(data, global);
    var addr, list' := data[app][pos].acqAddr, WithoutAt(data[app], pos);
    var data', global' := data[app := list'], if last then global - {addr} else global;
    WithoutAtIs(data[app], pos, data[app][pos]);
    forall other | other in data' ensures OnceEach(data'[other]) && FromIndex(data'[other], global') {
      DropFromIndex(data, global, app, pos, last, other);
    }
    forall a | a in global' ensures Alive(data', global'[a]) {
      DropAlive(data, global, app, pos, last, a);
    }
    SoundIf(data', global');
  }

  lemma DropFromIndex(data: NodeData, global: GlobalData, app: App, pos: nat, last: bool, other: App)
    requires Sound(data, global) && app in data && pos < |data[app]| && other in data
    requires last <==> !Shared(ListsOf(data), app, data[app][pos].acqAddr)
    ensures var data' := data[app := WithoutAt(data[app], pos)];
            && OnceEach(data'[other])
            && FromIndex(data'[other], if last then global - {data[app][pos].acqAddr} else global)
  {
    var addr, list := data[app][pos].acqAddr, data[app := WithoutAt(data[app], pos)][other];
    WithoutAtIs(data[app], pos, data[app][pos]);
    forall i | 0 <= i < |list|
      ensures list[i].acqAddr in global && global[list[i].acqAddr] == list[i] && (last ==> list[i].acqAddr != addr) {
      if other == app {
        WithoutAtIs(data[app], pos, list[i]);
        assert FromIndex(data[app], global);
      } else {
        assert FromIndex(data[other], global);
        assert ListsOf(data)[other][i].acqAddr == list[i].acqAddr;
      }
    }
  }

  lemma DropAlive(data: NodeData, global: GlobalData, app: App, pos: nat, last: bool, a: Addr)
    requires Sound(data, global) && app in data && pos < |data[app]|
    requires last <==> !Shared(ListsOf(data), app, data[app][pos].acqAddr)
    requires a in global && (last ==> a != data[app][pos].acqAddr)
    ensures Alive(data[app := WithoutAt(data[app], pos)], global[a])
  {
    AliveKeys(data, global);
    var data' := data[app := WithoutAt(data[app], pos)];
    if a == data[app][pos].acqAddr {
      var other :| other in ListsOf(data) && other != app && Has(ListsOf(data)[other], a);
      var i :| 0 <= i < |data[other]| && Values(data[other])[i].acqAddr == a;
      assert FromIndex(data[other], global);
      assert global[a] in data'[other];
    } else {
      var other :| other in data && global[a] in data[other];
      WithoutAtIs(data[app], pos, global[a]);
      assert global[a] in data'[other];
    }
  }

  // ---- the operations ----

  method FindPosition(list: seq<NodeInfo>, addr: Addr) returns (pos: nat)
    ensures pos == Position(Values(list), addr)
  {
    pos := 0;
    while pos < |list| && list[pos].acqAddr != addr
      invariant pos <= |list|
      invariant forall i :: 0 <= i < pos ==> Values(list)[i].acqAddr != addr
    {
      pos := pos + 1;
    }
    PositionIs(Values(list), addr, pos);
  }

  lemma PositionIs(list: seq<Node>, addr: Addr, pos: nat)
    requires pos <= |list| && (pos < |list| ==> list[pos].acqAddr == addr)
    requires forall i :: 0 <= i < pos ==> list[i].acqAddr != addr
    ensures pos == Position(list, addr)
  {
  }

  /** What a request for a known node does to the objects, in each of its cases. */
  lemma ExistIs(data: NodeData, global: GlobalData, app: App, node: Node, pos: nat)
    requires Sound(data, global) && pos == Position(Values(ListIn(data, app)), node.acqAddr)
    ensures var (b, r) := AddExist(BookOf(data, global), app, node);
            var list := ListIn(data, app);
            var entered := data[app := list];
            Sound(entered, global) &&
            if pos < |list| then
              && b == BookOf(entered, global)
              && r == if list[pos].proType == node.proType then Ok(true)
                  else Err(TypeMismatch(node.proType, list[pos].proType))
            else if node.acqAddr !in global then
              b == BookOf(entered, global) && r == Ok(false)
            else
              var existing := global[node.acqAddr];
              if existing.proType != node.proType then
                b == BookOf(entered, global) && r == Err(TypeMismatch(node.proType, existing.proType))
              else
                && Sound(data[app := list + [existing]], global)
                && b == BookOf(data[app := list + [existing]], global) && r == Ok(true)
  {
    var list := ListIn(data, app);
    EntrySound(data, global, app);
    ListsUpdate(data, app, list);
    assert pos < |list| <==> Has(Values(list), node.acqAddr);
    if pos < |list| {
      assert FromIndex(list, global);
    } else if node.acqAddr in global {
      var existing := global[node.acqAddr];
      PushSound(data, global, app, existing);
      assert global[existing.acqAddr := existing] == global;
      ValuesPush(list, existing);
      ListsUpdate(data, app, list + [existing]);
    }
  }

  lemma PushIs(data: NodeData, global: GlobalData, app: App, info: NodeInfo)
    ensures BookOf(data[app := ListIn(data, app) + [info]], global[info.acqAddr := info])
         == AddChecked(BookOf(data, global), app, info.Value())
  {
    ValuesPush(ListIn(data, app), info);
    ListsUpdate(data, app, ListIn(data, app) + [info]);
  }

  lemma PushNewSound(data: NodeData, global: GlobalData, app: App, info: NodeInfo)
    requires Sound(data, global) && info.acqAddr !in global
    ensures Sound(data[app := ListIn(data, app) + [info]], global[info.acqAddr := info])
  {
    assert FromIndex(ListIn(data, app), global);
    PushSound(data, global, app, info);
  }

  lemma DropIs(data: NodeData, app: App, pos: nat, addr: Addr)
    requires app in data && pos < |data[app]| && pos == Position(Values(data[app]), addr)
    ensures Keeps(ListsOf(data), app, addr) && data[app][pos].acqAddr == addr
    ensures ListsOf(data[app := WithoutAt(data[app], pos)]) == ListsOf(data)[app := Dropped(ListsOf(data)[app], addr)]
  {
    assert Values(data[app])[pos].acqAddr == addr;
    ValuesDrop(data[app], pos);
    ListsUpdate(data, app, WithoutAt(data[app], pos));
  }

  lemma NotThere(data: NodeData, app: App, addr: Addr)
    requires Position(Values(ListIn(data, app)), addr) == |ListIn(data, app)|
    ensures !Keeps(ListsOf(data), app, addr)
  {
  }

  lemma RemoveIs(data: NodeData, global: GlobalData, app: App, pos: nat, addr: Addr)
    requires app in data && pos < |data[app]| && pos == Position(Values(data[app]), addr)
    ensures Keeps(ListsOf(data), app, addr)
    ensures BookOf(data[app := WithoutAt(data[app], pos)], global - {addr}) ==
        RemoveChecked(BookOf(data, global), app, addr)
  {
    DropIs(data, app, pos, addr);
    assert IndexOf(global - {addr}) == IndexOf(global) - {addr};
  }

  /** Removing a node checked leaves a sound archive exactly when nobody else had it. */
  lemma RemoveSound(data: NodeData, global: GlobalData, app: App, pos: nat, addr: Addr)
    requires Sound(data, global)
    requires app in data && pos < |data[app]| && pos == Position(Values(data[app]), addr)
    ensures Sound(data[app := WithoutAt(data[app], pos)], global - {addr}) <==> !Shared(ListsOf(data), app, addr)
  {
    var data', global' := data[app := WithoutAt(data[app], pos)], global - {addr};
    DropIs(data, app, pos, addr);
    RemoveIs(data, global, app, pos, addr);
    if Shared(ListsOf(data), app, addr) {
      SoundIsConsistent(data, global);
      RemoveCheckedKeeps(BookOf(data, global), app, addr);
      if Sound(data', global') {
        SoundIsConsistent(data', global');
        assert false;
      }
    } else {
      DropSound(data, global, app, pos, true);
    }
  }

  class NodeConfig {
    var nodeData: NodeData
    var globalData: GlobalData

    ghost predicate Valid()
      reads this
    {
      Sound(nodeData, globalData)
    }

    function View(): Book
      reads this
    {
      BookOf(nodeData, globalData)
    }

    function StrongCount(node: NodeInfo): nat
      reads this
    {
      |Holders(nodeData, node)|
    }

    constructor ()
      ensures Valid() && View() == EMPTY
    {
      nodeData := map[];
      globalData := map[];
    }

    /** The weak reference of the index, if its object is alive. */
    method GetNodeInfo(addr: Addr) returns (r: Option<NodeInfo>)
      requires Valid()
      ensures r == if addr in globalData then Some(globalData[addr]) else None
    {
      if addr in globalData && StrongCount(globalData[addr]) > 0 {
        return Some(globalData[addr]);
      }
      return None;
    }

    method AddNodeInfoExist(app: App, node: Node) returns (r: Result<bool, NodeError>)
      requires Valid()
      modifies this
      ensures Valid()
      ensures (View(), r) == AddExist(old(View()), app, node)
      ensures r == Ok(false) ==> node.acqAddr !in globalData
    {
      hide Sound, BookOf, AddExist, Holders, Position, Values;
      ExistIs(nodeData, globalData, app, node, Position(Values(ListIn(nodeData, app)), node.acqAddr));
      if app !in nodeData {
        nodeData := nodeData[app := []];
      }
      assert nodeData == old(nodeData)[app := ListIn(old(nodeData), app)];
      var list := nodeData[app];
      var pos := FindPosition(list, node.acqAddr);
      if pos < |list| {
        if list[pos].proType != node.proType {
          return Err(TypeMismatch(node.proType, list[pos].proType));
        }
        return Ok(true);
      }
      var existing := GetNodeInfo(node.acqAddr);
      if existing.None? {
        return Ok(false);
      }
      if existing.value.proType != node.proType {
        return Err(TypeMismatch(node.proType, existing.value.proType));
      }
      nodeData := nodeData[app := list + [existing.value]];
      assert nodeData == old(nodeData)[app := list + [existing.value]];
      return Ok(true);
    }

    /** Whatever the archive is, the node becomes a new object of list and index. */
    method AddNodeInfoChecked(app: App, node: Node)
      modifies this
      ensures View() == AddChecked(old(View()), app, node)
      ensures globalData.Keys == old(globalData.Keys) + {node.acqAddr}
      ensures old(Valid() && node.acqAddr !in globalData) ==> Valid()
    {
      hide Sound, BookOf, AddChecked;
      var info := new NodeInfo(node);
      PushIs(nodeData, globalData, app, info);
      if Valid() && info.acqAddr !in globalData {
        PushNewSound(nodeData, globalData, app, info);
      }
      globalData := globalData[info.acqAddr := info];
      if app !in nodeData {
        nodeData := nodeData[app := []];
      }
      nodeData := nodeData[app := nodeData[app] + [info]];
      assert nodeData == old(nodeData)[app := ListIn(old(nodeData), app) + [info]];
    }

    /** True when the application is alone with the node; a shared node it gives up here. */
    method ShouldRemoveNodeInfo(app: App, node: Node) returns (r: bool)
      requires Valid()
      modifies this
      ensures Valid()
      ensures (View(), r) == ShouldRemove(old(View()), app, node.acqAddr)
    {
      if app !in nodeData {
        return false;
      }
      var list := nodeData[app];
      var pos := FindPosition(list, node.acqAddr);
      if pos == |list| {
        NotThere(nodeData, app, node.acqAddr);
        return false;
      }
      DropIs(nodeData, app, pos, node.acqAddr);
      CountOneIsLast(nodeData, globalData, app, pos);
      if StrongCount(list[pos]) == 1 {
        return true;
      }
      DropSound(nodeData, globalData, app, pos, false);
      nodeData := nodeData[app := list[..pos] + list[pos + 1..]];
      return false;
    }

    /** Whatever the archive is: `Gone` is the panic on a node the application does not have,
        and a node that only the index does not have is an error after its removal. */
    method RemoveNodeInfoChecked(app: App, node: Node) returns (r: Removal)
      modifies this
      ensures r.Gone? <==> !Keeps(old(View()).lists, app, node.acqAddr)
      ensures r.Gone? ==> View() == old(View()) && (old(Valid()) ==> Valid())
      ensures !r.Gone? ==> View() == RemoveChecked(old(View()), app, node.acqAddr)
      ensures !r.Gone? ==> r == if node.acqAddr in old(View()).index then Removed else NotIndexed(node.acqAddr)
      ensures !r.Gone? && old(Valid()) ==> (Valid() <==> !Shared(old(View()).lists, app, node.acqAddr))
    {
      hide Sound;
      if app !in nodeData {
        return Gone;
      }
      var list := nodeData[app];
      var pos := FindPosition(list, node.acqAddr);
      if pos == |list| {
        NotThere(nodeData, app, node.acqAddr);
        return Gone;
      }
      RemoveIs(nodeData, globalData, app, pos, node.acqAddr);
      if Valid() {
        RemoveSound(nodeData, globalData, app, pos, node.acqAddr);
      }
      nodeData := nodeData[app := list[..pos] + list[pos + 1..]];
      r := if node.acqAddr in globalData then Removed else NotIndexed(node.acqAddr);
      globalData := globalData - {node.acqAddr};
    }

    method ClearAllApp()
      modifies this
      ensures Valid() && View() == EMPTY
    {
      nodeData := map[];
      globalData := map[];
    }

    /** The initial load of one application. */
    method AddNodeInfos(app: App, nodes: seq<Node>) returns (error: Option<NodeError>)
      requires Valid()
      modifies this
      ensures Valid()
      ensures (View(), error) == Load(old(View()), EntriesOf(app, nodes))
    {
      hide Sound, BookOf, AddExist, AddChecked;
      ghost var b := View();
      for n := 0 to |nodes|
        invariant Valid() && (View(), None) == Load(b, EntriesOf(app, nodes[..n]))
      {
        EntriesPrefix(app, nodes, n);
        LoadNext(b, EntriesOf(app, nodes[..n]), Entry(app, nodes[n]));
        var known := AddNodeInfoExist(app, nodes[n]);
        if known.Err? {
          LoadStops(b, EntriesOf(app, nodes), n + 1);
          return Some(known.error);
        }
        if !known.value {
          AddNodeInfoChecked(app, nodes[n]);
        }
      }
      assert nodes[..|nodes|] == nodes;
      return None;
    }

    method AddNodeInfosChecked(app: App, nodes: seq<Node>)
      modifies this
      ensures View() == AddAll(old(View()), app, nodes)
      ensures old(Valid() && Addrs(nodes) !! globalData.Keys) && Distinct(nodes) ==> Valid()
    {
      hide Sound, BookOf, AddChecked, Distinct;
      for n := 0 to |nodes|
        invariant View() == AddAll(old(View()), app, nodes[..n])
        invariant globalData.Keys == old(globalData.Keys) + Addrs(nodes[..n])
        invariant old(Valid() && Addrs(nodes) !! globalData.Keys) && Distinct(nodes) ==> Valid()
      {
        NextNode(nodes, n);
        AddNodeInfoChecked(app, nodes[n]);
      }
      assert nodes[..|nodes|] == nodes;
    }

    /** In order, up to the first that is not there; the archive stays sound if the application
        was alone with each. */
    method RemoveNodeInfosChecked(app: App, nodes: seq<Node>) returns (r: Removal)
      modifies this
      ensures (View(), r) == RemoveAll(old(View()), app, nodes)
      ensures old(Valid() && forall a :: a in Addrs(nodes) ==> Sole(View().lists, app, a)) ==> Valid()
    {
      hide Sound, BookOf, RemoveChecked, Keeps, Shared, Sole;
      ghost var b, sole := View(), Valid() && forall a :: a in Addrs(nodes) ==> Sole(View().lists, app, a);
      if sole {
        SoundIsConsistent(nodeData, globalData);
      }
      for n := 0 to |nodes|
        invariant RemoveAll(b, app, nodes[..n]) == (View(), Removed)
        invariant sole ==> Valid()
      {
        NextNode(nodes, n);
        assert nodes[..n + 1][..n] == nodes[..n];
        if sole {
          RemoveNext(b, View(), app, nodes, n);
        }
        r := RemoveNodeInfoChecked(app, nodes[n]);
        if !r.Removed? {
          RemoveStops(b, app, nodes, n + 1);
          return;
        }
      }
      assert nodes[..|nodes|] == nodes;
      r := Removed;
    }

    method GetAllNodeInfos(app: App) returns (list: seq<NodeInfo>)
      ensures Values(list) == ListOf(View().lists, app)
    {
      return if app in nodeData then nodeData[app] else [];
    }
  }

  function EntriesOf(app: App, nodes: seq<Node>): seq<Entry> {
    seq(|nodes|, i requires 0 <= i < |nodes| => Entry(app, nodes[i]))
  }

  lemma EntriesPrefix(app: App, nodes: seq<Node>, n: nat)
    requires n < |nodes|
    ensures EntriesOf(app, nodes[..n + 1]) == EntriesOf(app, nodes[..n]) + [Entry(app, nodes[n])]
    ensures EntriesOf(app, nodes[..n + 1]) == EntriesOf(app, nodes)[..n + 1]
  {
  }

  lemma LoadNext(b: Book, entries: seq<Entry>, e: Entry)
    requires Load(b, entries).1.None?
    ensures Load(b, entries + [e]) == AddInit(Load(b, entries).0, e.app, e.node)
  {
    assert (entries + [e])[..|entries|] == entries;
  }

  /** A load that failed is not continued. */
  lemma {:induction false} LoadStops(b: Book, entries: seq<Entry>, n: nat)
    requires n <= |entries| && Load(b, entries[..n]).1.Some?
    ensures Load(b, entries) == Load(b, entries[..n])
  {
    if n < |entries| {
      assert entries[..|entries| - 1][..n] == entries[..n];
      LoadStops(b, entries[..|entries| - 1], n);
    } else {
      assert entries[..n] == entries;
    }
  }

  lemma NextNode(nodes: seq<Node>, n: nat)
    requires n < |nodes|
    ensures nodes[..n + 1] == nodes[..n] + [nodes[n]]
    ensures Addrs(nodes[..n + 1]) == Addrs(nodes[..n]) + {nodes[n].acqAddr}
    ensures nodes[n].acqAddr in Addrs(nodes)
    ensures Distinct(nodes) ==> nodes[n].acqAddr !in Addrs(nodes[..n])
  {
    assert nodes[..n + 1] == nodes[..n] + [nodes[n]];
    AddrsOfLast(nodes[..n], nodes[n]);
  }

  /** The next node to remove is nobody else's. */
  lemma RemoveNext(b: Book, b': Book, app: App, nodes: seq<Node>, n: nat)
    requires Consistent(b) && n < |nodes| && RemoveAll(b, app, nodes[..n]) == (b', Removed)
    requires forall a :: a in Addrs(nodes) ==> Sole(b.lists, app, a)
    ensures !Shared(b'.lists, app, nodes[n].acqAddr)
  {
    hide Consistent, Keeps, Shared;
    NextNode(nodes, n);
    PrefixAddrs(nodes, n);
    RemoveAllAre(b, app, nodes[..n]);
    SharedSame(b.lists, b'.lists, app, nodes[n].acqAddr);
  }

  /** A removal that stopped is not continued. */
  lemma {:induction false} RemoveStops(b: Book, app: App, nodes: seq<Node>, n: nat)
    requires n <= |nodes| && !RemoveAll(b, app, nodes[..n]).1.Removed?
    ensures RemoveAll(b, app, nodes) == RemoveAll(b, app, nodes[..n])
  {
    if n < |nodes| {
      assert nodes[..|nodes| - 1][..n] == nodes[..n];
      RemoveStops(b, app, nodes[..|nodes| - 1], n);
    } else {
      assert nodes[..n] == nodes;
    }
  }

  lemma PrefixAddrs(nodes: seq<Node>, n: nat)
    requires n <= |nodes|
    ensures Addrs(nodes[..n]) <= Addrs(nodes)
  {
  }
}
