/** The archive of meters as values: a list for each application and one index over all
    of them, and what the archive operations do to both. */
module Archive {
  import opened Wrappers

  type App = string
  type Addr = string
  type Protocol = string

  datatype Node = Node(acqAddr: Addr, proType: Protocol)

  datatype NodeError = TypeMismatch(given: Protocol, existing: Protocol) | NotFound(addr: Addr)

  type Lists = map<App, seq<Node>>

  datatype Book = Book(lists: Lists, index: map<Addr, Protocol>)

  const EMPTY := Book(map[], map[])

  /** The first position of an address, or the length. */
  function Position(list: seq<Node>, addr: Addr): (pos: nat)
    ensures pos <= |list|
    ensures pos < |list| ==> list[pos].acqAddr == addr
    ensures forall i :: 0 <= i < pos ==> list[i].acqAddr != addr
  {
    if list == [] || list[0].acqAddr == addr then 0 else 1 + Position(list[1..], addr)
  }

  predicate Has(list: seq<Node>, addr: Addr) {
    exists i :: 0 <= i < |list| && list[i].acqAddr == addr
  }

  function ListOf(lists: Lists, app: App): seq<Node> {
    if app in lists then lists[app] else []
  }

  predicate Keeps(lists: Lists, app: App, addr: Addr) {
    Has(ListOf(lists, app), addr)
  }

  /** Some other application keeps the address too. */
  predicate Shared(lists: Lists, app: App, addr: Addr) {
    exists other :: other in lists && other != app && Has(lists[other], addr)
  }

  predicate Distinct(list: seq<Node>) {
    forall i, j :: 0 <= i < j < |list| ==> list[i].acqAddr != list[j].acqAddr
  }

  ghost predicate Listed(lists: Lists, addr: Addr) {
    exists app :: app in lists && Has(lists[app], addr)
  }

  /** The index has every address of the list, with the list's protocol. */
  predicate Indexed(list: seq<Node>, index: map<Addr, Protocol>) {
    forall i :: 0 <= i < |list| ==> list[i].acqAddr in index && index[list[i].acqAddr] == list[i].proType
  }

  ghost predicate NoDeadKeys(b: Book) {
    forall a :: a in b.index ==> Listed(b.lists, a)
  }

  /** What every operation keeps: an application lists an address once; the index holds
      exactly the addresses listed, with the one protocol all lists give them. */
  ghost predicate Consistent(b: Book) {
    && (forall app :: app in b.lists ==> Distinct(b.lists[app]) && Indexed(b.lists[app], b.index))
    && NoDeadKeys(b)
  }

  // ---- one node ----

  /** An application asks for a node that may already be in the archive. */
  function AddExist(b: Book, app: App, node: Node): (Book, Result<bool, NodeError>) {
    var list := ListOf(b.lists, app);
    var b' := b.(lists := b.lists[app := list]);
    if node.acqAddr !in b.index then (b', Ok(false))
    else if b.index[node.acqAddr] != node.proType then
      (b', Err(TypeMismatch(node.proType, b.index[node.acqAddr])))
    else if Has(list, node.acqAddr) then (b', Ok(true))
    else (b.(lists := b.lists[app := list + [node]]), Ok(true))
  }

  function AddChecked(b: Book, app: App, node: Node): Book {
    Book(b.lists[app := ListOf(b.lists, app) + [node]], b.index[node.acqAddr := node.proType])
  }

  function Dropped(list: seq<Node>, addr: Addr): seq<Node>
    requires Has(list, addr)
  {
    var pos := Position(list, addr);
    list[..pos] + list[pos + 1..]
  }

  /** An application gives a node up: alone with it, the module must be asked first. */
  function ShouldRemove(b: Book, app: App, addr: Addr): (Book, bool) {
    if !Keeps(b.lists, app, addr) then (b, false)
    else if Shared(b.lists, app, addr) then (b.(lists := b.lists[app := Dropped(b.lists[app], addr)]), false)
    else (b, true)
  }

  function RemoveChecked(b: Book, app: App, addr: Addr): Book
    requires Keeps(b.lists, app, addr)
  {
    Book(b.lists[app := Dropped(b.lists[app], addr)], b.index - {addr})
  }

  // ---- each keeps the archive consistent ----

  lemma HasDropped(list: seq<Node>, addr: Addr, a: Addr)
    requires Has(list, addr) && Distinct(list)
    ensures Distinct(Dropped(list, addr))
    ensures Has(Dropped(list, addr), a) <==> Has(list, a) && a != addr
    ensures forall i :: 0 <= i < |Dropped(list, addr)| ==> Dropped(list, addr)[i] in list
  {
    var pos, list' := Position(list, addr), Dropped(list, addr);
    if Has(list, a) && a != addr {
      var i :| 0 <= i < |list| && list[i].acqAddr == a;
      assert list'[if i < pos then i else i - 1] == list[i];
    }
  }

  /** Lists that only grow at the end list what they did. */
  lemma ListedStays(lists: Lists, lists': Lists, addr: Addr)
    requires Listed(lists, addr)
    requires forall app :: app in lists ==> app in lists' && lists[app] <= lists'[app]
    ensures Listed(lists', addr)
  {
    var app :| app in lists && Has(lists[app], addr);
    var i :| 0 <= i < |lists[app]| && lists[app][i].acqAddr == addr;
    assert lists'[app][i].acqAddr == addr;
  }

  lemma PushKeeps(b: Book, app: App, node: Node, index: map<Addr, Protocol>)
    requires Consistent(b) && !Keeps(b.lists, app, node.acqAddr)
    requires node.acqAddr in index && index[node.acqAddr] == node.proType
    requires index.Keys == b.index.Keys + {node.acqAddr} && forall a :: a in b.index ==> index[a] == b.index[a]
    ensures Consistent(Book(b.lists[app := ListOf(b.lists, app) + [node]], index))
  {
    PushListed(b, app, node, index);
    var list := ListOf(b.lists, app);
    assert Distinct(list + [node]) && Indexed(list + [node], index);
    forall other | other in b.lists ensures Indexed(b.lists[other], index) {
    }
  }

  lemma PushListed(b: Book, app: App, node: Node, index: map<Addr, Protocol>)
    requires NoDeadKeys(b) && index.Keys == b.index.Keys + {node.acqAddr}
    ensures NoDeadKeys(Book(b.lists[app := ListOf(b.lists, app) + [node]], index))
  {
    var lists' := b.lists[app := ListOf(b.lists, app) + [node]];
    forall a | a in index ensures Listed(lists', a) {
      if a == node.acqAddr {
        assert lists'[app][|ListOf(b.lists, app)|] == node;
      } else {
        assert Listed(b.lists, a);
        ListedStays(b.lists, lists', a);
      }
    }
  }

  lemma EntryKeeps(b: Book, app: App)
    requires Consistent(b)
    ensures Consistent(b.(lists := b.lists[app := ListOf(b.lists, app)]))
  {
    var lists' := b.lists[app := ListOf(b.lists, app)];
    forall a | a in b.index ensures Listed(lists', a) {
      assert Listed(b.lists, a);
      ListedStays(b.lists, lists', a);
    }
  }

  lemma AddExistKeeps(b: Book, app: App, node: Node)
    requires Consistent(b)
    ensures var (b', r) := AddExist(b, app, node);
            && Consistent(b') && b'.index == b.index
            && (r == Ok(true) ==> node.acqAddr in b.index && b.index[node.acqAddr] == node.proType)
            && (r == Ok(false) ==> node.acqAddr !in b.index)
            && (r.Err? <==> node.acqAddr in b.index && b.index[node.acqAddr] != node.proType)
  {
    EntryKeeps(b, app);
    if node.acqAddr in b.index && b.index[node.acqAddr] == node.proType && !Keeps(b.lists, app, node.acqAddr) {
      PushKeeps(b, app, node, b.index);
    }
  }

  lemma AddCheckedKeeps(b: Book, app: App, node: Node)
    requires Consistent(b) && node.acqAddr !in b.index
    ensures Consistent(AddChecked(b, app, node))
  {
    PushKeeps(b, app, node, b.index[node.acqAddr := node.proType]);
  }

  /** After a list lost one address, every other address is listed as before. */
  lemma ListedAfterDrop(b: Book, app: App, addr: Addr, a: Addr)
    requires Consistent(b) && Keeps(b.lists, app, addr) && Listed(b.lists, a)
    requires a != addr || Shared(b.lists, app, addr)
    ensures Listed(b.lists[app := Dropped(b.lists[app], addr)], a)
  {
    var lists' := b.lists[app := Dropped(b.lists[app], addr)];
    HasDropped(b.lists[app], addr, a);
    if a == addr {
      var other :| other in b.lists && other != app && Has(b.lists[other], addr);
      assert Has(lists'[other], a);
    } else {
      var app' :| app' in b.lists && Has(b.lists[app'], a);
      assert Has(lists'[app'], a);
    }
  }

  lemma ShouldRemoveKeeps(b: Book, app: App, addr: Addr)
    requires Consistent(b)
    ensures var (b', r) := ShouldRemove(b, app, addr);
            && Consistent(b') && b'.index == b.index
            && (r ==> b' == b && Keeps(b.lists, app, addr) && !Shared(b.lists, app, addr))
  {
    if Keeps(b.lists, app, addr) && Shared(b.lists, app, addr) {
      HasDropped(b.lists[app], addr, addr);
      forall a | a in b.index ensures Listed(ShouldRemove(b, app, addr).0.lists, a) {
        ListedAfterDrop(b, app, addr, a);
      }
    }
  }

  /** Taking an address off the index is right exactly when nobody else lists it. */
  lemma RemoveCheckedKeeps(b: Book, app: App, addr: Addr)
    requires Consistent(b) && Keeps(b.lists, app, addr)
    ensures Consistent(RemoveChecked(b, app, addr)) <==> !Shared(b.lists, app, addr)
  {
    var b' := RemoveChecked(b, app, addr);
    if Shared(b.lists, app, addr) {
      var other :| other in b.lists && other != app && Has(b.lists[other], addr);
      var i :| 0 <= i < |b'.lists[other]| && b'.lists[other][i].acqAddr == addr;
      assert !Indexed(b'.lists[other], b'.index);
    } else {
      HasDropped(b.lists[app], addr, addr);
      forall a | a in b'.index ensures Listed(b'.lists, a) {
        ListedAfterDrop(b, app, addr, a);
      }
      forall app' | app' in b'.lists ensures Indexed(b'.lists[app'], b'.index) {
        IndexedWithout(b'.lists[app'], b.lists[app'], b.index, addr);
      }
    }
  }

  /** A list that does not have an address does not need it in the index. */
  lemma IndexedWithout(list': seq<Node>, list: seq<Node>, index: map<Addr, Protocol>, addr: Addr)
    requires Indexed(list, index) && !Has(list', addr)
    requires forall i :: 0 <= i < |list'| ==> list'[i] in list
    ensures Indexed(list', index - {addr})
  {
    forall i | 0 <= i < |list'| ensures list'[i].acqAddr in index - {addr}
        && index[list'[i].acqAddr] == list'[i].proType {
      var j :| 0 <= j < |list| && list[j] == list'[i];
      assert list'[i].acqAddr != addr;
    }
  }
}
