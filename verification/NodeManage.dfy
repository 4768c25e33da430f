/** Requests of the applications against the archive in memory and the module behind the
    serial line: the module is told only what memory cannot settle, ten nodes at a time. */
module NodeManage {
  import opened Wrappers
  import opened WireForm
  import opened Archive
  import opened ArchiveSync
  import opened Chunking
  import opened ArchiveRuns
  import opened ArchiveRequests
  import opened ArchiveLoad
  import NodeConfig

  /** The module and its own archive, which knows a meter by six bytes. */
  class PlcModule {
    var archive: Device
    ghost var unsure: set<WireAddr>

    ghost predicate Left(was: Device, wasUnsure: set<WireAddr>, reply: Reply, wires: set<WireAddr>)
      requires !reply.Confirm?
      reads this
    {
      forall b :: World(b, archive, unsure) == NotDone(World(b, was, wasUnsure), reply, wires).0
    }

    method Refuse(wires: set<WireAddr>, reply: Reply)
      requires !reply.Confirm?
      modifies this
      ensures Left(old(archive), old(unsure), reply, wires)
    {
      if reply.Silence? {
        var touched := map x | x in reply.after && x in wires :: reply.after[x];
        archive := (archive - wires) + touched;
        unsure := unsure + wires;
      }
    }

    method Add(nodes: seq<Node>, reply: Reply)
      requires AllSendable(nodes)
      modifies this
      ensures reply.Confirm? ==> archive == Stored(old(archive), nodes) && unsure == old(unsure) - WiresOf(Addrs(nodes))
      ensures !reply.Confirm? ==> Left(old(archive), old(unsure), reply, WiresOf(Addrs(nodes)))
    {
      var wires := WiresOf(Addrs(nodes));
      if reply.Confirm? {
        archive := Stored(archive, nodes);
        unsure := unsure - wires;
      } else {
        Refuse(wires, reply);
      }
    }

    method Delete(nodes: seq<Node>, reply: Reply)
      requires AllWired(nodes)
      modifies this
      ensures reply.Confirm? ==>
                archive == old(archive) - WiresOf(Addrs(nodes)) && unsure == old(unsure) - WiresOf(Addrs(nodes))
      ensures !reply.Confirm? ==> Left(old(archive), old(unsure), reply, WiresOf(Addrs(nodes)))
    {
      var wires := WiresOf(Addrs(nodes));
      if reply.Confirm? {
        archive := archive - wires;
        unsure := unsure - wires;
      } else {
        Refuse(wires, reply);
      }
    }
  }

  function OutcomeOf(reply: Reply): Outcome {
    match reply
    case Confirm => Done
    case Deny => Denied
    case Silence(_) => TimedOut
  }

  class NodeManage {
    const config: NodeConfig.NodeConfig
    const plc: PlcModule
    var operationResult: Option<Outcome>

    ghost predicate Valid()
      reads config
    {
      config.Valid()
    }

    ghost function State(): World
      reads config, plc
    {
      World(config.View(), plc.archive, plc.unsure)
    }

    constructor (config: NodeConfig.NodeConfig, plc: PlcModule)
      ensures this.config == config && this.plc == plc
    {
      this.config := config;
      this.plc := plc;
      operationResult := None;
    }

    /** The answer, or the timeout, that ends the wait is taken out of its place. */
    method WaitOperationResult(reply: Reply) returns (r: Outcome)
      modifies this
      ensures r == OutcomeOf(reply) && operationResult == None
    {
      operationResult := Some(OutcomeOf(reply));
      r := operationResult.value;
      operationResult := None;
    }

    method NodesToAdd(app: App, nodes: seq<Node>) returns (r: Result<seq<Node>, NodeError>)
      requires Valid()
      modifies config
      ensures Valid()
      ensures (config.View(), r) == NewNodes(old(config.View()), app, nodes)
    {
      hide AddExist;
      ghost var b := config.View();
      var list := [];
      for n := 0 to |nodes|
        invariant Valid()
        invariant (config.View(), Ok(list)) == NewNodes(b, app, nodes[..n])
      {
        assert nodes[..n + 1][..n] == nodes[..n];
        var known := config.AddNodeInfoExist(app, nodes[n]);
        if known.Err? {
          NewNodesStops(b, app, nodes, n + 1);
          return Err(known.error);
        }
        if !known.value {
          list := list + [nodes[n]];
        }
      }
      assert nodes[..|nodes|] == nodes;
      return Ok(list);
    }

    method NodesToDelete(app: App, nodes: seq<Node>) returns (list: seq<Node>)
      requires Valid()
      modifies config
      ensures Valid()
      ensures (config.View(), list) == LastReferences(old(config.View()), app, nodes)
    {
      hide ShouldRemove;
      ghost var b := config.View();
      list := [];
      for n := 0 to |nodes|
        invariant Valid()
        invariant (config.View(), list) == LastReferences(b, app, nodes[..n])
      {
        assert nodes[..n + 1][..n] == nodes[..n];
        var last := config.ShouldRemoveNodeInfo(app, nodes[n]);
        if last {
          list := list + [nodes[n]];
        }
      }
      assert nodes[..|nodes|] == nodes;
    }

    /** Nodes without a wire form make it panic, with the archive locked and nothing sent. */
    method AddChunkAcqFiles(app: App, nodes: seq<Node>, reply: Reply) returns (r: Outcome)
      requires Valid()
      modifies this, config, plc
      ensures (State(), r) == AddChunk(old(State()), app, nodes, reply)
      ensures !(reply.Confirm? && !Distinct(Unknown(old(State()), nodes))) ==> Valid()
    {
      hide NewNodes, AddAll, Stored, Pick, Wire, Protocol8;
      NodeConfig.SoundIsConsistent(config.nodeData, config.globalData);
      NewNodesAre(config.View(), app, nodes);
      PickNew(config.View().index, nodes);
      var list := NodesToAdd(app, nodes);
      if list.Err? {
        return Rejected(list.error);
      }
      if list.value == [] {
        return Done;
      }
      if !AllSendable(list.value) {
        return Crash;
      }
      plc.Add(list.value, reply);
      r := WaitOperationResult(reply);
      if r.Done? {
        config.AddNodeInfosChecked(app, list.value);
      }
    }

    method DelChunkAcqFiles(app: App, nodes: seq<Node>, reply: Reply) returns (r: Outcome)
      requires Valid()
      modifies this, config, plc
      ensures Valid() && (State(), r) == DelChunk(old(State()), app, nodes, reply)
    {
      hide LastReferences, RemoveAll, Pick, Wire, Protocol8;
      NodeConfig.SoundIsConsistent(config.nodeData, config.globalData);
      NotSoleIs(config.View().lists, app, nodes);
      PickedSole(config.View(), app, nodes, NotSole(config.View().lists, app, nodes));
      var list := NodesToDelete(app, nodes);
      if list == [] {
        return Done;
      }
      if !AllWired(list) {
        return Crash;
      }
      plc.Delete(list, reply);
      r := WaitOperationResult(reply);
      if r.Done? {
        var removal := config.RemoveNodeInfosChecked(app, list);
        match removal {
          case Removed =>
          case Gone => r := Crash;
          case NotIndexed(a) => r := Rejected(NotFound(a));
        }
      }
    }

    /** A request, as long as it never has a new address confirmed that one chunk brings twice. */
    method OperateAcqFiles(kind: Kind, app: App, nodes: seq<Node>, replies: seq<Reply>) returns (r: Outcome)
      requires Valid() && |replies| == |Chunks(nodes, CHUNK)|
      requires NeverTwice(State(), kind, app, Chunks(nodes, CHUNK), replies)
      modifies this, config, plc
      ensures Valid() && (State(), r) == Operate(old(State()), kind, app, Chunks(nodes, CHUNK), replies)
    {
      hide AddChunk, DelChunk, Distinct, Pick, Clashes;
      ghost var whole := Operate(State(), kind, app, Chunks(nodes, CHUNK), replies);
      var i, k := 0, 0;
      assert nodes[0..] == nodes && replies[0..] == replies;
      while i < |nodes|
        invariant i <= |nodes| && k <= |replies| && |replies[k..]| == |Chunks(nodes[i..], CHUNK)|
        invariant Valid() && whole == Operate(State(), kind, app, Chunks(nodes[i..], CHUNK), replies[k..])
        invariant NeverTwice(State(), kind, app, Chunks(nodes[i..], CHUNK), replies[k..])
      {
        var n := if i + CHUNK < |nodes| then i + CHUNK else |nodes|;
        ChunkNext(nodes, CHUNK, i, n);
        assert nodes[i..n] == Chunks(nodes[i..], CHUNK)[0];
        assert replies[k] == replies[k..][0] && replies[k + 1..] == replies[k..][1..];
        if kind.Add? {
          r := AddChunkAcqFiles(app, nodes[i..n], replies[k]);
        } else {
          r := DelChunkAcqFiles(app, nodes[i..n], replies[k]);
        }
        if !r.Done? {
          return;
        }
        i, k := n, k + 1;
      }
      r := Done;
    }

    /** The application's own list, deleted as a request. */
    method ClearAcqFiles(app: App, replies: seq<Reply>) returns (r: Outcome)
      requires Valid() && |replies| == |Chunks(ListOf(config.View().lists, app), CHUNK)|
      modifies this, config, plc
      ensures Valid()
      ensures (State(), r) == Operate(old(State()), Del, app, Chunks(ListOf(old(config.View()).lists, app), CHUNK),
          replies)
    {
      var infos := config.GetAllNodeInfos(app);
      DelNeverTwice(State(), app, Chunks(NodeConfig.Values(infos), CHUNK), replies);
      r := OperateAcqFiles(Del, app, NodeConfig.Values(infos), replies);
    }

    /** The module is cleared at the start; any answer at all clears the memory. The timeout of
        this command is told to another waiter, so without an answer there is no result. */
    method InitClearAcqFiles(reply: Reply) returns (r: Option<Outcome>)
      requires Valid()
      modifies this, config, plc
      ensures Valid()
      ensures r == if reply.Silence? then None else Some(OutcomeOf(reply))
      ensures reply.Confirm? ==> State() == START
      ensures reply.Deny? ==> State() == World(EMPTY, old(plc.archive), old(plc.unsure))
      ensures reply.Silence? ==> config.View() == old(config.View())
    {
      match reply {
        case Confirm =>
          plc.archive := map[];
          plc.unsure := {};
        case Deny =>
        case Silence(after) =>
          plc.archive := after;
          return None;
      }
      config.ClearAllApp();
      var answer := WaitOperationResult(reply);
      r := Some(answer);
    }

    /** At the start nodes go to the module as they are; memory has them already. */
    method SendAcqFiles(nodes: seq<Node>, replies: seq<Reply>) returns (r: Outcome)
      requires |replies| == |Chunks(nodes, CHUNK)|
      modifies this, plc
      ensures (plc.archive, r) == Send(old(plc.archive), Chunks(nodes, CHUNK), replies)
      ensures AllConfirm(replies) ==> plc.unsure <= old(plc.unsure)
    {
      hide Wire, Protocol8, Stored, Sendable;
      ghost var whole := Send(plc.archive, Chunks(nodes, CHUNK), replies);
      var i, k := 0, 0;
      assert nodes[0..] == nodes && replies[0..] == replies;
      while i < |nodes|
        invariant i <= |nodes| && k <= |replies| && |replies[k..]| == |Chunks(nodes[i..], CHUNK)|
        invariant whole == Send(plc.archive, Chunks(nodes[i..], CHUNK), replies[k..])
        invariant AllConfirm(replies) ==> plc.unsure <= old(plc.unsure)
      {
        var n := if i + CHUNK < |nodes| then i + CHUNK else |nodes|;
        ChunkNext(nodes, CHUNK, i, n);
        assert replies[k] == replies[k..][0] && replies[k + 1..] == replies[k..][1..];
        ghost var was, wasUnsure := plc.archive, plc.unsure;
        if !AllSendable(nodes[i..n]) {
          return Crash;
        }
        plc.Add(nodes[i..n], replies[k]);
        r := WaitOperationResult(replies[k]);
        if !r.Done? {
          ghost var wires := WiresOf(Addrs(nodes[i..n]));
          assert World(EMPTY, plc.archive, plc.unsure) == NotDone(World(EMPTY, was, wasUnsure), replies[k], wires).0;
          return;
        }
        i, k := n, k + 1;
      }
      r := Done;
    }

    /** The stored lists enter memory in the order they are read. */
    method LoadStored(stored: seq<(App, seq<Node>)>) returns (error: Option<NodeError>)
      requires Valid()
      modifies config
      ensures Valid() && (config.View(), error) == Load(old(config.View()), Flat(stored))
    {
      hide Load;
      ghost var b := config.View();
      LoadNothing(b);
      for n := 0 to |stored|
        invariant Valid() && (config.View(), None) == Load(b, Flat(stored[..n]))
      {
        FlatNext(stored, n);
        LoadBoth(b, Flat(stored[..n]), NodeConfig.EntriesOf(stored[n].0, stored[n].1));
        error := config.AddNodeInfos(stored[n].0, stored[n].1);
        if error.Some? {
          LoadStopsAt(b, stored, n + 1);
          return;
        }
      }
      assert stored[..|stored|] == stored;
      error := None;
    }

    /** After that, in any order of the applications, their nodes go to the module, each
        once. */
    method LoadConfig(stored: seq<(App, seq<Node>)>, order: seq<seq<Node>>, replies: seq<Reply>)
      returns (error: Option<NodeError>, r: Outcome)
      requires Valid() && |replies| == |Chunks(Dedup(Joined(order)), CHUNK)|
      modifies this, config, plc
      ensures Valid() && (config.View(), error) == Load(old(config.View()), Flat(stored))
      ensures error.None? ==> (plc.archive, r) == Send(old(plc.archive), Chunks(Dedup(Joined(order)), CHUNK), replies)
      ensures error.None? && AllConfirm(replies) ==> plc.unsure <= old(plc.unsure)
      ensures error.Some? ==> plc.archive == old(plc.archive)
    {
      hide Load, Flat, Dedup, Joined, Chunks, Send;
      r := Done;
      error := LoadStored(stored);
      if error.None? {
        var list := DedupNodes(order);
        r := SendAcqFiles(list, replies);
      }
    }
  }

  lemma LoadNothing(b: Book)
    ensures Load(b, Flat([])) == (b, None)
  {
  }

  lemma LoadStopsAt(b: Book, stored: seq<(App, seq<Node>)>, n: nat)
    requires n <= |stored| && Load(b, Flat(stored[..n])).1.Some?
    ensures Load(b, Flat(stored)) == Load(b, Flat(stored[..n]))
  {
    hide Load, Flat;
    FlatPrefix(stored, n);
    var part, whole := Flat(stored[..n]), Flat(stored);
    assert whole[..|part|] == part;
    NodeConfig.LoadStops(b, whole, |part|);
  }

  method DedupNodes(order: seq<seq<Node>>) returns (list: seq<Node>)
    ensures list == Dedup(Joined(order))
  {
    list := [];
    for i := 0 to |order|
      invariant list == Dedup(Joined(order[..i]))
    {
      ghost var before := Joined(order[..i]);
      assert before + order[i][..0] == before;
      for j := 0 to |order[i]|
        invariant list == Dedup(before + order[i][..j])
      {
        assert before + order[i][..j + 1] == before + order[i][..j] + [order[i][j]];
        assert (before + order[i][..j] + [order[i][j]])[..|before + order[i][..j]|] == before + order[i][..j];
        if order[i][j] !in list {
          list := list + [order[i][j]];
        }
      }
      assert order[..i + 1] == order[..i] + [order[i]] && order[i][..|order[i]|] == order[i];
      JoinedNext(order[..i], order[i]);
    }
    assert order[..|order|] == order;
  }

  /** All stored nodes with their applications, in the order they are read. */
  function Flat(stored: seq<(App, seq<Node>)>): seq<Entry> {
    if stored == [] then []
    else Flat(stored[..|stored| - 1]) + NodeConfig.EntriesOf(stored[|stored| - 1].0, stored[|stored| - 1].1)
  }

  lemma FlatNext(stored: seq<(App, seq<Node>)>, n: nat)
    requires n < |stored|
    ensures Flat(stored[..n + 1]) == Flat(stored[..n]) + NodeConfig.EntriesOf(stored[n].0, stored[n].1)
  {
    assert stored[..n + 1][..n] == stored[..n];
  }

  lemma {:induction false} FlatPrefix(stored: seq<(App, seq<Node>)>, n: nat)
    requires n <= |stored|
    ensures Flat(stored[..n]) <= Flat(stored)
  {
    if n < |stored| {
      assert stored[..|stored| - 1][..n] == stored[..n];
      FlatPrefix(stored[..|stored| - 1], n);
    } else {
      assert stored[..n] == stored;
    }
  }

  lemma {:induction false} LoadBoth(b: Book, entries: seq<Entry>, more: seq<Entry>)
    requires Load(b, entries).1.None?
    ensures Load(b, entries + more) == Load(Load(b, entries).0, more)
  {
    hide AddInit;
    if more == [] {
      assert entries + more == entries;
    } else {
      LoadBoth(b, entries, more[..|more| - 1]);
      assert (entries + more)[..|entries + more| - 1] == entries + more[..|more| - 1];
    }
  }

  /** In the state it meets, no confirmed chunk adds a new address twice. */
  predicate NeverTwice(w: World, kind: Kind, app: App, chunks: seq<seq<Node>>, replies: seq<Reply>)
    requires |chunks| == |replies|
    decreases chunks
  {
    chunks == [] || kind.Del? ||
    (&& (replies[0].Confirm? ==> Distinct(Unknown(w, chunks[0])))
     && NeverTwice(AddChunk(w, app, chunks[0], replies[0]).0, kind, app, chunks[1..], replies[1..]))
  }

  lemma DelNeverTwice(w: World, app: App, chunks: seq<seq<Node>>, replies: seq<Reply>)
    requires |chunks| == |replies|
    ensures NeverTwice(w, Del, app, chunks, replies)
  {
  }

  /** A chunk that was refused is not continued. */
  lemma {:induction false} NewNodesStops(b: Book, app: App, nodes: seq<Node>, n: nat)
    requires n <= |nodes| && NewNodes(b, app, nodes[..n]).1.Err?
    ensures NewNodes(b, app, nodes) == NewNodes(b, app, nodes[..n])
  {
    if n < |nodes| {
      assert nodes[..|nodes| - 1][..n] == nodes[..n];
      NewNodesStops(b, app, nodes[..|nodes| - 1], n);
    } else {
      assert nodes[..n] == nodes;
    }
  }
}
