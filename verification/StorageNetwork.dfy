/** The storage network as an object: uploads and handoffs that update the nodes' tables in place. */
module StorageNetwork {
  import opened Wrappers
  import opened Bytes
  import opened Workflow

  // What is left when the nodes in `done` that are no targets have dropped the id.
  ghost function Pruned(filled: map<(NodeId, DataId), StoredObject>, d: DataId, targets: seq<NodeId>, done: seq<NodeId>)
    : (left: map<(NodeId, DataId), StoredObject>)
  {
    map key | key in filled && (key.1 != d || key.0 in targets || key.0 !in done) :: filled[key]
  }

  lemma PruneStart(filled: map<(NodeId, DataId), StoredObject>, d: DataId, targets: seq<NodeId>)
    ensures Pruned(filled, d, targets, []) == filled
  {
  }

  lemma PruneStep(filled: map<(NodeId, DataId), StoredObject>, d: DataId, targets: seq<NodeId>, done: seq<NodeId>,
      n: NodeId)
    ensures Pruned(filled, d, targets, done + [n])
            == if n in targets then Pruned(filled, d, targets, done) else Pruned(filled, d, targets, done) - {(n, d)}
  {
    assert forall m :: m in done + [n] <==> m in done || m == n;
  }

  lemma PruneEnd(net: Network, d: DataId, targets: seq<NodeId>)
    requires Tabled(net)
    ensures Network(net.nodes, Pruned(net.objects, d, targets, net.nodes)) == RemoveOthers(net, d, targets)
    ensures Tabled(RemoveOthers(net, d, targets))
  {
    assert Pruned(net.objects, d, targets, net.nodes) == RemoveOthers(net, d, targets).objects;
  }

  class InMemoryStorageNetwork {
    var nodes: seq<NodeId>
    var objects: map<(NodeId, DataId), StoredObject>

    function Contents(): (net: Network)
      reads this
    {
      Network(nodes, objects)
    }

    ghost predicate Valid()
      reads this
    {
      Tabled(Contents())
    }

    constructor ()
      ensures Valid() && Contents() == Network([], map[])
    {
      nodes, objects := [], map[];
    }

    method InsertObject(n: NodeId, d: DataId, o: StoredObject)
      requires Valid()
      modifies this
      ensures Valid() && Contents() == Put(old(Contents()), n, d, o)
    {
      AddKeeps(nodes, n);
      nodes := AddNode(nodes, n);
      objects := objects[(n, d) := o];
    }

    // Node after node, until one already has the id; nothing is taken back.
    method UploadLoop(d: DataId, targets: seq<NodeId>, fragments: seq<StoredObject>)
      returns (r: Result<(), WorkflowError>)
      requires Valid() && |targets| == |fragments|
      modifies this
      ensures Valid() && (r, Contents()) == UploadFrom(old(Contents()), d, targets, fragments, 0)
    {
      hide Put, AddNode, Tabled;
      for k := 0 to |targets|
        invariant Valid() && UploadFrom(Contents(), d, targets, fragments, k) == UploadFrom(old(Contents()), d, targets,
            fragments, 0)
      {
        if (targets[k], d) in objects {
          OpenTable(targets[k]);
          return Err(DataAlreadyExists);
        }
        InsertObject(targets[k], d, fragments[k]);
      }
      return Ok(());
    }

    // The table of a node, made when there is none.
    method OpenTable(n: NodeId)
      requires Valid()
      modifies this`nodes
      ensures Valid() && nodes == AddNode(old(nodes), n)
    {
      AddKeeps(nodes, n);
      nodes := AddNode(nodes, n);
    }

    method UploadSecretShares(d: DataId, version: nat, targets: seq<NodeId>, payloads: seq<seq<Byte>>)
      returns (r: Result<(), WorkflowError>)
      requires Valid() && |targets| == |payloads|
      modifies this
      ensures Valid() && (r, Contents()) == UploadShares(old(Contents()), d, version, targets, payloads)
    {
      if targets == [] || version == 0 { return Err(InvalidInput); }
      r := UploadLoop(d, targets, Objects(SecretSharing, version, payloads));
    }

    method UploadFheCiphertext(d: DataId, version: nat, ciphertext: seq<Byte>, targets: seq<NodeId>)
      returns (r: Result<(), WorkflowError>)
      requires Valid()
      modifies this
      ensures Valid() && (r, Contents()) == UploadCiphertext(old(Contents()), d, version, ciphertext, targets)
    {
      if targets == [] || version == 0 || ciphertext == [] { return Err(InvalidInput); }
      r := UploadLoop(d, targets, Objects(Homomorphic, version, Copies(ciphertext, |targets|)));
    }

    // The two loops of a handoff: the targets get their fragments, then everybody else loses theirs.
    method MoveLoops(d: DataId, targets: seq<NodeId>, fragments: seq<StoredObject>)
      requires Valid() && |targets| == |fragments|
      modifies this
      ensures Valid() && Contents() == RemoveOthers(PutAll(old(Contents()), d, targets, fragments, |targets|), d,
          targets)
    {
      hide Put, RemoveOthers, Tabled;
      for k := 0 to |targets|
        invariant Valid() && Contents() == PutAll(old(Contents()), d, targets, fragments, k)
      {
        InsertObject(targets[k], d, fragments[k]);
      }
      RemoveLoop(d, targets);
    }

    method RemoveLoop(d: DataId, targets: seq<NodeId>)
      requires Valid()
      modifies this`objects
      ensures Valid() && Contents() == RemoveOthers(old(Contents()), d, targets)
    {
      ghost var filled := objects;
      PruneStart(filled, d, targets);
      hide Pruned;
      for i := 0 to |nodes|
        invariant objects == Pruned(filled, d, targets, nodes[..i])
      {
        PruneStep(filled, d, targets, nodes[..i], nodes[i]);
        assert nodes[..i + 1] == nodes[..i] + [nodes[i]];
        if nodes[i] !in targets {
          objects := objects - {(nodes[i], d)};
        }
      }
      assert nodes[..|nodes|] == nodes;
      PruneEnd(Network(nodes, filled), d, targets);
    }

    method HandoffData(d: DataId, targets: seq<NodeId>) returns (r: Result<nat, WorkflowError>)
      requires Valid()
      modifies this
      ensures Valid() && (r, Contents()) == Handoff(old(Contents()), d, targets)
    {
      hide Alike, CryptoHandoff, RemoveOthers, PutAll, Locations;
      var sources := Fragments(Contents(), d);
      if targets == [] { return Err(InvalidInput); }
      if sources == [] { return Err(DataNotFound); }
      if !Alike(sources) { return Err(InconsistentFragments); }
      var payloads := CryptoHandoff(sources[0].representation, PayloadsIn(sources), |targets|);
      if payloads.Err? { return Err(payloads.error); }
      var version := sources[0].version + 1;
      if version >= U64 { return Err(Overflow); }
      MoveLoops(d, targets, Objects(sources[0].representation, version, payloads.value));
      return Ok(version);
    }
  }
}
