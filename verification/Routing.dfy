/** ApplyService: which node receives which operation, and the image pulls added to each plan. */
module Routing {
  import opened Sequences
  import opened Text
  import opened Cluster

  // ---- the instance map -------------------------------------------------------------------

  /** `set` of each listed instance's node; a later row of the same id wins. */
  function Mapped(nodes: map<string, string>, rows: seq<Instance>): map<string, string>
    decreases |rows|
  {
    if rows == [] then nodes else Mapped(nodes[rows[0].id := rows[0].nodeId], rows[1..])
  }

  method SetNodes(nodes: map<string, string>, rows: seq<Instance>) returns (result: map<string, string>)
    ensures result == Mapped(nodes, rows)
  {
    result := nodes;
    for k := 0 to |rows|
      invariant Mapped(result, rows[k..]) == Mapped(nodes, rows)
    {
      result := result[rows[k].id := rows[k].nodeId];
    }
  }

  method BuildInstanceNodeMap(existing: seq<Instance>, remove: seq<Instance>, create: seq<Instance>)
    returns (instanceNodes: map<string, string>)
    ensures instanceNodes == Mapped(Mapped(Mapped(map[], existing), remove), create)
  {
    instanceNodes := SetNodes(map[], existing);
    instanceNodes := SetNodes(instanceNodes, remove);
    instanceNodes := SetNodes(instanceNodes, create);
  }

  lemma {:induction false} MappedAt(nodes: map<string, string>, rows: seq<Instance>, i: Instance)
    requires i in rows && forall j :: j in rows && j.id == i.id ==> j.nodeId == i.nodeId
    ensures i.id in Mapped(nodes, rows) && Mapped(nodes, rows)[i.id] == i.nodeId
    decreases |rows|
  {
    if exists j :: j in rows[1..] && j.id == i.id {
      var j :| j in rows[1..] && j.id == i.id;
      MappedAt(nodes[rows[0].id := rows[0].nodeId], rows[1..], j);
    } else {
      MappedElsewhere(nodes[rows[0].id := rows[0].nodeId], rows[1..], i.id);
    }
  }

  lemma {:induction false} MappedElsewhere(nodes: map<string, string>, rows: seq<Instance>, id: string)
    requires forall j :: j in rows ==> j.id != id
    ensures id in Mapped(nodes, rows) <==> id in nodes
    ensures id in nodes ==> Mapped(nodes, rows)[id] == nodes[id]
    decreases |rows|
  {
    if rows != [] {
      MappedElsewhere(nodes[rows[0].id := rows[0].nodeId], rows[1..], id);
    }
  }

  // ---- one plan per node ------------------------------------------------------------------

  predicate HasInstance(op: Operation) {
    op.Create? || op.Start? || op.Stop? || op.Remove? || op.ConnectNetwork? || op.DisconnectNetwork?
  }

  /** Everything the routing of an apply depends on. */
  datatype Topology = Topology(nodes: seq<string>, instanceNodes: map<string, string>, volumeNodes: map<string, string>)
  {
    predicate HasWork(nodeId: string) {
      nodeId in instanceNodes.Values || |nodes| == 1
    }

    function Owner(volumeName: string): Option<string> {
      if volumeName in volumeNodes && volumeNodes[volumeName] != "" then Some(volumeNodes[volumeName])
      else if |nodes| == 1 then Some(nodes[0])
      else None
    }
  }

  /** `switchOperation`: whether a node receives an operation. */
  predicate Receives(t: Topology, nodeId: string, op: Operation) {
    match op
    case EnsureVolume(_) => t.HasWork(nodeId)
    case RemoveVolume(name) => t.Owner(name) == Some(nodeId)
    case Pull(_) => false
    case _ => op.instanceId != "" && op.instanceId in t.instanceNodes && t.instanceNodes[op.instanceId] == nodeId
  }

  function Routed(t: Topology, nodeId: string): Operation -> bool {
    (op: Operation) => Receives(t, nodeId, op)
  }

  function Receiver(t: Topology, op: Operation): string -> bool {
    (nodeId: string) => Receives(t, nodeId, op)
  }

  /** The operations of one node, in their original order. */
  function FilterOperationsForNode(t: Topology, nodeId: string, ops: seq<Operation>): seq<Operation> {
    Filter(ops, Routed(t, nodeId))
  }

  function TotalPlanned(t: Topology, nodes: seq<string>, ops: seq<Operation>): nat {
    if nodes == [] then 0 else |FilterOperationsForNode(t, nodes[0], ops)| + TotalPlanned(t, nodes[1..], ops)
  }

  /** How many nodes of a list receive an operation. */
  function Copies(t: Topology, nodes: seq<string>, op: Operation): nat {
    |Filter(nodes, Receiver(t, op))|
  }

  function TotalCopies(t: Topology, nodes: seq<string>, ops: seq<Operation>): nat {
    if ops == [] then 0 else Copies(t, nodes, ops[0]) + TotalCopies(t, nodes, ops[1..])
  }

  lemma {:induction false} OneMoreNode(t: Topology, node: string, rest: seq<string>, ops: seq<Operation>)
    ensures TotalCopies(t, [node] + rest, ops) == |FilterOperationsForNode(t, node, ops)| + TotalCopies(t, rest, ops)
  {
    if ops != [] {
      OneMoreNode(t, node, rest, ops[1..]);
      assert ([node] + rest)[1..] == rest;
    }
  }

  lemma {:induction false} NoNodes(t: Topology, ops: seq<Operation>)
    ensures TotalCopies(t, [], ops) == 0
  {
    if ops != [] {
      NoNodes(t, ops[1..]);
    }
  }

  /** The plan sizes add up to the number of receivers of each operation. */
  lemma {:induction false} PlansAddUp(t: Topology, nodes: seq<string>, ops: seq<Operation>)
    ensures TotalPlanned(t, nodes, ops) == TotalCopies(t, nodes, ops)
  {
    if nodes == [] {
      NoNodes(t, ops);
    } else {
      PlansAddUp(t, nodes[1..], ops);
      assert nodes == [nodes[0]] + nodes[1..];
      OneMoreNode(t, nodes[0], nodes[1..], ops);
    }
  }

  function Is(nodeId: string): string -> bool {
    (n: string) => n == nodeId
  }

  lemma {:induction false} OnlyOne(nodes: seq<string>, nodeId: string)
    requires Distinct(nodes)
    ensures |Filter(nodes, Is(nodeId))| == if nodeId in nodes then 1 else 0
  {
    if nodes != [] {
      OnlyOne(nodes[1..], nodeId);
      assert nodes[0] !in nodes[1..];
    }
  }

  function HasWorkOn(t: Topology): string -> bool {
    (n: string) => t.HasWork(n)
  }

  /**
   * How many registered nodes receive an operation: one for an instance operation whose instance is mapped to
   * a registered node, one for a volume removal with a registered owner, every node with work for a volume
   * to ensure, and none otherwise.
   */
  lemma CopiesOf(t: Topology, op: Operation)
    requires Distinct(t.nodes)
    ensures HasInstance(op) ==>
              Copies(t, t.nodes, op) ==
              if op.instanceId != "" && op.instanceId in t.instanceNodes && t.instanceNodes[op.instanceId] in t.nodes
              then 1 else 0
    ensures op.RemoveVolume? ==>
              Copies(t, t.nodes, op) ==
              if t.Owner(op.volumeName).Some? && t.Owner(op.volumeName).value in t.nodes then 1 else 0
    ensures op.EnsureVolume? ==> Copies(t, t.nodes, op) == |Filter(t.nodes, HasWorkOn(t))|
    ensures op.Pull? ==> Copies(t, t.nodes, op) == 0
  {
    match op
    case EnsureVolume(_) => FilterAlike(t.nodes, Receiver(t, op), HasWorkOn(t));
    case Pull(_) => FilterNone(t.nodes, Receiver(t, op));
    case RemoveVolume(name) =>
      if t.Owner(name).Some? {
        FilterAlike(t.nodes, Receiver(t, op), Is(t.Owner(name).value));
        OnlyOne(t.nodes, t.Owner(name).value);
      } else {
        FilterNone(t.nodes, Receiver(t, op));
      }
    case _ =>
      if op.instanceId != "" && op.instanceId in t.instanceNodes {
        FilterAlike(t.nodes, Receiver(t, op), Is(t.instanceNodes[op.instanceId]));
        OnlyOne(t.nodes, t.instanceNodes[op.instanceId]);
      } else {
        FilterNone(t.nodes, Receiver(t, op));
      }
  }

  /** An instance operation whose instance is mapped to a registered node. */
  function Placed(t: Topology): Operation -> bool {
    (op: Operation) =>
      && HasInstance(op) && op.instanceId != ""
      && op.instanceId in t.instanceNodes && t.instanceNodes[op.instanceId] in t.nodes
  }

  /** A volume removal with a registered owner. */
  function Owned(t: Topology): Operation -> bool {
    (op: Operation) => op.RemoveVolume? && t.Owner(op.volumeName).Some? && t.Owner(op.volumeName).value in t.nodes
  }

  function IsEnsure(): Operation -> bool {
    (op: Operation) => op.EnsureVolume?
  }

  lemma OneMore(n: nat, k: nat)
    ensures (n + 1) * k == n * k + k
  {
  }

  lemma CopiesOfKinds(t: Topology, op: Operation)
    requires Distinct(t.nodes)
    ensures Copies(t, t.nodes, op) ==
            (if Placed(t)(op) then 1 else 0) + (if Owned(t)(op) then 1 else 0)
            + (if IsEnsure()(op) then |Filter(t.nodes, HasWorkOn(t))| else 0)
  {
    CopiesOf(t, op);
  }

  /** Three counts, the third one weighed, over a list with one more operation. */
  lemma Counted(t: Topology, op: Operation, rest: seq<Operation>)
    ensures |Filter([op] + rest, Placed(t))| == (if Placed(t)(op) then 1 else 0) + |Filter(rest, Placed(t))|
    ensures |Filter([op] + rest, Owned(t))| == (if Owned(t)(op) then 1 else 0) + |Filter(rest, Owned(t))|
    ensures |Filter([op] + rest, IsEnsure())| == (if IsEnsure()(op) then 1 else 0) + |Filter(rest, IsEnsure())|
  {
    FilterCons(op, rest, Placed(t));
    FilterCons(op, rest, Owned(t));
    FilterCons(op, rest, IsEnsure());
  }

  function Tally(placed: nat, owned: nat, ensured: nat, work: nat): nat {
    placed + owned + ensured * work
  }

  lemma TallyMore(placed: nat, owned: nat, ensured: nat, work: nat, p: nat, o: nat, e: nat)
    requires e <= 1
    ensures Tally(p + placed, o + owned, e + ensured, work) ==
            p + o + (if e == 1 then work else 0) + Tally(placed, owned, ensured, work)
  {
    OneMore(ensured, work);
  }

  predicate AddsUp(t: Topology, ops: seq<Operation>) {
    TotalCopies(t, t.nodes, ops) ==
    Tally(|Filter(ops, Placed(t))|, |Filter(ops, Owned(t))|, |Filter(ops, IsEnsure())|, |Filter(t.nodes, HasWorkOn(t))|)
  }

  lemma AddsUpCons(t: Topology, op: Operation, rest: seq<Operation>)
    requires Distinct(t.nodes) && AddsUp(t, rest)
    ensures AddsUp(t, [op] + rest)
  {
    CopiesOfKinds(t, op);
    Counted(t, op, rest);
    TallyMore(|Filter(rest, Placed(t))|, |Filter(rest, Owned(t))|, |Filter(rest, IsEnsure())|,
              |Filter(t.nodes, HasWorkOn(t))|, if Placed(t)(op) then 1 else 0, if Owned(t)(op) then 1 else 0,
              if IsEnsure()(op) then 1 else 0);
    assert ([op] + rest)[1..] == rest;
  }

  lemma {:induction false} AllAddUp(t: Topology, ops: seq<Operation>)
    requires Distinct(t.nodes)
    ensures AddsUp(t, ops)
  {
    if ops != [] {
      AllAddUp(t, ops[1..]);
      assert ops == [ops[0]] + ops[1..];
      AddsUpCons(t, ops[0], ops[1..]);
    }
  }

  lemma CopiesCounted(t: Topology, ops: seq<Operation>)
    requires Distinct(t.nodes)
    ensures TotalCopies(t, t.nodes, ops) ==
            |Filter(ops, Placed(t))| + |Filter(ops, Owned(t))|
            + |Filter(ops, IsEnsure())| * |Filter(t.nodes, HasWorkOn(t))|
  {
    AllAddUp(t, ops);
  }

  lemma RoutedToItsNode(t: Topology, ops: seq<Operation>, op: Operation, n: string)
    requires op in ops && HasInstance(op) && op.instanceId != "" && op.instanceId in t.instanceNodes
    ensures op in FilterOperationsForNode(t, n, ops) <==> n == t.instanceNodes[op.instanceId]
  {
    assert Routed(t, n)(op) == Receives(t, n, op);
  }

  lemma {:induction false} AllPlacedTotal(t: Topology, ops: seq<Operation>)
    requires Distinct(t.nodes) && forall op :: op in ops ==> Placed(t)(op)
    ensures TotalCopies(t, t.nodes, ops) == |ops|
  {
    if ops != [] {
      assert Placed(t)(ops[0]);
      CopiesOf(t, ops[0]);
      AllPlacedTotal(t, ops[1..]);
    }
  }

  lemma RoutedToPlace(t: Topology, ops: seq<Operation>)
    ensures forall op, n :: op in ops && Placed(t)(op) ==>
              (op in FilterOperationsForNode(t, n, ops) <==> n == t.instanceNodes[op.instanceId])
  {
    forall op, n | op in ops && Placed(t)(op)
      ensures op in FilterOperationsForNode(t, n, ops) <==> n == t.instanceNodes[op.instanceId]
    {
      RoutedToItsNode(t, ops, op, n);
    }
  }

  /**
   * Routing conserves work. Over any list of operations, the sizes of the nodes' plans add up to: the instance
   * operations mapped to a registered node, the volume removals with a registered owner, and the volumes to ensure
   * times the nodes with work. An instance operation is in the plan of exactly its instance's node.
   */
  lemma RoutingConserves(t: Topology, ops: seq<Operation>)
    requires Distinct(t.nodes)
    ensures TotalPlanned(t, t.nodes, ops) ==
            |Filter(ops, Placed(t))| + |Filter(ops, Owned(t))|
            + |Filter(ops, IsEnsure())| * |Filter(t.nodes, HasWorkOn(t))|
    ensures (forall op :: op in ops ==> Placed(t)(op)) ==> TotalPlanned(t, t.nodes, ops) == |ops|
    ensures forall op, n :: op in ops && Placed(t)(op) ==>
              (op in FilterOperationsForNode(t, n, ops) <==> n == t.instanceNodes[op.instanceId])
  {
    PlansAddUp(t, t.nodes, ops);
    CopiesCounted(t, ops);
    if forall op :: op in ops ==> Placed(t)(op) {
      AllPlacedTotal(t, ops);
    }
    RoutedToPlace(t, ops);
  }

  /**
   * Who handles volumes. A volume to ensure is in the plan of every node some instance is mapped to, or of the only
   * node there is; one to remove is in the plan of the node recorded for it, or of the only node if none is recorded.
   */
  lemma VolumePlans(t: Topology, ops: seq<Operation>, n: string, name: string)
    ensures EnsureVolume(name) in FilterOperationsForNode(t, n, ops) <==>
            && EnsureVolume(name) in ops
            && (|t.nodes| == 1 || exists id :: id in t.instanceNodes && t.instanceNodes[id] == n)
    ensures RemoveVolume(name) in FilterOperationsForNode(t, n, ops) <==>
            && RemoveVolume(name) in ops
            && (if name in t.volumeNodes && t.volumeNodes[name] != "" then t.volumeNodes[name] == n
                else t.nodes == [n])
  {
    assert Routed(t, n)(EnsureVolume(name)) == t.HasWork(n);
    assert Routed(t, n)(RemoveVolume(name)) == (t.Owner(name) == Some(n));
    if |t.nodes| == 1 {
      assert t.nodes == [t.nodes[0]];
    }
  }

  /** The map an apply routes by: the built one, overwritten with the nodes the new rows were scheduled to. */
  function RoutingMap(
    existing: seq<Instance>, remove: seq<Instance>, create: seq<Instance>, scheduled: seq<Instance>)
    : map<string, string>
  {
    Mapped(Mapped(Mapped(Mapped(map[], existing), remove), create), scheduled)
  }

  /**
   * A recreated instance keeps its id, and the node it is scheduled to replaces the old one in the map before
   * routing. So the stop and remove of the old container reach the old node only if the replica stays there.
   */
  lemma RecreatedRemovalFollowsTheNewNode(
    existing: seq<Instance>, remove: seq<Instance>, create: seq<Instance>, scheduled: seq<Instance>,
    nodes: seq<string>, volumeNodes: map<string, string>, retired: Instance, added: Instance)
    requires retired in remove && added in scheduled && retired.id == added.id && retired.id != ""
    requires forall j :: j in scheduled && j.id == added.id ==> j.nodeId == added.nodeId
    ensures var t := Topology(nodes, RoutingMap(existing, remove, create, scheduled), volumeNodes);
            && (Receives(t, retired.nodeId, Stop(retired.id)) <==> retired.nodeId == added.nodeId)
            && (Receives(t, retired.nodeId, Remove(retired.id)) <==> retired.nodeId == added.nodeId)
            && Receives(t, added.nodeId, Remove(retired.id))
  {
    MappedAt(Mapped(Mapped(Mapped(map[], existing), remove), create), scheduled, added);
  }

  // ---- pulls ------------------------------------------------------------------------------

  predicate Pullable(image: string) {
    !StartsWith(image, "build://") && !StartsWith(image, "naulite-cr/")
  }

  predicate NeedsPull(op: Operation, pulled: set<string>) {
    op.Create? && Pullable(op.image) && op.image !in pulled
  }

  function WithPulls(ops: seq<Operation>, pulled: set<string>): seq<Operation> {
    if ops == [] then []
    else if NeedsPull(ops[0], pulled) then
      [Pull(ops[0].image), ops[0]] + WithPulls(ops[1..], pulled + {ops[0].image})
    else [ops[0]] + WithPulls(ops[1..], pulled)
  }

  /** Appending one operation to the output, after its pull if it needs one. */
  lemma PullStep(output: seq<Operation>, ops: seq<Operation>, pulled: set<string>)
    requires ops != []
    ensures output + WithPulls(ops, pulled) ==
            if NeedsPull(ops[0], pulled) then
              output + [Pull(ops[0].image), ops[0]] + WithPulls(ops[1..], pulled + {ops[0].image})
            else output + [ops[0]] + WithPulls(ops[1..], pulled)
  {
    if NeedsPull(ops[0], pulled) {
      Regroup(output, [Pull(ops[0].image), ops[0]], WithPulls(ops[1..], pulled + {ops[0].image}));
    } else {
      Regroup(output, [ops[0]], WithPulls(ops[1..], pulled));
    }
  }

  method AddPullOperations(operations: seq<Operation>) returns (output: seq<Operation>)
    ensures output == WithPulls(operations, {})
  {
    output := [];
    var pulledImages: set<string> := {};
    for k := 0 to |operations|
      invariant output + WithPulls(operations[k..], pulledImages) == WithPulls(operations, {})
    {
      var operation := operations[k];
      assert operations[k..][1..] == operations[k + 1..];
      PullStep(output, operations[k..], pulledImages);
      ghost var before := output;
      if operation.Create? && Pullable(operation.image) && operation.image !in pulledImages {
        output := output + [Pull(operation.image)];
        pulledImages := pulledImages + {operation.image};
      }
      output := output + [operation];
      assert output == before + [operation] || output == before + [Pull(operation.image), operation];
    }
    assert output + [] == output;
  }

  function NotPull(): Operation -> bool {
    (op: Operation) => !op.Pull?
  }

  function IsPull(image: string): Operation -> bool {
    (op: Operation) => op == Pull(image)
  }

  /** Some operation creates a container of the image. */
  predicate Creates(ops: seq<Operation>, image: string) {
    exists i :: 0 <= i < |ops| && ops[i].Create? && ops[i].image == image
  }

  /** Pulls are only inserted: without them the plan is the old one. */
  lemma {:induction false} PullsOnlyInsert(ops: seq<Operation>, pulled: set<string>)
    ensures Filter(WithPulls(ops, pulled), NotPull()) == Filter(ops, NotPull())
  {
    if ops != [] {
      var inserted := NeedsPull(ops[0], pulled);
      var rest := WithPulls(ops[1..], if inserted then pulled + {ops[0].image} else pulled);
      PullsOnlyInsert(ops[1..], if inserted then pulled + {ops[0].image} else pulled);
      if inserted {
        FilterConcat([Pull(ops[0].image), ops[0]], rest, NotPull());
        assert [Pull(ops[0].image), ops[0]][1..] == [ops[0]] && [ops[0]][1..] == [];
        assert Filter([Pull(ops[0].image), ops[0]], NotPull()) == [ops[0]];
      }
    }
  }

  lemma CreatesCons(op: Operation, rest: seq<Operation>, image: string)
    ensures Creates([op] + rest, image) <==> (op.Create? && op.image == image) || Creates(rest, image)
  {
    var ops := [op] + rest;
    if Creates(rest, image) {
      var i :| 0 <= i < |rest| && rest[i].Create? && rest[i].image == image;
      assert ops[i + 1] == rest[i];
    }
    if op.Create? && op.image == image {
      assert ops[0] == op;
    }
    if Creates(ops, image) {
      var i :| 0 <= i < |ops| && ops[i].Create? && ops[i].image == image;
      assert i > 0 ==> rest[i - 1] == ops[i];
    }
  }

  /** A pullable image that is created is pulled exactly once, and any other image never. */
  lemma {:induction false} PulledOnce(ops: seq<Operation>, pulled: set<string>, image: string)
    requires forall op :: op in ops ==> !op.Pull?
    ensures |Filter(WithPulls(ops, pulled), IsPull(image))| ==
            if Creates(ops, image) && Pullable(image) && image !in pulled then 1 else 0
  {
    if ops != [] {
      var inserted := NeedsPull(ops[0], pulled);
      var pulled' := if inserted then pulled + {ops[0].image} else pulled;
      var rest := WithPulls(ops[1..], pulled');
      PulledOnce(ops[1..], pulled', image);
      CreatesCons(ops[0], ops[1..], image);
      assert ops == [ops[0]] + ops[1..];
      assert ops[0] in ops;
      if inserted {
        FilterConcat([Pull(ops[0].image), ops[0]], rest, IsPull(image));
        assert [Pull(ops[0].image), ops[0]][1..] == [ops[0]] && [ops[0]][1..] == [];
        assert |Filter([Pull(ops[0].image), ops[0]], IsPull(image))| == if ops[0].image == image then 1 else 0;
      }
    }
  }

  /** Every create of a pullable image comes after that image's pull. */
  lemma {:induction false} PulledBefore(ops: seq<Operation>, pulled: set<string>, i: nat)
    requires i < |WithPulls(ops, pulled)|
    requires var op := WithPulls(ops, pulled)[i]; op.Create? && Pullable(op.image) && op.image !in pulled
    ensures exists j :: 0 <= j < i && WithPulls(ops, pulled)[j] == Pull(WithPulls(ops, pulled)[i].image)
  {
    var out := WithPulls(ops, pulled);
    var inserted := NeedsPull(ops[0], pulled);
    var pulled', head := if inserted then pulled + {ops[0].image} else pulled, if inserted then 2 else 1;
    var rest := WithPulls(ops[1..], pulled');
    assert forall k :: head <= k < |out| ==> out[k] == rest[k - head];
    if inserted && out[i].image == ops[0].image {
      assert i > 0 && out[0] == Pull(out[i].image);
    } else {
      PulledBefore(ops[1..], pulled', i - head);
      var j :| 0 <= j < i - head && rest[j] == Pull(rest[i - head].image);
      assert out[j + head] == Pull(out[i].image);
    }
  }

  /**
   * Which images are pulled: those some operation creates a container of, unless they are built here or come from the
   * platform's own registry.
   */
  lemma {:induction false} PulledIff(ops: seq<Operation>, pulled: set<string>, image: string)
    requires forall op :: op in ops ==> !op.Pull?
    ensures Pull(image) in WithPulls(ops, pulled) <==>
            && (exists op :: op in ops && op.Create? && op.image == image)
            && !("build://" <= image) && !("naulite-cr/" <= image) && image !in pulled
  {
    if ops != [] {
      var inserted := NeedsPull(ops[0], pulled);
      var pulled' := if inserted then pulled + {ops[0].image} else pulled;
      var first, rest := ops[0], WithPulls(ops[1..], pulled');
      assert first in ops && forall op :: op in ops <==> op == first || op in ops[1..];
      PulledIff(ops[1..], pulled', image);
      if inserted {
        assert WithPulls(ops, pulled) == [Pull(first.image), first] + rest;
        assert Pull(image) in WithPulls(ops, pulled) <==> image == first.image || Pull(image) in rest;
      } else {
        assert WithPulls(ops, pulled) == [first] + rest;
        assert Pull(image) in WithPulls(ops, pulled) <==> Pull(image) in rest;
      }
      assert (exists op :: op in ops && op.Create? && op.image == image) <==>
             (first.Create? && first.image == image) || exists op :: op in ops[1..] && op.Create? && op.image == image;
    }
  }
}
