/** The plans of an apply, each run on its own node's runtime. */
module Nodes {
  import opened Sequences
  import opened Cluster
  import opened Planner
  import opened Apply
  import opened Reconciliation
  import opened Refinement
  import opened Replay
  import opened Routing

  /** One runtime for each registered node. */
  type Runtimes = map<string, Runtime>

  /** The plan a node is sent. */
  function PlanFor(t: Topology, node: string, ops: seq<Operation>): seq<Operation> {
    WithPulls(FilterOperationsForNode(t, node, ops), {})
  }

  function NodesReplayed(rts: Runtimes, t: Topology, ops: seq<Operation>): Runtimes {
    map n | n in rts :: Replayed(rts[n], PlanFor(t, n, ops))
  }

  /** The container the tables ask for under an id on a node. */
  function WantedOn(
    node: string, id: string, instances: map<string, Instance>, services: map<string, Service>): Option<Container>
  {
    if id in instances && instances[id].nodeId == node then Wanted(id, instances, services) else None
  }

  /** Every node runs exactly the instances stored for it. */
  ghost predicate NodesMirror(rts: Runtimes, instances: map<string, Instance>, services: map<string, Service>) {
    forall n, id :: n in rts ==> Get(rts[n], id) == WantedOn(n, id, instances, services)
  }

  lemma {:induction false} PullsAt(id: string, c: Option<Container>, ops: seq<Operation>, pulled: set<string>)
    ensures ReplayedAt(id, c, WithPulls(ops, pulled)) == ReplayedAt(id, c, ops)
    decreases |ops|
  {
    if ops != [] {
      var d := StepAt(id, c, ops[0]);
      if NeedsPull(ops[0], pulled) {
        var rest := WithPulls(ops[1..], pulled + {ops[0].image});
        AtConcat(id, c, [Pull(ops[0].image), ops[0]], rest);
        assert [Pull(ops[0].image), ops[0]] == [Pull(ops[0].image)] + [ops[0]];
        AtConcat(id, c, [Pull(ops[0].image)], [ops[0]]);
        AtOne(id, c, Pull(ops[0].image));
        AtOne(id, c, ops[0]);
        PullsAt(id, d, ops[1..], pulled + {ops[0].image});
      } else {
        PullsAt(id, d, ops[1..], pulled);
      }
    }
  }

  /** A node performs either all operations on an id or none of them. */
  lemma {:induction false} FilteredAt(id: string, c: Option<Container>, t: Topology, node: string, ops: seq<Operation>)
    ensures ReplayedAt(id, c, FilterOperationsForNode(t, node, ops)) ==
            if id != "" && id in t.instanceNodes && t.instanceNodes[id] == node then ReplayedAt(id, c, ops) else c
    decreases |ops|
  {
    if ops != [] {
      FilterCons(ops[0], ops[1..], Routed(t, node));
      assert ops == [ops[0]] + ops[1..];
      var d := if Receives(t, node, ops[0]) then StepAt(id, c, ops[0]) else c;
      FilteredAt(id, d, t, node, ops[1..]);
    }
  }

  lemma PlanAt(id: string, rts: Runtimes, t: Topology, node: string, ops: seq<Operation>)
    requires node in rts && "" !in t.instanceNodes
    ensures Get(NodesReplayed(rts, t, ops)[node], id) ==
            if id in t.instanceNodes && t.instanceNodes[id] == node then ReplayedAt(id, Get(rts[node], id), ops)
            else Get(rts[node], id)
  {
    ReplayedGet(rts[node], PlanFor(t, node, ops), id);
    PullsAt(id, Get(rts[node], id), FilterOperationsForNode(t, node, ops), {});
    FilteredAt(id, Get(rts[node], id), t, node, ops);
  }

  // ---- the node an apply routes an instance to ---------------------------------------------

  /** The created rows with the nodes they were scheduled to. */
  function Scheduled(create: seq<Instance>, table: map<string, Instance>): (r: seq<Instance>)
    requires forall i :: i in create ==> i.id in table
    ensures |r| == |create| && forall k :: 0 <= k < |r| ==> r[k] == table[create[k].id]
  {
    seq(|create|, k requires 0 <= k < |create| => table[create[k].id])
  }

  lemma {:induction false} MappedIs(nodes: map<string, string>, rows: seq<Instance>, id: string, node: string)
    requires forall j :: j in rows && j.id == id ==> j.nodeId == node
    ensures id in InstanceIds(rows) ==> id in Mapped(nodes, rows) && Mapped(nodes, rows)[id] == node
    ensures id !in InstanceIds(rows) ==> (id in Mapped(nodes, rows) <==> id in nodes)
                                         && (id in nodes ==> Mapped(nodes, rows)[id] == nodes[id])
  {
    if id in InstanceIds(rows) {
      var i :| i in rows && i.id == id;
      MappedAt(nodes, rows, i);
    } else {
      MappedElsewhere(nodes, rows, id);
    }
  }

  ghost predicate AllCreated(manifest: Manifest, listing: Listing, after: Store)
    requires manifest.WellFormed()
  {
    forall i :: i in InstancesToCreate(manifest, listing) ==> i.id in after.instances
  }

  /** The map an apply routes by once its new rows are scheduled. */
  function RoutesOf(manifest: Manifest, listing: Listing, after: Store): map<string, string>
    requires manifest.WellFormed() && AllCreated(manifest, listing, after)
  {
    RoutingMap(listing.instances, InstancesToRemove(manifest, listing), InstancesToCreate(manifest, listing),
               Scheduled(InstancesToCreate(manifest, listing), after.instances))
  }

  lemma CreatedAreAfter(
    catalog: Catalog, store: Store, sum: Summary, manifest: Manifest, listing: Listing, place: Placement,
    kept: set<string>)
    requires Ready(catalog, store, sum, manifest, listing)
    requires ApplyDiff(store, DiffOf(manifest, listing), place, kept).1 == Done
    ensures AllCreated(manifest, listing, ApplyDiff(store, DiffOf(manifest, listing), place, kept).0)
  {
    forall i | i in InstancesToCreate(manifest, listing)
      ensures i.id in ApplyDiff(store, DiffOf(manifest, listing), place, kept).0.instances
    {
      AddedRows(catalog, store, sum, manifest, listing, place, kept, i.id);
    }
  }

  lemma ListedNode(rows: seq<Instance>, table: map<string, Instance>, id: string)
    requires Lists(rows, table, (i: Instance) => i.id)
    requires forall k :: k in table ==> table[k].id == k
    ensures id in InstanceIds(rows) <==> id in table
    ensures id in table ==> forall i :: i in rows && i.id == id ==> i.nodeId == table[id].nodeId
  {
    if id in table {
      assert table[id] in rows;
    }
  }

  lemma ScheduledNode(create: seq<Instance>, table: map<string, Instance>, id: string)
    requires forall i :: i in create ==> i.id in table
    requires forall k :: k in table ==> table[k].id == k
    ensures id in InstanceIds(Scheduled(create, table)) <==> id in InstanceIds(create)
    ensures id in table ==> forall i :: i in Scheduled(create, table) && i.id == id ==> i.nodeId == table[id].nodeId
  {
    var rows := Scheduled(create, table);
    if id in InstanceIds(create) {
      var k :| 0 <= k < |create| && create[k].id == id;
      assert rows[k] in rows && rows[k].id == id;
    }
    if id in InstanceIds(rows) {
      var k :| 0 <= k < |rows| && rows[k].id == id;
      assert create[k] in create;
    }
  }

  lemma MapsFour(
    existing: seq<Instance>, remove: seq<Instance>, create: seq<Instance>, scheduled: seq<Instance>, id: string,
    before: string, later: string)
    requires forall i :: i in existing && i.id == id ==> i.nodeId == before
    requires forall i :: i in remove && i.id == id ==> i.nodeId == before
    requires forall i :: i in scheduled && i.id == id ==> i.nodeId == later
    requires id in InstanceIds(scheduled) <==> id in InstanceIds(create)
    requires id in InstanceIds(remove) ==> id in InstanceIds(existing)
    ensures var m := RoutingMap(existing, remove, create, scheduled);
            && (id in InstanceIds(scheduled) ==> id in m && m[id] == later)
            && (id !in InstanceIds(scheduled) && id in InstanceIds(existing) ==> id in m && m[id] == before)
            && (id !in InstanceIds(scheduled) && id !in InstanceIds(existing) ==> id !in m)
  {
    var m1 := Mapped(map[], existing);
    MappedIs(map[], existing, id, before);
    MappedIs(m1, remove, id, before);
    if id !in InstanceIds(create) {
      MappedElsewhere(Mapped(m1, remove), create, id);
    }
    MappedIs(Mapped(Mapped(m1, remove), create), scheduled, id, later);
  }

  /** Routing by the rows of two tables: the later table decides where it has a row. */
  lemma RoutedBetween(
    existing: seq<Instance>, remove: seq<Instance>, create: seq<Instance>, before: map<string, Instance>,
    after: map<string, Instance>, id: string)
    requires Lists(existing, before, (i: Instance) => i.id)
    requires forall k :: k in before ==> before[k].id == k
    requires forall k :: k in after ==> after[k].id == k
    requires forall i :: i in remove ==> i in existing
    requires forall i :: i in create ==> i.id in after
    requires id in after && id !in InstanceIds(create) ==> id in before && after[id] == before[id]
    ensures var routes := RoutingMap(existing, remove, create, Scheduled(create, after));
            && (id in routes <==> id in after || id in before)
            && (id in after ==> routes[id] == after[id].nodeId)
            && (id !in after && id in before ==> routes[id] == before[id].nodeId)
  {
    ListedNode(existing, before, id);
    ScheduledNode(create, after, id);
    MapsFour(existing, remove, create, Scheduled(create, after), id,
             if id in before then before[id].nodeId else "", if id in after then after[id].nodeId else "");
  }

  /** A row that is there after an apply and was not created by it was there before. */
  lemma OldRowStays(
    catalog: Catalog, store: Store, sum: Summary, manifest: Manifest, listing: Listing, place: Placement,
    kept: set<string>, id: string)
    requires Ready(catalog, store, sum, manifest, listing)
    requires ApplyDiff(store, DiffOf(manifest, listing), place, kept).1 == Done
    requires id !in InstanceIds(InstancesToCreate(manifest, listing))
    requires id in ApplyDiff(store, DiffOf(manifest, listing), place, kept).0.instances
    ensures id in store.instances
    ensures ApplyDiff(store, DiffOf(manifest, listing), place, kept).0.instances[id] == store.instances[id]
  {
    AddedRows(catalog, store, sum, manifest, listing, place, kept, id);
    AfterFrame(store, manifest, listing, place, kept, id);
  }

  lemma RemovedAreListed(catalog: Catalog, store: Store, sum: Summary, manifest: Manifest, listing: Listing)
    requires Ready(catalog, store, sum, manifest, listing)
    ensures forall i :: i in InstancesToRemove(manifest, listing) ==> i in listing.instances
  {
    forall i | i in InstancesToRemove(manifest, listing) ensures i in listing.instances {
      RemovedAreStored(catalog, store, sum, manifest, listing, i);
    }
  }

  lemma KeyedAfter(
    catalog: Catalog, store: Store, sum: Summary, manifest: Manifest, listing: Listing, place: Placement,
    kept: set<string>)
    requires Ready(catalog, store, sum, manifest, listing)
    ensures var after := ApplyDiff(store, DiffOf(manifest, listing), place, kept).0;
            forall k :: k in after.instances ==> after.instances[k].id == k
  {
    ApplyRefines(catalog, store, sum, manifest, listing, place, kept);
    TablesKeyed(ApplyDiff(store, DiffOf(manifest, listing), place, kept).0, Reconcile(sum, manifest, place, kept).0);
  }

  /** An instance is routed to the node of its new row, or of its old one if it has no new row. */
  lemma RoutedTo(
    catalog: Catalog, store: Store, sum: Summary, manifest: Manifest, listing: Listing, place: Placement,
    kept: set<string>, id: string)
    requires Ready(catalog, store, sum, manifest, listing)
    requires ApplyDiff(store, DiffOf(manifest, listing), place, kept).1 == Done
    ensures AllCreated(manifest, listing, ApplyDiff(store, DiffOf(manifest, listing), place, kept).0)
    ensures var after := ApplyDiff(store, DiffOf(manifest, listing), place, kept).0;
            var routes := RoutesOf(manifest, listing, after);
            && (id in routes <==> id in after.instances || id in store.instances)
            && (id in after.instances ==> routes[id] == after.instances[id].nodeId)
            && (id !in after.instances && id in store.instances ==> routes[id] == store.instances[id].nodeId)
  {
    var after := ApplyDiff(store, DiffOf(manifest, listing), place, kept).0;
    var create, remove := InstancesToCreate(manifest, listing), InstancesToRemove(manifest, listing);
    CreatedAreAfter(catalog, store, sum, manifest, listing, place, kept);
    KeyedAfter(catalog, store, sum, manifest, listing, place, kept);
    TablesKeyed(store, sum);
    RemovedAreListed(catalog, store, sum, manifest, listing);
    if id in after.instances && id !in InstanceIds(create) {
      OldRowStays(catalog, store, sum, manifest, listing, place, kept, id);
    }
    RoutedBetween(listing.instances, remove, create, store.instances, after.instances, id);
  }

  lemma TablesKeyed(store: Store, sum: Summary)
    requires Represents(store, sum)
    ensures forall k :: k in store.instances ==> store.instances[k].id == k
  {
  }

  lemma NonEmptyIds(store: Store, sum: Summary)
    requires Represents(store, sum)
    ensures "" !in store.instances
  {
    if "" in store.instances {
      StoredRow(store, sum, "");
    }
  }

  lemma RoutesNonEmpty(
    catalog: Catalog, store: Store, sum: Summary, manifest: Manifest, listing: Listing, place: Placement,
    kept: set<string>)
    requires Ready(catalog, store, sum, manifest, listing)
    requires ApplyDiff(store, DiffOf(manifest, listing), place, kept).1 == Done
    ensures AllCreated(manifest, listing, ApplyDiff(store, DiffOf(manifest, listing), place, kept).0)
    ensures "" !in RoutesOf(manifest, listing, ApplyDiff(store, DiffOf(manifest, listing), place, kept).0)
  {
    ApplyRefines(catalog, store, sum, manifest, listing, place, kept);
    NonEmptyIds(store, sum);
    NonEmptyIds(ApplyDiff(store, DiffOf(manifest, listing), place, kept).0, Reconcile(sum, manifest, place, kept).0);
    RoutedTo(catalog, store, sum, manifest, listing, place, kept, "");
  }

  // ---- what the nodes run afterwards -------------------------------------------------------

  /** A recreated instance that has left the node. */
  predicate Strayed(store: Store, after: Store, create: seq<Instance>, node: string, id: string) {
    && id in InstanceIds(create) && id in store.instances && id in after.instances
    && store.instances[id].nodeId == node && after.instances[id].nodeId != node
  }

  /** The container of one id on one node after the node has run its plan. */
  lemma NodeRunsAt(
    catalog: Catalog, store: Store, sum: Summary, manifest: Manifest, listing: Listing, place: Placement,
    kept: set<string>, node: string, id: string, c: Option<Container>)
    requires Ready(catalog, store, sum, manifest, listing)
    requires ApplyDiff(store, DiffOf(manifest, listing), place, kept).1 == Done
    requires c == WantedOn(node, id, store.instances, store.services)
    ensures AllCreated(manifest, listing, ApplyDiff(store, DiffOf(manifest, listing), place, kept).0)
    ensures var after := ApplyDiff(store, DiffOf(manifest, listing), place, kept).0;
            var routes := RoutesOf(manifest, listing, after);
            (if id in routes && routes[id] == node then ReplayedAt(id, c, DiffOf(manifest, listing).operations) else c)
            == (if Strayed(store, after, InstancesToCreate(manifest, listing), node, id) then c
                else WantedOn(node, id, after.instances, after.services))
  {
    RoutedTo(catalog, store, sum, manifest, listing, place, kept, id);
    AddedRows(catalog, store, sum, manifest, listing, place, kept, id);
    if id in RetiredTable(store, manifest, listing) {
      AfterFrame(store, manifest, listing, place, kept, id);
      RealisedAt(catalog, store, sum, manifest, listing, place, kept, id, Wanted(id, store.instances, store.services));
    } else {
      OtherRealised(catalog, store, sum, manifest, listing, place, kept, id, c);
    }
  }

  /** What a node is left with under an id: the old container of a strayed replica, else what the tables want. */
  function LeftOn(store: Store, after: Store, create: seq<Instance>, node: string, id: string): Option<Container> {
    if Strayed(store, after, create, node, id) then Wanted(id, store.instances, store.services)
    else WantedOn(node, id, after.instances, after.services)
  }

  lemma NodeRan(
    catalog: Catalog, store: Store, sum: Summary, manifest: Manifest, listing: Listing, place: Placement,
    kept: set<string>, rts: Runtimes, t: Topology, n: string, id: string)
    requires Ready(catalog, store, sum, manifest, listing)
    requires ApplyDiff(store, DiffOf(manifest, listing), place, kept).1 == Done
    requires AllCreated(manifest, listing, ApplyDiff(store, DiffOf(manifest, listing), place, kept).0)
    requires t.instanceNodes == RoutesOf(manifest, listing, ApplyDiff(store, DiffOf(manifest, listing), place, kept).0)
    requires "" !in t.instanceNodes
    requires n in rts && Get(rts[n], id) == WantedOn(n, id, store.instances, store.services)
    ensures Get(NodesReplayed(rts, t, DiffOf(manifest, listing).operations)[n], id) ==
            LeftOn(store, ApplyDiff(store, DiffOf(manifest, listing), place, kept).0,
                   InstancesToCreate(manifest, listing), n, id)
  {
    NodeRunsAt(catalog, store, sum, manifest, listing, place, kept, n, id, Get(rts[n], id));
    PlanAt(id, rts, t, n, DiffOf(manifest, listing).operations);
  }

  lemma MirrorIffNoneStrayed(rts: Runtimes, store: Store, sum: Summary, after: Store, create: seq<Instance>)
    requires Represents(store, sum)
    requires forall n, id :: n in rts ==> Get(rts[n], id) == LeftOn(store, after, create, n, id)
    ensures NodesMirror(rts, after.instances, after.services) <==>
            forall n, id :: n in rts ==> !Strayed(store, after, create, n, id)
  {
    forall n, id | n in rts
      ensures Get(rts[n], id) == WantedOn(n, id, after.instances, after.services) <==>
              !Strayed(store, after, create, n, id)
    {
      assert Get(rts[n], id) == LeftOn(store, after, create, n, id);
      if id in store.instances {
        RowWanted(store, sum, id);
      }
    }
  }

  /**
   * The plans realise the apply on the nodes, up to moved replicas. If every node ran the instances stored for it
   * and the apply finishes, then once each node has run its plan it runs the instances the new tables store for it,
   * and besides them exactly the old containers of recreated replicas that were scheduled to another node.
   */
  lemma PlansRealiseApply(
    catalog: Catalog, store: Store, sum: Summary, manifest: Manifest, listing: Listing, place: Placement,
    kept: set<string>, rts: Runtimes, nodes: seq<string>, volumeNodes: map<string, string>)
    requires Ready(catalog, store, sum, manifest, listing)
    requires ApplyDiff(store, DiffOf(manifest, listing), place, kept).1 == Done
    requires NodesMirror(rts, store.instances, store.services)
    ensures var after := ApplyDiff(store, DiffOf(manifest, listing), place, kept).0;
            AllCreated(manifest, listing, after) &&
            var t := Topology(nodes, RoutesOf(manifest, listing, after), volumeNodes);
            var create, rts' := InstancesToCreate(manifest, listing),
                NodesReplayed(rts, t, DiffOf(manifest, listing).operations);
            && (forall n, id :: n in rts ==> Get(rts'[n], id) == LeftOn(store, after, create, n, id))
            && (NodesMirror(rts', after.instances, after.services) <==>
                  forall n, id :: n in rts ==> !Strayed(store, after, create, n, id))
  {
    var after := ApplyDiff(store, DiffOf(manifest, listing), place, kept).0;
    RoutesNonEmpty(catalog, store, sum, manifest, listing, place, kept);
    var t := Topology(nodes, RoutesOf(manifest, listing, after), volumeNodes);
    var create, rts' := InstancesToCreate(manifest, listing),
        NodesReplayed(rts, t, DiffOf(manifest, listing).operations);
    forall n, id | n in rts
      ensures Get(rts'[n], id) == LeftOn(store, after, create, n, id)
    {
      NodeRan(catalog, store, sum, manifest, listing, place, kept, rts, t, n, id);
    }
    MirrorIffNoneStrayed(rts', store, sum, after, create);
  }
}
