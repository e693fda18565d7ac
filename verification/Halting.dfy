/** Agents stop a plan at the first operation that fails: which lists and plans run through, and which do not. */
module Halting {
  import opened Sequences
  import opened Cluster
  import opened Planner
  import opened Apply
  import opened Reconciliation
  import opened Refinement
  import opened Convergence
  import opened Replay
  import opened Routing
  import opened Nodes
  import opened Aborted

  /** Operations that fail without a container of their name; creating and removing never do. */
  predicate Needs(op: Operation) {
    op.Start? || op.Stop? || op.ConnectNetwork? || op.DisconnectNetwork?
  }

  predicate Fails(rt: Runtime, op: Operation) {
    Needs(op) && op.instanceId !in rt
  }

  datatype Progress = Progress(rt: Runtime, finished: bool)

  /** A plan as an agent performs it, up to its first failing operation. */
  function Performed(rt: Runtime, ops: seq<Operation>): Progress
    decreases |ops|
  {
    if ops == [] then Progress(rt, true)
    else if Fails(rt, ops[0]) then Progress(rt, false)
    else Performed(Step(rt, ops[0]), ops[1..])
  }

  // ---- one container at a time ------------------------------------------------------------

  /** No operation on an id meets it without a container. */
  predicate RunsAt(id: string, c: Option<Container>, ops: seq<Operation>)
    decreases |ops|
  {
    ops == [] || (!(On(id, ops[0]) && Needs(ops[0]) && c.None?) && RunsAt(id, StepAt(id, c, ops[0]), ops[1..]))
  }

  ghost predicate RunsThrough(rt: Runtime, ops: seq<Operation>) {
    forall id :: RunsAt(id, Get(rt, id), ops)
  }

  lemma StepRuns(rt: Runtime, ops: seq<Operation>)
    requires ops != [] && !Fails(rt, ops[0])
    ensures RunsThrough(rt, ops) <==> RunsThrough(Step(rt, ops[0]), ops[1..])
  {
    var rt' := Step(rt, ops[0]);
    forall id ensures RunsAt(id, Get(rt, id), ops) <==> RunsAt(id, Get(rt', id), ops[1..]) {
      assert Get(rt', id) == StepAt(id, Get(rt, id), ops[0]);
    }
  }

  /** A plan runs through exactly when it does under every id, and then it does all of its operations. */
  lemma {:induction false} FinishesIff(rt: Runtime, ops: seq<Operation>)
    ensures Performed(rt, ops).finished <==> RunsThrough(rt, ops)
    ensures Performed(rt, ops).finished ==> Performed(rt, ops).rt == Replayed(rt, ops)
    decreases |ops|
  {
    if ops != [] {
      if Fails(rt, ops[0]) {
        assert !RunsAt(ops[0].instanceId, Get(rt, ops[0].instanceId), ops);
      } else {
        StepRuns(rt, ops);
        FinishesIff(Step(rt, ops[0]), ops[1..]);
      }
    }
  }

  lemma {:induction false} RunsConcat(id: string, c: Option<Container>, a: seq<Operation>, b: seq<Operation>)
    ensures RunsAt(id, c, a + b) <==> RunsAt(id, c, a) && RunsAt(id, ReplayedAt(id, c, a), b)
    decreases |a|
  {
    if a == [] {
      assert a + b == b;
    } else {
      assert (a + b)[1..] == a[1..] + b;
      RunsConcat(id, StepAt(id, c, a[0]), a[1..], b);
    }
  }

  lemma RunsOne(id: string, c: Option<Container>, op: Operation)
    ensures RunsAt(id, c, [op]) <==> !(On(id, op) && Needs(op) && c.None?)
  {
    assert [op][1..] == [];
  }

  lemma {:induction false} OthersRun(id: string, c: Option<Container>, ops: seq<Operation>)
    requires forall op :: op in ops ==> !On(id, op)
    ensures RunsAt(id, c, ops)
    decreases |ops|
  {
    if ops != [] {
      assert ops[0] in ops;
      OthersRun(id, c, ops[1..]);
    }
  }

  // ---- the groups of the list, under one id ------------------------------------------------

  lemma RetireRuns(id: string, c: Option<Container>, i: Instance)
    ensures RunsAt(id, c, RetireOperations()(i)) <==> (i.id == id ==> c.Some?)
  {
    assert RetireOperations()(i) == [Stop(i.id)] + [Remove(i.id)];
    RunsConcat(id, c, [Stop(i.id)], [Remove(i.id)]);
    RunsOne(id, c, Stop(i.id));
    RunsOne(id, ReplayedAt(id, c, [Stop(i.id)]), Remove(i.id));
  }

  /** Retirements run through exactly if each container is there and retired once. */
  lemma {:induction false} RetirementsRun(id: string, c: Option<Container>, rows: seq<Instance>)
    requires |Filter(rows, Named(id))| <= 1
    ensures RunsAt(id, c, FlatMap(rows, RetireOperations())) <==> (id in InstanceIds(rows) ==> c.Some?)
    decreases |rows|
  {
    if rows != [] {
      var i, f := rows[0], RetireOperations();
      RunsConcat(id, c, f(i), FlatMap(rows[1..], f));
      RetireRuns(id, c, i);
      RetireOne(id, c, i);
      RetirementsRun(id, ReplayedAt(id, c, f(i)), rows[1..]);
      if i.id == id {
        NoneNamed(rows[1..], id);
      }
      assert InstanceIds(rows) == {i.id} + InstanceIds(rows[1..]);
    }
  }

  lemma NoneNamed(rows: seq<Instance>, id: string)
    ensures |Filter(rows, Named(id))| == 0 <==> id !in InstanceIds(rows)
  {
    var named := Filter(rows, Named(id));
    if named != [] {
      assert named[0] in named;
    }
    if id in InstanceIds(rows) {
      var i :| i in rows && i.id == id;
      assert i in named;
    }
  }

  predicate Wires(op: Operation) {
    op.ConnectNetwork? || op.DisconnectNetwork?
  }

  lemma {:induction false} WiringRuns(id: string, c: Option<Container>, ops: seq<Operation>)
    requires forall op :: op in ops ==> Wires(op)
    ensures RunsAt(id, c, ops) <==> c.Some? || forall op :: op in ops ==> !On(id, op)
    decreases |ops|
  {
    if ops != [] {
      assert ops[0] in ops;
      WiringRuns(id, StepAt(id, c, ops[0]), ops[1..]);
      assert forall op :: op in ops <==> op == ops[0] || op in ops[1..];
    }
  }

  lemma {:induction false} NetworksWire(id: string, networks: seq<string>)
    ensures forall op :: op in Connects(id, networks) <==>
              op.ConnectNetwork? && op.instanceId == id && op.networkName in networks
    ensures forall op :: op in Disconnects(id, networks) <==>
              op.DisconnectNetwork? && op.instanceId == id && op.networkName in networks
  {
    if networks != [] {
      NetworksWire(id, networks[1..]);
      assert forall n :: n in networks <==> n == networks[0] || n in networks[1..];
    }
  }

  /** Deploying always runs through. */
  lemma DeployRuns(id: string, c: Option<Container>, manifest: Manifest, i: Instance)
    ensures RunsAt(id, c, DeployOperations(manifest)(i))
  {
    var networks := NetworksOf(manifest, i.serviceName);
    var create := Create(i.id, i.serviceName, i.image, DeploySpecOf(manifest, i.serviceName));
    var wires := Connects(i.id, networks);
    RunsConcat(id, c, [create] + wires, [Start(i.id)]);
    RunsConcat(id, c, [create], wires);
    AtConcat(id, c, [create], wires);
    AtOne(id, c, create);
    RunsOne(id, c, create);
    NetworksWire(i.id, networks);
    var d := StepAt(id, c, create);
    WiringRuns(id, d, wires);
    ConnectsAt(id, d, i.id, networks);
    RunsOne(id, ReplayedAt(id, d, wires), Start(i.id));
  }

  lemma {:induction false} DeploysRun(id: string, c: Option<Container>, manifest: Manifest, rows: seq<Instance>)
    ensures RunsAt(id, c, FlatMap(rows, DeployOperations(manifest)))
    decreases |rows|
  {
    if rows != [] {
      var f := DeployOperations(manifest);
      RunsConcat(id, c, f(rows[0]), FlatMap(rows[1..], f));
      DeployRuns(id, c, manifest, rows[0]);
      DeploysRun(id, ReplayedAt(id, c, f(rows[0])), manifest, rows[1..]);
    }
  }

  // ---- no row is retired twice ---------------------------------------------------------------

  lemma {:induction false} OneNamed(rows: seq<Instance>, id: string)
    requires Distinct(rows) && forall i, j :: i in rows && j in rows && i.id == id && j.id == id ==> i == j
    ensures |Filter(rows, Named(id))| <= 1
  {
    if rows != [] {
      OneNamed(rows[1..], id);
      assert rows[0] !in rows[1..];
      if rows[0].id == id {
        forall i | i in rows[1..] ensures i.id != id {
          assert i in rows && rows[0] in rows;
        }
        FilterNone(rows[1..], Named(id));
      }
    }
  }

  lemma RetiredForDistinct(manifest: Manifest, listing: Listing, s: Service)
    requires Distinct(listing.instances)
    ensures Distinct(RetiredFor(manifest, listing)(s)) && Distinct(AllOf(listing)(s))
  {
    var existing := InstancesOf(listing.instances, s.id);
    FilterDistinct(listing.instances, IsInstanceOf(s.id));
    var serviceId := if existing == [] then "" else existing[0].serviceId;
    SortByIndexContents(serviceId, existing);
    forall i, j | 0 <= i < j < |existing|
      ensures SortByIndex(serviceId, existing)[i] != SortByIndex(serviceId, existing)[j]
    {
      SortedDistinct(serviceId, existing, i, j);
    }
  }

  lemma RetiredForOwned(manifest: Manifest, listing: Listing, s: Service)
    ensures forall y :: y in RetiredFor(manifest, listing)(s) ==> y in InstancesOf(listing.instances, s.id)
  {
    var existing := InstancesOf(listing.instances, s.id);
    var serviceId := if existing == [] then "" else existing[0].serviceId;
    forall y ensures y in existing <==> y in SortByIndex(serviceId, existing) {
      SortedMember(serviceId, existing, y);
    }
  }

  /** Of one service, the blocks of a group hold at most one service's worth of rows. */
  lemma BlockDistinct(xs: seq<Service>, f: Service -> seq<Instance>, sid: string)
    requires OwnedBlocks(xs, f) && forall x :: x in xs ==> Distinct(f(x))
    ensures Distinct(Filter(FlatMap(xs, f), IsInstanceOf(sid)))
  {
    if s :| s in xs && s.id == sid {
      OwnBlock(xs, f, s);
    } else {
      NoBlock(xs, f, sid);
    }
  }

  lemma DroppedDistinct(catalog: Catalog, store: Store, sum: Summary, manifest: Manifest, listing: Listing)
    requires Ready(catalog, store, sum, manifest, listing)
    ensures OwnedBlocks(ServicesToRemove(manifest, listing), AllOf(listing))
  {
    var rows := ServicesToRemove(manifest, listing);
    FilterDistinct(listing.services, IsDropped(manifest, ServiceIds(DesiredServices(manifest))));
    forall i, j | 0 <= i < j < |rows| ensures rows[i].id != rows[j].id {
      assert rows[i] in rows && rows[j] in rows;
      assert store.services[rows[i].id] == rows[i] && store.services[rows[j].id] == rows[j];
    }
  }

  lemma UpdatedDistinct(manifest: Manifest, listing: Listing)
    requires manifest.WellFormed()
    ensures OwnedBlocks(ServicesToUpdate(manifest, listing), RetiredFor(manifest, listing))
  {
    FilteredDesiredIds(manifest, IsChanged(manifest, listing.services));
    forall x, y | x in ServicesToUpdate(manifest, listing) && y in RetiredFor(manifest, listing)(x)
      ensures y.serviceId == x.id
    {
      RetiredForOwned(manifest, listing, x);
    }
  }

  lemma NotBothGroups(
    catalog: Catalog, store: Store, sum: Summary, manifest: Manifest, listing: Listing, sid: string)
    requires Ready(catalog, store, sum, manifest, listing)
    ensures || (forall s :: s in ServicesToRemove(manifest, listing) ==> s.id != sid)
            || (forall s :: s in ServicesToUpdate(manifest, listing) ==> s.id != sid)
  {
    if s :| s in ServicesToRemove(manifest, listing) && s.id == sid {
      RemoveMember(catalog, store, sum, manifest, listing, s);
      forall u | u in ServicesToUpdate(manifest, listing) ensures u.id != sid {
        UpdatedDeclared(catalog, store, sum, manifest, listing, u);
        DroppedIsUndeclared(catalog, sum, manifest, u.id);
      }
    }
  }

  /** Two groups of which at most one has the service hold no row of it twice. */
  lemma GroupsDistinct(
    removed: seq<Service>, f: Service -> seq<Instance>, updated: seq<Service>, g: Service -> seq<Instance>, sid: string)
    requires OwnedBlocks(removed, f) && OwnedBlocks(updated, g)
    requires forall s :: Distinct(f(s)) && Distinct(g(s))
    requires (forall s :: s in removed ==> s.id != sid) || (forall s :: s in updated ==> s.id != sid)
    ensures Distinct(Filter(FlatMap(removed, f) + FlatMap(updated, g), IsInstanceOf(sid)))
  {
    var a, b := Filter(FlatMap(removed, f), IsInstanceOf(sid)), Filter(FlatMap(updated, g), IsInstanceOf(sid));
    BlockDistinct(removed, f, sid);
    BlockDistinct(updated, g, sid);
    FilterConcat(FlatMap(removed, f), FlatMap(updated, g), IsInstanceOf(sid));
    if forall s :: s in removed ==> s.id != sid {
      NoBlock(removed, f, sid);
      assert [] + b == b;
    } else {
      NoBlock(updated, g, sid);
      assert a + [] == a;
    }
  }

  lemma ServiceRetiredOnce(
    catalog: Catalog, store: Store, sum: Summary, manifest: Manifest, listing: Listing, sid: string)
    requires Ready(catalog, store, sum, manifest, listing)
    ensures Distinct(Filter(InstancesToRemove(manifest, listing), IsInstanceOf(sid)))
  {
    DroppedDistinct(catalog, store, sum, manifest, listing);
    UpdatedDistinct(manifest, listing);
    forall s ensures Distinct(AllOf(listing)(s)) && Distinct(RetiredFor(manifest, listing)(s)) {
      RetiredForDistinct(manifest, listing, s);
    }
    NotBothGroups(catalog, store, sum, manifest, listing, sid);
    GroupsDistinct(ServicesToRemove(manifest, listing), AllOf(listing), ServicesToUpdate(manifest, listing),
                   RetiredFor(manifest, listing), sid);
  }

  lemma RetiredOnce(catalog: Catalog, store: Store, sum: Summary, manifest: Manifest, listing: Listing, id: string)
    requires Ready(catalog, store, sum, manifest, listing)
    ensures |Filter(InstancesToRemove(manifest, listing), Named(id))| <= 1
  {
    var remove := InstancesToRemove(manifest, listing);
    forall i | i in remove && i.id == id ensures id in store.instances && i == store.instances[id] {
      RemovedAreStored(catalog, store, sum, manifest, listing, i);
    }
    if id in store.instances {
      var sid := store.instances[id].serviceId;
      ServiceRetiredOnce(catalog, store, sum, manifest, listing, sid);
      FilterFilter(remove, IsInstanceOf(sid), Named(id));
      OneNamed(Filter(remove, IsInstanceOf(sid)), id);
    } else {
      FilterNone(remove, Named(id));
    }
  }

  // ---- in-place network changes --------------------------------------------------------------

  /** A surviving instance of a declared service whose networks change. */
  predicate Rewired(store: Store, manifest: Manifest, listing: Listing, id: string)
    requires manifest.WellFormed()
  {
    && id in RetiredTable(store, manifest, listing)
    && store.instances[id].serviceId in store.services && Declared(manifest, store.instances[id].serviceId).Some?
    && Elements(store.services[store.instances[id].serviceId].networks)
       != Elements(Declared(manifest, store.instances[id].serviceId).value.networks)
  }

  /** An instance is rewired by some operation exactly if the network sets differ. */
  lemma RewireHits(i: Instance, previous: seq<string>, next: seq<string>)
    ensures forall op :: op in Rewire(previous, next)(i) ==> Wires(op) && op.instanceId == i.id
    ensures Rewire(previous, next)(i) != [] <==> Elements(previous) != Elements(next)
  {
    var dropped, added := Filter(previous, Absent(next)), Filter(next, Absent(previous));
    NetworksWire(i.id, dropped);
    NetworksWire(i.id, added);
    if Elements(previous) != Elements(next) {
      if n :| n in previous && n !in next {
        assert n in dropped && DisconnectNetwork(i.id, n) in Disconnects(i.id, dropped);
      } else {
        var n :| n in next && n !in previous;
        assert n in added && ConnectNetwork(i.id, n) in Connects(i.id, added);
      }
    } else {
      forall n ensures n in previous <==> n in next {
        assert n in Elements(previous) <==> n in Elements(next);
      }
      FilterNone(previous, Absent(next));
      FilterNone(next, Absent(previous));
    }
  }

  lemma ServiceHits(
    catalog: Catalog, store: Store, sum: Summary, manifest: Manifest, listing: Listing, s: Service, id: string)
    requires Ready(catalog, store, sum, manifest, listing) && s in ServicesToUpdate(manifest, listing)
    ensures forall op :: op in NetworkPlan(manifest, listing)(s) ==> Wires(op)
    ensures (exists op :: op in NetworkPlan(manifest, listing)(s) && On(id, op)) <==>
            Rewired(store, manifest, listing, id) && store.instances[id].serviceId == s.id
  {
    var removed := InstanceIds(InstancesToRemove(manifest, listing));
    NetworkOperationsAre(catalog, store, sum, manifest, listing, s);
    UpdatedDeclared(catalog, store, sum, manifest, listing, s);
    var row := sum.services[s.id];
    if NeedsRecreate(manifest, row, s) {
      if id in RetiredTable(store, manifest, listing) {
        RecreatedHasNone(catalog, store, sum, manifest, listing, s, id);
      }
    } else {
      RowsKeyed(catalog, store, sum, manifest, listing);
      Survivors(store, manifest, listing, s.id, id);
      RewireAllHits(Filter(listing.instances, Survives(s.id, removed)), row.networks, s.networks, id);
    }
  }

  lemma RewireAllHits(rows: seq<Instance>, previous: seq<string>, next: seq<string>, id: string)
    ensures forall op :: op in FlatMap(rows, Rewire(previous, next)) ==> Wires(op)
    ensures (exists op :: op in FlatMap(rows, Rewire(previous, next)) && On(id, op)) <==>
            id in InstanceIds(rows) && Elements(previous) != Elements(next)
  {
    var f := Rewire(previous, next);
    forall op | op in FlatMap(rows, f)
      ensures Wires(op) && exists i :: i in rows && op in f(i) && op.instanceId == i.id
    {
      var i :| i in rows && op in f(i);
      RewireHits(i, previous, next);
    }
    if op :| op in FlatMap(rows, f) && On(id, op) {
      var i :| i in rows && op in f(i) && op.instanceId == i.id;
      RewireHits(i, previous, next);
    }
    if id in InstanceIds(rows) && Elements(previous) != Elements(next) {
      var i :| i in rows && i.id == id;
      RewireHits(i, previous, next);
      FlatMapMember(rows, f, i, f(i)[0]);
      assert On(id, f(i)[0]);
    }
  }

  lemma RewiredIsUpdated(
    catalog: Catalog, store: Store, sum: Summary, manifest: Manifest, listing: Listing, id: string)
    requires Ready(catalog, store, sum, manifest, listing) && Rewired(store, manifest, listing, id)
    ensures Declared(manifest, store.instances[id].serviceId).value in ServicesToUpdate(manifest, listing)
  {
    var s := Declared(manifest, store.instances[id].serviceId).value;
    UpdateMember(catalog, store, sum, manifest, listing, s);
    DeclaredRow(catalog, sum, manifest, s);
  }

  lemma NetworksRun(
    catalog: Catalog, store: Store, sum: Summary, manifest: Manifest, listing: Listing, id: string,
    c: Option<Container>)
    requires Ready(catalog, store, sum, manifest, listing)
    ensures RunsAt(id, c, FlatMap(ServicesToUpdate(manifest, listing), NetworkPlan(manifest, listing))) <==>
            (Rewired(store, manifest, listing, id) ==> c.Some?)
  {
    var rows, f := ServicesToUpdate(manifest, listing), NetworkPlan(manifest, listing);
    forall op | op in FlatMap(rows, f)
      ensures Wires(op) && (On(id, op) ==> Rewired(store, manifest, listing, id))
    {
      var s :| s in rows && op in f(s);
      ServiceHits(catalog, store, sum, manifest, listing, s, id);
    }
    if Rewired(store, manifest, listing, id) {
      var s := Declared(manifest, store.instances[id].serviceId).value;
      RewiredIsUpdated(catalog, store, sum, manifest, listing, id);
      ServiceHits(catalog, store, sum, manifest, listing, s, id);
      var op :| op in f(s) && On(id, op);
      FlatMapMember(rows, f, s, op);
    }
    WiringRuns(id, c, FlatMap(rows, f));
  }

  // ---- the whole list ------------------------------------------------------------------------

  lemma SixGroupsRun(
    id: string, c: Option<Container>, a: seq<Operation>, b: seq<Operation>, v: seq<Operation>, d: seq<Operation>,
    e: seq<Operation>, f: seq<Operation>)
    requires forall op :: op in b ==> !On(id, op)
    requires forall op :: op in v ==> !On(id, op)
    requires forall o :: RunsAt(id, o, e)
    requires forall o :: RunsAt(id, o, f)
    ensures RunsAt(id, c, a + b + v + d + e + f) <==> RunsAt(id, c, a) && RunsAt(id, ReplayedAt(id, c, a), d)
  {
    RunsConcat(id, c, a + b + v + d + e, f);
    RunsConcat(id, c, a + b + v + d, e);
    RunsConcat(id, c, a + b + v, d);
    RunsConcat(id, c, a + b, v);
    RunsConcat(id, c, a, b);
    AtConcat(id, c, a + b, v);
    AtConcat(id, c, a, b);
    OthersRun(id, ReplayedAt(id, c, a), b);
    NoEffect(id, ReplayedAt(id, c, a), b);
    OthersRun(id, ReplayedAt(id, c, a), v);
    NoEffect(id, ReplayedAt(id, c, a), v);
  }

  /** Under one id the list runs through exactly if what it retires or rewires has a container. */
  lemma ListRunsAt(
    catalog: Catalog, store: Store, sum: Summary, manifest: Manifest, listing: Listing, id: string,
    c: Option<Container>)
    requires Ready(catalog, store, sum, manifest, listing)
    ensures RunsAt(id, c, DiffOf(manifest, listing).operations) <==>
            (id in InstanceIds(InstancesToRemove(manifest, listing)) || Rewired(store, manifest, listing, id)
             ==> c.Some?)
  {
    var remove, update := InstancesToRemove(manifest, listing), ServicesToUpdate(manifest, listing);
    var create, redeploy := InstancesToCreate(manifest, listing), InstancesToRedeploy(manifest, listing);
    var f := DeployOperations(manifest);
    forall o ensures RunsAt(id, o, FlatMap(create, f)) && RunsAt(id, o, FlatMap(redeploy, f)) {
      DeploysRun(id, o, manifest, create);
      DeploysRun(id, o, manifest, redeploy);
    }
    SixGroupsRun(id, c, FlatMap(remove, RetireOperations()),
                 FlatMap(VolumesToRemove(manifest, listing), RemoveVolumeOperations()),
                 FlatMap(VolumesToEnsure(manifest, listing), EnsureVolumeOperations()),
                 FlatMap(update, NetworkPlan(manifest, listing)), FlatMap(create, f), FlatMap(redeploy, f));
    RetiredOnce(catalog, store, sum, manifest, listing, id);
    RetirementsRun(id, c, remove);
    RetiredAt(id, c, remove);
    NetworksRun(catalog, store, sum, manifest, listing, id, ReplayedAt(id, c, FlatMap(remove, RetireOperations())));
  }

  /**
   * When the list of an apply runs through: an agent that stops at the first failing operation performs all of
   * it exactly if every instance that is retired, and every surviving one whose networks change, has a container.
   * Then it has done what replaying the list does.
   */
  lemma ListRunsIff(
    catalog: Catalog, store: Store, sum: Summary, manifest: Manifest, listing: Listing, rt: Runtime)
    requires Ready(catalog, store, sum, manifest, listing)
    ensures Performed(rt, DiffOf(manifest, listing).operations).finished <==>
            forall id ::
              (id in InstanceIds(InstancesToRemove(manifest, listing)) || Rewired(store, manifest, listing, id)
               ==> id in rt)
    ensures Performed(rt, DiffOf(manifest, listing).operations).finished ==>
              Performed(rt, DiffOf(manifest, listing).operations).rt
              == Replayed(rt, DiffOf(manifest, listing).operations)
  {
    var ops := DiffOf(manifest, listing).operations;
    FinishesIff(rt, ops);
    forall id
      ensures RunsAt(id, Get(rt, id), ops) <==>
              (id in InstanceIds(InstancesToRemove(manifest, listing)) || Rewired(store, manifest, listing, id)
               ==> id in rt)
    {
      ListRunsAt(catalog, store, sum, manifest, listing, id, Get(rt, id));
    }
  }

  /** From a runtime that runs what the tables say, every apply's list runs through and realises the apply. */
  lemma PerformedRealisesApply(
    catalog: Catalog, store: Store, sum: Summary, manifest: Manifest, listing: Listing, place: Placement,
    kept: set<string>, rt: Runtime)
    requires Ready(catalog, store, sum, manifest, listing)
    requires Mirrors(rt, store.instances, store.services)
    requires ApplyDiff(store, DiffOf(manifest, listing), place, kept).1 == Done
    ensures var after := ApplyDiff(store, DiffOf(manifest, listing), place, kept).0;
            var performed := Performed(rt, DiffOf(manifest, listing).operations);
            performed.finished && Mirrors(performed.rt, after.instances, after.services)
  {
    ListRunsIff(catalog, store, sum, manifest, listing, rt);
    forall id | id in store.instances ensures id in rt {
      RowWanted(store, sum, id);
      assert Get(rt, id) == Wanted(id, store.instances, store.services);
    }
    forall id | id in InstanceIds(InstancesToRemove(manifest, listing)) ensures id in store.instances {
      RemovedStored(catalog, store, sum, manifest, listing, id);
    }
    MirrorsHosts(rt, store.instances, store.services);
    OperationsRealiseApply(catalog, store, sum, manifest, listing, place, kept, rt);
  }

  lemma MirrorsHosts(rt: Runtime, instances: map<string, Instance>, services: map<string, Service>)
    requires Mirrors(rt, instances, services)
    ensures Hosts(rt, instances, services)
  {
    forall id ensures HostedAt(Get(rt, id), id, instances, services) {
      assert Get(rt, id) == Wanted(id, instances, services);
    }
  }

  // ---- plans on nodes ------------------------------------------------------------------------

  lemma {:induction false} FilteredRuns(
    id: string, c: Option<Container>, t: Topology, node: string, ops: seq<Operation>)
    requires "" !in t.instanceNodes
    ensures RunsAt(id, c, FilterOperationsForNode(t, node, ops)) <==>
            (id in t.instanceNodes && t.instanceNodes[id] == node ==> RunsAt(id, c, ops))
    decreases |ops|
  {
    if ops != [] {
      FilterCons(ops[0], ops[1..], Routed(t, node));
      assert ops == [ops[0]] + ops[1..];
      FilteredRuns(id, if Receives(t, node, ops[0]) then StepAt(id, c, ops[0]) else c, t, node, ops[1..]);
    }
  }

  lemma {:induction false} PullsRun(id: string, c: Option<Container>, ops: seq<Operation>, pulled: set<string>)
    ensures RunsAt(id, c, WithPulls(ops, pulled)) <==> RunsAt(id, c, ops)
    decreases |ops|
  {
    if ops != [] {
      var d := StepAt(id, c, ops[0]);
      if NeedsPull(ops[0], pulled) {
        var pull, rest := Pull(ops[0].image), WithPulls(ops[1..], pulled + {ops[0].image});
        assert [pull, ops[0]] + rest == [pull] + ([ops[0]] + rest);
        RunsConcat(id, c, [pull], [ops[0]] + rest);
        RunsOne(id, c, pull);
        AtOne(id, c, pull);
        PullsRun(id, d, ops[1..], pulled + {ops[0].image});
      } else {
        PullsRun(id, d, ops[1..], pulled);
      }
    }
  }

  lemma PlanRunsAt(id: string, c: Option<Container>, t: Topology, node: string, ops: seq<Operation>)
    requires "" !in t.instanceNodes
    ensures RunsAt(id, c, PlanFor(t, node, ops)) <==>
            (id in t.instanceNodes && t.instanceNodes[id] == node ==> RunsAt(id, c, ops))
  {
    PullsRun(id, c, FilterOperationsForNode(t, node, ops), {});
    FilteredRuns(id, c, t, node, ops);
  }

  /** A recreated instance that comes to the node from another one. */
  predicate Arrived(store: Store, after: Store, create: seq<Instance>, node: string, id: string) {
    && id in InstanceIds(create) && id in store.instances && id in after.instances
    && store.instances[id].nodeId != node && after.instances[id].nodeId == node
  }

  lemma NodeRunsThroughAt(
    catalog: Catalog, store: Store, sum: Summary, manifest: Manifest, listing: Listing, place: Placement,
    kept: set<string>, node: string, id: string, c: Option<Container>)
    requires Ready(catalog, store, sum, manifest, listing)
    requires ApplyDiff(store, DiffOf(manifest, listing), place, kept).1 == Done
    requires c == WantedOn(node, id, store.instances, store.services)
    ensures AllCreated(manifest, listing, ApplyDiff(store, DiffOf(manifest, listing), place, kept).0)
    ensures var after := ApplyDiff(store, DiffOf(manifest, listing), place, kept).0;
            var routes := RoutesOf(manifest, listing, after);
            (id in routes && routes[id] == node ==> RunsAt(id, c, DiffOf(manifest, listing).operations)) <==>
            !Arrived(store, after, InstancesToCreate(manifest, listing), node, id)
  {
    RoutedTo(catalog, store, sum, manifest, listing, place, kept, id);
    AddedRows(catalog, store, sum, manifest, listing, place, kept, id);
    ListRunsAt(catalog, store, sum, manifest, listing, id, c);
    RemovedStored(catalog, store, sum, manifest, listing, id);
    if id in store.instances {
      RowWanted(store, sum, id);
    }
    if id in RetiredTable(store, manifest, listing) {
      AfterFrame(store, manifest, listing, place, kept, id);
    }
  }

  lemma NodeFinishes(
    catalog: Catalog, store: Store, sum: Summary, manifest: Manifest, listing: Listing, place: Placement,
    kept: set<string>, rts: Runtimes, t: Topology, n: string)
    requires Ready(catalog, store, sum, manifest, listing)
    requires ApplyDiff(store, DiffOf(manifest, listing), place, kept).1 == Done
    requires AllCreated(manifest, listing, ApplyDiff(store, DiffOf(manifest, listing), place, kept).0)
    requires t.instanceNodes == RoutesOf(manifest, listing, ApplyDiff(store, DiffOf(manifest, listing), place, kept).0)
    requires "" !in t.instanceNodes && n in rts
    requires forall id :: Get(rts[n], id) == WantedOn(n, id, store.instances, store.services)
    ensures Performed(rts[n], PlanFor(t, n, DiffOf(manifest, listing).operations)).finished <==>
            forall id :: !Arrived(store, ApplyDiff(store, DiffOf(manifest, listing), place, kept).0,
                                  InstancesToCreate(manifest, listing), n, id)
  {
    var ops, after := DiffOf(manifest, listing).operations, ApplyDiff(store, DiffOf(manifest, listing), place, kept).0;
    FinishesIff(rts[n], PlanFor(t, n, ops));
    forall id
      ensures RunsAt(id, Get(rts[n], id), PlanFor(t, n, ops)) <==>
              !Arrived(store, after, InstancesToCreate(manifest, listing), n, id)
    {
      PlanRunsAt(id, Get(rts[n], id), t, n, ops);
      NodeRunsThroughAt(catalog, store, sum, manifest, listing, place, kept, n, id, Get(rts[n], id));
    }
  }

  /** The topology an apply routes by. */
  function TopologyOf(
    manifest: Manifest, listing: Listing, after: Store, nodes: seq<string>, volumeNodes: map<string, string>): Topology
    requires manifest.WellFormed() && AllCreated(manifest, listing, after)
  {
    Topology(nodes, RoutesOf(manifest, listing, after), volumeNodes)
  }

  /**
   * Which plans run through. If every node ran the instances stored for it and the apply finishes, an agent that stops
   * at the first failing operation performs all of its node's plan exactly if no recreated instance comes to the node
   * from another one: its stop fails there. Every other node ends as `Nodes.LeftOn` says.
   */
  lemma PlanRunsIff(
    catalog: Catalog, store: Store, sum: Summary, manifest: Manifest, listing: Listing, place: Placement,
    kept: set<string>, rts: Runtimes, nodes: seq<string>, volumeNodes: map<string, string>, n: string)
    requires Ready(catalog, store, sum, manifest, listing)
    requires ApplyDiff(store, DiffOf(manifest, listing), place, kept).1 == Done
    requires NodesMirror(rts, store.instances, store.services) && n in rts
    ensures var after := ApplyDiff(store, DiffOf(manifest, listing), place, kept).0;
            AllCreated(manifest, listing, after) &&
            var create := InstancesToCreate(manifest, listing);
            var t := TopologyOf(manifest, listing, after, nodes, volumeNodes);
            var performed := Performed(rts[n], PlanFor(t, n, DiffOf(manifest, listing).operations));
            && (performed.finished <==> forall id :: !Arrived(store, after, create, n, id))
            && (performed.finished ==> forall id :: Get(performed.rt, id) == LeftOn(store, after, create, n, id))
  {
    var after := ApplyDiff(store, DiffOf(manifest, listing), place, kept).0;
    RoutesNonEmpty(catalog, store, sum, manifest, listing, place, kept);
    var t := TopologyOf(manifest, listing, after, nodes, volumeNodes);
    NodeFinishes(catalog, store, sum, manifest, listing, place, kept, rts, t, n);
    var plan := PlanFor(t, n, DiffOf(manifest, listing).operations);
    FinishesIff(rts[n], plan);
    if Performed(rts[n], plan).finished {
      forall id
        ensures Get(Performed(rts[n], plan).rt, id) == LeftOn(store, after, InstancesToCreate(manifest, listing), n, id)
      {
        NodeRan(catalog, store, sum, manifest, listing, place, kept, rts, t, n, id);
      }
    }
  }

  // ---- what a plan that stops leaves out -----------------------------------------------------

  lemma {:induction false} StopsInside(rt: Runtime, a: seq<Operation>, b: seq<Operation>)
    requires !Performed(rt, a).finished
    ensures Performed(rt, a + b) == Performed(rt, a)
    decreases |a|
  {
    assert (a + b)[1..] == a[1..] + b && (a + b)[0] == a[0];
    if !Fails(rt, a[0]) {
      StopsInside(Step(rt, a[0]), a[1..], b);
    }
  }

  lemma {:induction false} NothingCreated(rt: Runtime, ops: seq<Operation>, id: string)
    requires id !in rt && forall op :: op in ops ==> !op.Create?
    ensures id !in Performed(rt, ops).rt
    decreases |ops|
  {
    if ops != [] && !Fails(rt, ops[0]) {
      assert ops[0] in ops;
      NothingCreated(Step(rt, ops[0]), ops[1..], id);
    }
  }

  /** A list that begins with retirements stops before it creates anything, if one of them has no container. */
  lemma MissingRetirement(rt: Runtime, a: seq<Operation>, b: seq<Operation>, id: string)
    requires id !in rt && !RunsAt(id, None, a) && forall op :: op in a ==> !op.Create?
    ensures !Performed(rt, a + b).finished && id !in Performed(rt, a + b).rt
  {
    FinishesIff(rt, a);
    assert Get(rt, id) == None;
    StopsInside(rt, a, b);
    NothingCreated(rt, a, id);
  }

  lemma {:induction false} PullsBehind(a: seq<Operation>, b: seq<Operation>)
    requires forall op :: op in a ==> !op.Create?
    ensures WithPulls(a + b, {}) == a + WithPulls(b, {})
    decreases |a|
  {
    if a == [] {
      assert a + b == b;
      assert [] + WithPulls(b, {}) == WithPulls(b, {});
    } else {
      assert a[0] in a && (a + b)[0] == a[0] && (a + b)[1..] == a[1..] + b;
      PullsBehind(a[1..], b);
      assert [a[0]] + (a[1..] + WithPulls(b, {})) == a + WithPulls(b, {});
    }
  }

  function Retirements(manifest: Manifest, listing: Listing): seq<Operation>
    requires manifest.WellFormed()
  {
    FlatMap(InstancesToRemove(manifest, listing), RetireOperations())
  }

  lemma RetirementsFirst(manifest: Manifest, listing: Listing) returns (rest: seq<Operation>)
    requires manifest.WellFormed()
    ensures DiffOf(manifest, listing).operations == Retirements(manifest, listing) + rest
    ensures forall op :: op in Retirements(manifest, listing) ==> !op.Create?
  {
    rest := SixFromFirst(
      Retirements(manifest, listing), FlatMap(VolumesToRemove(manifest, listing), RemoveVolumeOperations()),
      FlatMap(VolumesToEnsure(manifest, listing), EnsureVolumeOperations()),
      FlatMap(ServicesToUpdate(manifest, listing), NetworkPlan(manifest, listing)),
      FlatMap(InstancesToCreate(manifest, listing), DeployOperations(manifest)),
      FlatMap(InstancesToRedeploy(manifest, listing), DeployOperations(manifest)));
  }

  lemma SixFromFirst(
    a: seq<Operation>, b: seq<Operation>, v: seq<Operation>, d: seq<Operation>, e: seq<Operation>, f: seq<Operation>)
    returns (rest: seq<Operation>)
    ensures a + b + v + d + e + f == a + rest
  {
    rest := b + v + d + e + f;
    assert a + b + v == a + (b + v);
    assert a + (b + v) + d == a + (b + v + d);
    assert a + (b + v + d) + e == a + (b + v + d + e);
    assert a + (b + v + d + e) + f == a + (b + v + d + e + f);
  }

  lemma RetiredFails(
    catalog: Catalog, store: Store, sum: Summary, manifest: Manifest, listing: Listing, id: string)
    requires Ready(catalog, store, sum, manifest, listing)
    requires id in InstanceIds(InstancesToRemove(manifest, listing))
    ensures !RunsAt(id, None, Retirements(manifest, listing))
  {
    RetiredOnce(catalog, store, sum, manifest, listing, id);
    RetirementsRun(id, None, InstancesToRemove(manifest, listing));
  }

  /** Where a retired instance has no container, the list never gets to creating one. */
  lemma ListStops(
    catalog: Catalog, store: Store, sum: Summary, manifest: Manifest, listing: Listing, rt: Runtime, id: string)
    requires Ready(catalog, store, sum, manifest, listing)
    requires id in InstanceIds(InstancesToRemove(manifest, listing)) && id !in rt
    ensures !Performed(rt, DiffOf(manifest, listing).operations).finished
    ensures id !in Performed(rt, DiffOf(manifest, listing).operations).rt
  {
    var rest := RetirementsFirst(manifest, listing);
    RetiredFails(catalog, store, sum, manifest, listing, id);
    MissingRetirement(rt, Retirements(manifest, listing), rest, id);
  }

  lemma PlanStops(
    catalog: Catalog, store: Store, sum: Summary, manifest: Manifest, listing: Listing, rt: Runtime, t: Topology,
    n: string, id: string)
    requires Ready(catalog, store, sum, manifest, listing)
    requires id in InstanceIds(InstancesToRemove(manifest, listing)) && id !in rt
    requires "" !in t.instanceNodes && id in t.instanceNodes && t.instanceNodes[id] == n
    ensures id !in Performed(rt, PlanFor(t, n, DiffOf(manifest, listing).operations)).rt
  {
    var rest := RetirementsFirst(manifest, listing);
    var all := Retirements(manifest, listing);
    var a, b := FilterOperationsForNode(t, n, all), FilterOperationsForNode(t, n, rest);
    FilterConcat(all, rest, Routed(t, n));
    RetiredFails(catalog, store, sum, manifest, listing, id);
    FilteredRuns(id, None, t, n, all);
    PullsBehind(a, b);
    MissingRetirement(rt, a, WithPulls(b, {}), id);
  }

  // ---- all nodes -----------------------------------------------------------------------------

  /** The nodes' runtimes once every agent has performed its plan. */
  function NodesPerformed(rts: Runtimes, t: Topology, ops: seq<Operation>): Runtimes {
    map n | n in rts :: Performed(rts[n], PlanFor(t, n, ops)).rt
  }

  lemma ArrivedIsMissing(
    catalog: Catalog, store: Store, sum: Summary, manifest: Manifest, listing: Listing, place: Placement,
    kept: set<string>, rts: Runtimes, t: Topology, n: string, id: string)
    requires Ready(catalog, store, sum, manifest, listing)
    requires ApplyDiff(store, DiffOf(manifest, listing), place, kept).1 == Done
    requires AllCreated(manifest, listing, ApplyDiff(store, DiffOf(manifest, listing), place, kept).0)
    requires t.instanceNodes == RoutesOf(manifest, listing, ApplyDiff(store, DiffOf(manifest, listing), place, kept).0)
    requires "" !in t.instanceNodes && NodesMirror(rts, store.instances, store.services) && n in rts
    requires Arrived(store, ApplyDiff(store, DiffOf(manifest, listing), place, kept).0,
                     InstancesToCreate(manifest, listing), n, id)
    ensures var after := ApplyDiff(store, DiffOf(manifest, listing), place, kept).0;
            !NodesMirror(NodesPerformed(rts, t, DiffOf(manifest, listing).operations), after.instances, after.services)
  {
    var after := ApplyDiff(store, DiffOf(manifest, listing), place, kept).0;
    var rts' := NodesPerformed(rts, t, DiffOf(manifest, listing).operations);
    RoutedTo(catalog, store, sum, manifest, listing, place, kept, id);
    AddedRows(catalog, store, sum, manifest, listing, place, kept, id);
    RemovedStored(catalog, store, sum, manifest, listing, id);
    assert Get(rts[n], id) == WantedOn(n, id, store.instances, store.services);
    PlanStops(catalog, store, sum, manifest, listing, rts[n], t, n, id);
    ApplyRefines(catalog, store, sum, manifest, listing, place, kept);
    RowWanted(after, Reconcile(sum, manifest, place, kept).0, id);
    assert Get(rts'[n], id) != WantedOn(n, id, after.instances, after.services);
  }

  /**
   * The plans realise the apply exactly when no recreated replica moves. If every node ran the instances stored for it
   * and the apply finishes, then once every agent has performed its plan, stopping at a failing operation, the nodes
   * run the instances the new tables store for them exactly if no recreated instance left or came to one of them.
   */
  lemma PerformedPlansMirrorIff(
    catalog: Catalog, store: Store, sum: Summary, manifest: Manifest, listing: Listing, place: Placement,
    kept: set<string>, rts: Runtimes, nodes: seq<string>, volumeNodes: map<string, string>)
    requires Ready(catalog, store, sum, manifest, listing)
    requires ApplyDiff(store, DiffOf(manifest, listing), place, kept).1 == Done
    requires NodesMirror(rts, store.instances, store.services)
    ensures var after := ApplyDiff(store, DiffOf(manifest, listing), place, kept).0;
            AllCreated(manifest, listing, after) &&
            var create := InstancesToCreate(manifest, listing);
            var t := TopologyOf(manifest, listing, after, nodes, volumeNodes);
            NodesMirror(NodesPerformed(rts, t, DiffOf(manifest, listing).operations), after.instances, after.services)
            <==> forall n, id :: n in rts ==>
                   !Strayed(store, after, create, n, id) && !Arrived(store, after, create, n, id)
  {
    var after := ApplyDiff(store, DiffOf(manifest, listing), place, kept).0;
    RoutesNonEmpty(catalog, store, sum, manifest, listing, place, kept);
    var create, t := InstancesToCreate(manifest, listing), TopologyOf(manifest, listing, after, nodes, volumeNodes);
    var rts' := NodesPerformed(rts, t, DiffOf(manifest, listing).operations);
    if n, id :| n in rts && Arrived(store, after, create, n, id) {
      ArrivedIsMissing(catalog, store, sum, manifest, listing, place, kept, rts, t, n, id);
    } else {
      forall n, id | n in rts ensures Get(rts'[n], id) == LeftOn(store, after, create, n, id) {
        PlanRunsIff(catalog, store, sum, manifest, listing, place, kept, rts, nodes, volumeNodes, n);
      }
      MirrorIffNoneStrayed(rts', store, sum, after, create);
    }
  }

  // ---- abort and retry -----------------------------------------------------------------------

  /** Whatever the retry rewires was there before the abort. */
  lemma RetryRewires(
    catalog: Catalog, store: Store, sum: Summary, manifest: Manifest, listing: Listing, done: seq<Service>,
    seen: Store, relisting: Listing, id: string)
    requires Interrupted(catalog, store, sum, manifest, listing, done, seen, relisting)
    requires Rewired(seen, manifest, relisting, id)
    ensures id in store.instances
  {
    var sid := seen.instances[id].serviceId;
    if Taken(manifest, done, sid) {
      TakenStored(catalog, store, sum, manifest, listing, done, seen, relisting, id);
    } else {
      UntakenRow(catalog, store, sum, manifest, listing, done, seen, relisting, id);
    }
  }

  lemma RetryRuns(
    catalog: Catalog, store: Store, sum: Summary, manifest: Manifest, listing: Listing, done: seq<Service>,
    seen: Store, relisting: Listing, rt: Runtime)
    requires Interrupted(catalog, store, sum, manifest, listing, done, seen, relisting)
    requires Mirrors(rt, store.instances, store.services)
    ensures Performed(rt, DiffOf(manifest, relisting).operations).finished <==>
            forall id :: id in InstanceIds(InstancesToRemove(manifest, relisting)) ==> id in store.instances
    ensures Performed(rt, DiffOf(manifest, relisting).operations).finished ==>
              Performed(rt, DiffOf(manifest, relisting).operations).rt
              == Replayed(rt, DiffOf(manifest, relisting).operations)
  {
    ListRunsIff(catalog, seen, Midway(manifest, sum, done), manifest, relisting, rt);
    forall id ensures id in rt <==> id in store.instances {
      MirroredIs(rt, store, sum, id);
    }
    forall id | Rewired(seen, manifest, relisting, id) ensures id in store.instances {
      RetryRewires(catalog, store, sum, manifest, listing, done, seen, relisting, id);
    }
  }

  lemma MirroredIs(rt: Runtime, store: Store, sum: Summary, id: string)
    requires Represents(store, sum) && Mirrors(rt, store.instances, store.services)
    ensures id in rt <==> id in store.instances
  {
    assert Get(rt, id) == Wanted(id, store.instances, store.services);
    if id in store.instances {
      RowWanted(store, sum, id);
    }
  }

  /** What the retry retires it wants again. */
  lemma RetryRetires(
    catalog: Catalog, store: Store, sum: Summary, manifest: Manifest, listing: Listing, done: seq<Service>,
    seen: Store, relisting: Listing, place: Placement, kept: set<string>, id: string)
    requires Interrupted(catalog, store, sum, manifest, listing, done, seen, relisting)
    requires ApplyDiff(seen, DiffOf(manifest, relisting), place, kept).1 == Done
    requires id in InstanceIds(InstancesToRemove(manifest, relisting))
    ensures var final := ApplyDiff(seen, DiffOf(manifest, relisting), place, kept).0;
            Wanted(id, final.instances, final.services).Some?
  {
    var mid, final := Midway(manifest, sum, done), ApplyDiff(seen, DiffOf(manifest, relisting), place, kept).0;
    RemovedStored(catalog, seen, mid, manifest, relisting, id);
    SeenStays(catalog, store, sum, manifest, listing, done, seen, relisting, place, kept, id);
    ApplyRefines(catalog, seen, mid, manifest, relisting, place, kept);
    RowWanted(final, Reconcile(mid, manifest, place, kept).0, id);
  }

  /**
   * Abort and retry with an agent that stops at a failing operation. If the runtime ran what the tables said, an
   * apply stopped for want of a target, agents reported whatever they like and the retry of the manifest finishes,
   * then the runtime runs what the final tables say exactly when every instance the retry retires was stored before
   * the abort and `Aborted.MendedAt` holds under every id. The list runs through exactly under the first of the two.
   */
  lemma PerformedRetryMirrorsIff(
    catalog: Catalog, store: Store, sum: Summary, manifest: Manifest, listing: Listing, place: Placement,
    kept: set<string>, rt: Runtime, seen: Store, relisting: Listing, place': Placement, kept': set<string>)
    requires Ready(catalog, store, sum, manifest, listing)
    requires Mirrors(rt, store.instances, store.services)
    requires ApplyDiff(store, DiffOf(manifest, listing), place, kept).1 != Done
    requires SameRows(ApplyDiff(store, DiffOf(manifest, listing), place, kept).0, seen)
    requires IsListing(relisting, seen)
    requires ApplyDiff(seen, DiffOf(manifest, relisting), place', kept').1 == Done
    ensures var final := ApplyDiff(seen, DiffOf(manifest, relisting), place', kept').0;
            var performed := Performed(rt, DiffOf(manifest, relisting).operations);
            && (performed.finished <==>
                  forall id :: id in InstanceIds(InstancesToRemove(manifest, relisting)) ==> id in store.instances)
            && (Mirrors(performed.rt, final.instances, final.services) <==>
                  && (forall id :: id in InstanceIds(InstancesToRemove(manifest, relisting)) ==> id in store.instances)
                  && (forall id :: MendedAt(manifest, store, seen, id)))
  {
    var done := AbortInterrupts(catalog, store, sum, manifest, listing, place, kept, seen, relisting);
    RetryRuns(catalog, store, sum, manifest, listing, done, seen, relisting, rt);
    if Performed(rt, DiffOf(manifest, relisting).operations).finished {
      MirrorsAfterRetryIff(catalog, store, sum, manifest, listing, place, kept, rt, seen, relisting, place', kept');
    } else {
      RetryStops(catalog, store, sum, manifest, listing, done, seen, relisting, place', kept', rt);
    }
  }

  lemma RetryStops(
    catalog: Catalog, store: Store, sum: Summary, manifest: Manifest, listing: Listing, done: seq<Service>,
    seen: Store, relisting: Listing, place: Placement, kept: set<string>, rt: Runtime)
    requires Interrupted(catalog, store, sum, manifest, listing, done, seen, relisting)
    requires Mirrors(rt, store.instances, store.services)
    requires ApplyDiff(seen, DiffOf(manifest, relisting), place, kept).1 == Done
    requires exists id :: id in InstanceIds(InstancesToRemove(manifest, relisting)) && id !in store.instances
    ensures var final := ApplyDiff(seen, DiffOf(manifest, relisting), place, kept).0;
            !Mirrors(Performed(rt, DiffOf(manifest, relisting).operations).rt, final.instances, final.services)
  {
    var id :| id in InstanceIds(InstancesToRemove(manifest, relisting)) && id !in store.instances;
    var final := ApplyDiff(seen, DiffOf(manifest, relisting), place, kept).0;
    MirroredIs(rt, store, sum, id);
    ListStops(catalog, seen, Midway(manifest, sum, done), manifest, relisting, rt, id);
    RetryRetires(catalog, store, sum, manifest, listing, done, seen, relisting, place, kept, id);
    var rt' := Performed(rt, DiffOf(manifest, relisting).operations).rt;
    assert Get(rt', id) != Wanted(id, final.instances, final.services);
  }
}
