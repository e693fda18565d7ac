/** The operation list of a diff, run on an abstract container runtime. */
module Replay {
  import opened Sequences
  import opened Naming
  import opened Json
  import opened Cluster
  import opened Planner
  import opened Apply
  import opened Reconciliation
  import opened Refinement
  import opened Convergence

  /** A container; the deploy spec is kept with sorted keys because a container does not know their order. */
  datatype Container = Container(image: string, spec: Json, networks: set<string>, running: bool)

  type Runtime = map<string, Container>

  /** One operation as an agent performs it: creating under a name in use is skipped. */
  function Step(rt: Runtime, op: Operation): Runtime {
    match op
    case Create(id, _, image, spec) => if id in rt then rt else rt[id := Container(image, Sorted(spec), {}, false)]
    case Start(id) => if id in rt then rt[id := rt[id].(running := true)] else rt
    case Stop(id) => if id in rt then rt[id := rt[id].(running := false)] else rt
    case Remove(id) => rt - {id}
    case ConnectNetwork(id, n) => if id in rt then rt[id := rt[id].(networks := rt[id].networks + {n})] else rt
    case DisconnectNetwork(id, n) => if id in rt then rt[id := rt[id].(networks := rt[id].networks - {n})] else rt
    case _ => rt
  }

  function Replayed(rt: Runtime, ops: seq<Operation>): Runtime
    decreases |ops|
  {
    if ops == [] then rt else Replayed(Step(rt, ops[0]), ops[1..])
  }

  // ---- one container at a time ------------------------------------------------------------

  function Get(rt: Runtime, id: string): Option<Container> {
    if id in rt then Some(rt[id]) else None
  }

  predicate On(id: string, op: Operation) {
    match op
    case EnsureVolume(_) => false
    case RemoveVolume(_) => false
    case Pull(_) => false
    case _ => op.instanceId == id
  }

  /** What an operation does to the container of one id. */
  function StepAt(id: string, c: Option<Container>, op: Operation): Option<Container> {
    if !On(id, op) then c
    else
      match op
      case Create(_, _, image, spec) => if c.Some? then c else Some(Container(image, Sorted(spec), {}, false))
      case Remove(_) => None
      case Start(_) => if c.Some? then Some(c.value.(running := true)) else None
      case Stop(_) => if c.Some? then Some(c.value.(running := false)) else None
      case ConnectNetwork(_, n) => if c.Some? then Some(c.value.(networks := c.value.networks + {n})) else None
      case DisconnectNetwork(_, n) => if c.Some? then Some(c.value.(networks := c.value.networks - {n})) else None
      case _ => c
  }

  function ReplayedAt(id: string, c: Option<Container>, ops: seq<Operation>): Option<Container>
    decreases |ops|
  {
    if ops == [] then c else ReplayedAt(id, StepAt(id, c, ops[0]), ops[1..])
  }

  /** The container of an id after a list depends on that container before it alone. */
  lemma {:induction false} ReplayedGet(rt: Runtime, ops: seq<Operation>, id: string)
    ensures Get(Replayed(rt, ops), id) == ReplayedAt(id, Get(rt, id), ops)
    decreases |ops|
  {
    if ops != [] {
      assert Get(Step(rt, ops[0]), id) == StepAt(id, Get(rt, id), ops[0]);
      ReplayedGet(Step(rt, ops[0]), ops[1..], id);
    }
  }

  lemma {:induction false} AtConcat(id: string, c: Option<Container>, a: seq<Operation>, b: seq<Operation>)
    ensures ReplayedAt(id, c, a + b) == ReplayedAt(id, ReplayedAt(id, c, a), b)
    decreases |a|
  {
    if a == [] {
      assert a + b == b;
    } else {
      assert (a + b)[1..] == a[1..] + b;
      AtConcat(id, StepAt(id, c, a[0]), a[1..], b);
    }
  }

  lemma AtOne(id: string, c: Option<Container>, op: Operation)
    ensures ReplayedAt(id, c, [op]) == StepAt(id, c, op)
  {
    assert [op][1..] == [];
  }

  lemma SameRuntime(a: Runtime, b: Runtime)
    requires forall id :: Get(a, id) == Get(b, id)
    ensures a == b
  {
    forall id ensures (id in a <==> id in b) && (id in a ==> a[id] == b[id]) {
      assert Get(a, id) == Get(b, id);
    }
  }

  // ---- what the groups of operations do to a container -------------------------------------

  datatype Effect =
    | Retire
    | Rewiring(dropped: set<string>, added: set<string>)
    | Deploy(image: string, spec: Json, networks: set<string>)

  /** Deploying over an existing container only adds networks and starts it. */
  function Act(e: Effect, c: Option<Container>): Option<Container> {
    match e
    case Retire => None
    case Rewiring(dropped, added) =>
      if c.Some? then Some(c.value.(networks := c.value.networks - dropped + added)) else None
    case Deploy(image, spec, networks) =>
      if c.Some? then Some(c.value.(networks := c.value.networks + networks, running := true))
      else Some(Container(image, spec, networks, true))
  }

  lemma ActTwice(e: Effect, c: Option<Container>)
    ensures Act(e, Act(e, c)) == Act(e, c)
  {
    match e
    case Retire =>
    case Rewiring(dropped, added) =>
      if c.Some? {
        assert c.value.networks - dropped + added - dropped + added == c.value.networks - dropped + added;
      }
    case Deploy(image, spec, networks) =>
      var n := if c.Some? then c.value.networks else {};
      assert n + networks + networks == n + networks && networks + networks == networks;
  }

  /** A list of operations has an effect on the container of an id, or none. */
  ghost predicate Does(id: string, ops: seq<Operation>, hit: bool, e: Effect) {
    forall c :: ReplayedAt(id, c, ops) == if hit then Act(e, c) else c
  }

  /** Joined blocks of operations that all have one effect on an id, or none, have it as often as once. */
  lemma {:induction false} FoldAt<A(!new)>(
    id: string, c: Option<Container>, xs: seq<A>, f: A -> seq<Operation>, hits: A -> bool, e: Effect)
    requires forall x :: x in xs ==> Does(id, f(x), hits(x), e)
    ensures ReplayedAt(id, c, FlatMap(xs, f)) == if exists x :: x in xs && hits(x) then Act(e, c) else c
    decreases |xs|
  {
    if xs != [] {
      AtConcat(id, c, f(xs[0]), FlatMap(xs[1..], f));
      assert Does(id, f(xs[0]), hits(xs[0]), e);
      FoldAt(id, if hits(xs[0]) then Act(e, c) else c, xs[1..], f, hits, e);
      ActTwice(e, c);
      assert forall x :: x in xs <==> x == xs[0] || x in xs[1..];
    }
  }

  function Named(id: string): Instance -> bool {
    (i: Instance) => i.id == id
  }

  lemma NamedAmong(rows: seq<Instance>, id: string)
    ensures (exists i :: i in rows && Named(id)(i)) <==> id in InstanceIds(rows)
  {
  }

  lemma RetireOne(id: string, c: Option<Container>, i: Instance)
    ensures ReplayedAt(id, c, RetireOperations()(i)) == if i.id == id then None else c
  {
    assert RetireOperations()(i) == [Stop(i.id)] + [Remove(i.id)];
    AtConcat(id, c, [Stop(i.id)], [Remove(i.id)]);
    AtOne(id, c, Stop(i.id));
    AtOne(id, StepAt(id, c, Stop(i.id)), Remove(i.id));
  }

  lemma RetiredAt(id: string, c: Option<Container>, rows: seq<Instance>)
    ensures ReplayedAt(id, c, FlatMap(rows, RetireOperations())) == if id in InstanceIds(rows) then None else c
  {
    forall i | i in rows ensures Does(id, RetireOperations()(i), Named(id)(i), Retire) {
      forall d ensures ReplayedAt(id, d, RetireOperations()(i)) == if Named(id)(i) then Act(Retire, d) else d {
        RetireOne(id, d, i);
      }
    }
    FoldAt(id, c, rows, RetireOperations(), Named(id), Retire);
    NamedAmong(rows, id);
  }

  /** Stopping and removing a list of instances removes exactly their containers. */
  lemma RetireReplayed(rt: Runtime, rows: seq<Instance>)
    ensures Replayed(rt, FlatMap(rows, RetireOperations())) == rt - InstanceIds(rows)
  {
    forall id
      ensures Get(Replayed(rt, FlatMap(rows, RetireOperations())), id) == Get(rt - InstanceIds(rows), id)
    {
      ReplayedGet(rt, FlatMap(rows, RetireOperations()), id);
      RetiredAt(id, Get(rt, id), rows);
    }
    SameRuntime(Replayed(rt, FlatMap(rows, RetireOperations())), rt - InstanceIds(rows));
  }

  lemma {:induction false} NoEffect(id: string, c: Option<Container>, ops: seq<Operation>)
    requires forall op :: op in ops ==> !On(id, op)
    ensures ReplayedAt(id, c, ops) == c
    decreases |ops|
  {
    if ops != [] {
      assert ops[0] in ops;
      NoEffect(id, c, ops[1..]);
    }
  }

  lemma {:induction false} ConnectsAt(id: string, c: Option<Container>, own: string, networks: seq<string>)
    ensures ReplayedAt(id, c, Connects(own, networks)) ==
            if own == id then Act(Rewiring({}, Elements(networks)), c) else c
    decreases |networks|
  {
    if networks == [] {
      assert c.Some? ==> c.value.networks - {} + Elements(networks) == c.value.networks;
    } else {
      var d := StepAt(id, c, ConnectNetwork(own, networks[0]));
      ConnectsAt(id, d, own, networks[1..]);
      if own == id && c.Some? {
        assert d.value.networks - {} + Elements(networks[1..]) == c.value.networks - {} + Elements(networks);
      }
    }
  }

  lemma {:induction false} DisconnectsAt(id: string, c: Option<Container>, own: string, networks: seq<string>)
    ensures ReplayedAt(id, c, Disconnects(own, networks)) ==
            if own == id then Act(Rewiring(Elements(networks), {}), c) else c
    decreases |networks|
  {
    if networks == [] {
      assert c.Some? ==> c.value.networks - Elements(networks) + {} == c.value.networks;
    } else {
      var d := StepAt(id, c, DisconnectNetwork(own, networks[0]));
      DisconnectsAt(id, d, own, networks[1..]);
      if own == id && c.Some? {
        assert d.value.networks - Elements(networks[1..]) + {} == c.value.networks - Elements(networks) + {};
      }
    }
  }

  function RewiringOf(previous: seq<string>, next: seq<string>): Effect {
    Rewiring(Elements(previous) - Elements(next), Elements(next) - Elements(previous))
  }

  lemma RewireAt(id: string, c: Option<Container>, i: Instance, previous: seq<string>, next: seq<string>)
    ensures ReplayedAt(id, c, Rewire(previous, next)(i)) == if i.id == id then Act(RewiringOf(previous, next), c) else c
  {
    var dropped, added := Filter(previous, Absent(next)), Filter(next, Absent(previous));
    AtConcat(id, c, Disconnects(i.id, dropped), Connects(i.id, added));
    DisconnectsAt(id, c, i.id, dropped);
    ConnectsAt(id, ReplayedAt(id, c, Disconnects(i.id, dropped)), i.id, added);
    assert Elements(dropped) == Elements(previous) - Elements(next);
    assert Elements(added) == Elements(next) - Elements(previous);
    if c.Some? {
      var n := c.value.networks;
      assert n - Elements(dropped) + {} - {} + Elements(added) == n - Elements(dropped) + Elements(added);
    }
  }

  /** Disconnecting the dropped and connecting the new networks turns the old set into the new one. */
  lemma RewireOne(rt: Runtime, i: Instance, previous: seq<string>, next: seq<string>)
    requires i.id in rt && rt[i.id].networks == Elements(previous)
    ensures Replayed(rt, Rewire(previous, next)(i)) == rt[i.id := rt[i.id].(networks := Elements(next))]
  {
    var rt' := rt[i.id := rt[i.id].(networks := Elements(next))];
    assert Elements(previous) - (Elements(previous) - Elements(next)) + (Elements(next) - Elements(previous))
        == Elements(next);
    forall id ensures Get(Replayed(rt, Rewire(previous, next)(i)), id) == Get(rt', id) {
      ReplayedGet(rt, Rewire(previous, next)(i), id);
      RewireAt(id, Get(rt, id), i, previous, next);
    }
    SameRuntime(Replayed(rt, Rewire(previous, next)(i)), rt');
  }

  function DeployOf(manifest: Manifest, i: Instance): Effect {
    Deploy(i.image, Sorted(DeploySpecOf(manifest, i.serviceName)), Elements(NetworksOf(manifest, i.serviceName)))
  }

  lemma DeployOne(id: string, c: Option<Container>, manifest: Manifest, i: Instance)
    ensures ReplayedAt(id, c, DeployOperations(manifest)(i)) ==
            if i.id == id then Act(DeployOf(manifest, i), c) else c
  {
    var networks := NetworksOf(manifest, i.serviceName);
    var create := Create(i.id, i.serviceName, i.image, DeploySpecOf(manifest, i.serviceName));
    AtConcat(id, c, [create] + Connects(i.id, networks), [Start(i.id)]);
    AtConcat(id, c, [create], Connects(i.id, networks));
    AtOne(id, c, create);
    ConnectsAt(id, StepAt(id, c, create), i.id, networks);
    AtOne(id, ReplayedAt(id, StepAt(id, c, create), Connects(i.id, networks)), Start(i.id));
    assert {} - {} + Elements(networks) == Elements(networks);
    if c.Some? {
      assert c.value.networks - {} + Elements(networks) == c.value.networks + Elements(networks);
    }
  }

  lemma DeployedAt(id: string, c: Option<Container>, manifest: Manifest, rows: seq<Instance>, e: Effect)
    requires forall i :: i in rows && i.id == id ==> DeployOf(manifest, i) == e
    ensures ReplayedAt(id, c, FlatMap(rows, DeployOperations(manifest))) ==
            if id in InstanceIds(rows) then Act(e, c) else c
  {
    forall i | i in rows ensures Does(id, DeployOperations(manifest)(i), Named(id)(i), e) {
      forall d ensures ReplayedAt(id, d, DeployOperations(manifest)(i)) == if Named(id)(i) then Act(e, d) else d {
        DeployOne(id, d, manifest, i);
      }
    }
    FoldAt(id, c, rows, DeployOperations(manifest), Named(id), e);
    NamedAmong(rows, id);
  }

  /**
   * Deploying a list leaves every listed container started and with the manifest's networks, one that did not
   * exist as the manifest says, one that did with the image, spec and further networks it had; no other changes.
   */
  lemma DeployReplayed(manifest: Manifest, rt: Runtime, rows: seq<Instance>, id: string)
    requires forall i, j :: i in rows && j in rows && i.id == j.id ==> DeployOf(manifest, i) == DeployOf(manifest, j)
    ensures var rt' := Replayed(rt, FlatMap(rows, DeployOperations(manifest)));
            && (id !in InstanceIds(rows) ==> Get(rt', id) == Get(rt, id))
            && (forall i :: i in rows && i.id == id ==> Get(rt', id) == Act(DeployOf(manifest, i), Get(rt, id)))
  {
    ReplayedGet(rt, FlatMap(rows, DeployOperations(manifest)), id);
    if id in InstanceIds(rows) {
      var i :| i in rows && i.id == id;
      DeployedAt(id, Get(rt, id), manifest, rows, DeployOf(manifest, i));
    } else {
      DeployedAt(id, Get(rt, id), manifest, rows, Retire);
    }
  }

  // ---- which service an instance id belongs to ---------------------------------------------

  function OwnerAmong(rows: seq<Service>, id: string): (r: Option<Service>)
    ensures r.Some? ==> r.value in rows && id == InstanceId(r.value.id, ReplicaIndex(r.value.id, id))
    ensures r.None? ==> forall s :: s in rows ==> id != InstanceId(s.id, ReplicaIndex(s.id, id))
  {
    if rows == [] then None
    else if id == InstanceId(rows[0].id, ReplicaIndex(rows[0].id, id)) then Some(rows[0])
    else OwnerAmong(rows[1..], id)
  }

  /** The declared service an instance id is a replica of. */
  function OwnerOf(manifest: Manifest, id: string): Option<Service>
    requires manifest.WellFormed()
  {
    OwnerAmong(DesiredServices(manifest), id)
  }

  lemma OwnerIs(manifest: Manifest, s: Service, k: nat)
    requires manifest.WellFormed() && s in DesiredServices(manifest)
    ensures OwnerOf(manifest, InstanceId(s.id, k)) == Some(s)
  {
    var id := InstanceId(s.id, k);
    ReplicaIndexOfInstanceId(s.id, k);
    var t := OwnerOf(manifest, id).value;
    InstanceIdInjective(t.id, ReplicaIndex(t.id, id), s.id, k);
    DeclaredMember(manifest, s);
    DeclaredMember(manifest, t);
  }

  lemma RowWanted(store: Store, sum: Summary, id: string)
    requires Represents(store, sum) && id in store.instances
    ensures Wanted(id, store.instances, store.services).Some?
  {
    StoredRow(store, sum, id);
  }

  lemma RowOwner(sum: Summary, manifest: Manifest, id: string, row: Instance)
    requires manifest.WellFormed() && InstanceRowOk(sum, id, row)
    ensures OwnerOf(manifest, id) == Declared(manifest, row.serviceId)
  {
    var k := ReplicaIndex(row.serviceId, id);
    if Declared(manifest, row.serviceId).Some? {
      OwnerIs(manifest, Declared(manifest, row.serviceId).value, k);
    } else if OwnerOf(manifest, id).Some? {
      var s := OwnerOf(manifest, id).value;
      InstanceIdInjective(s.id, ReplicaIndex(s.id, id), row.serviceId, k);
      DeclaredMember(manifest, s);
    }
  }

  /** A desired service whose id the instance belongs to lacks it after the retiring. */
  predicate Lacks(manifest: Manifest, sum: Summary, id: string)
    requires manifest.WellFormed() && sum.have.Keys == sum.services.Keys
  {
    var owner := OwnerOf(manifest, id);
    && owner.Some? && Changed(manifest, sum.services, owner.value)
    && HaveOf(Retained(manifest, sum), owner.value.id) < ReplicaIndex(owner.value.id, id) <= owner.value.desiredReplicas
  }

  lemma CreatedIsLacked(
    catalog: Catalog, store: Store, sum: Summary, manifest: Manifest, listing: Listing, i: Instance)
    requires Ready(catalog, store, sum, manifest, listing) && i in InstancesToCreate(manifest, listing)
    ensures Lacks(manifest, sum, i.id)
  {
    var s := CreatedIsReplica(catalog, store, sum, manifest, listing, i);
    OwnerIs(manifest, s, ReplicaIndex(s.id, i.id));
    TodoMember(manifest, sum.services, s);
  }

  lemma LackedIsCreated(
    catalog: Catalog, store: Store, sum: Summary, manifest: Manifest, listing: Listing, id: string)
    requires Ready(catalog, store, sum, manifest, listing) && Lacks(manifest, sum, id)
    ensures id in InstanceIds(InstancesToCreate(manifest, listing))
  {
    var s := OwnerOf(manifest, id).value;
    TodoMember(manifest, sum.services, s);
    BlockHasReplica(catalog, store, sum, manifest, listing, s, ReplicaIndex(s.id, id));
  }

  lemma CreatedIff(catalog: Catalog, store: Store, sum: Summary, manifest: Manifest, listing: Listing, id: string)
    requires Ready(catalog, store, sum, manifest, listing)
    ensures id in InstanceIds(InstancesToCreate(manifest, listing)) <==> Lacks(manifest, sum, id)
  {
    if id in InstanceIds(InstancesToCreate(manifest, listing)) {
      var i :| i in InstancesToCreate(manifest, listing) && i.id == id;
      CreatedIsLacked(catalog, store, sum, manifest, listing, i);
    } else if Lacks(manifest, sum, id) {
      LackedIsCreated(catalog, store, sum, manifest, listing, id);
    }
  }

  // ---- the groups of the list, under one id ------------------------------------------------

  function DeployEffect(s: Service): Effect {
    Deploy(s.image, Sorted(s.deploySpec), Elements(s.networks))
  }

  lemma DesiredEffect(manifest: Manifest, s: Service, i: Instance)
    requires manifest.WellFormed() && s in DesiredServices(manifest)
    requires i.image == s.image && i.serviceName == s.name
    ensures DeployOf(manifest, i) == DeployEffect(s)
  {
    DesiredMember(manifest, s);
  }

  lemma CreatedEffect(
    catalog: Catalog, store: Store, sum: Summary, manifest: Manifest, listing: Listing, i: Instance)
    requires Ready(catalog, store, sum, manifest, listing) && i in InstancesToCreate(manifest, listing)
    ensures OwnerOf(manifest, i.id).Some?
    ensures DeployOf(manifest, i) == DeployEffect(OwnerOf(manifest, i.id).value)
  {
    var s := CreatedIsReplica(catalog, store, sum, manifest, listing, i);
    OwnerIs(manifest, s, ReplicaIndex(s.id, i.id));
    DesiredEffect(manifest, s, i);
  }

  lemma CreatesAt(
    catalog: Catalog, store: Store, sum: Summary, manifest: Manifest, listing: Listing, id: string,
    c: Option<Container>)
    requires Ready(catalog, store, sum, manifest, listing)
    ensures Lacks(manifest, sum, id) ==> OwnerOf(manifest, id).Some?
    ensures ReplayedAt(id, c, FlatMap(InstancesToCreate(manifest, listing), DeployOperations(manifest))) ==
            if Lacks(manifest, sum, id) then Act(DeployEffect(OwnerOf(manifest, id).value), c) else c
  {
    var create, owner := InstancesToCreate(manifest, listing), OwnerOf(manifest, id);
    CreatedIff(catalog, store, sum, manifest, listing, id);
    var e := if owner.Some? then DeployEffect(owner.value) else Retire;
    forall i | i in create && i.id == id ensures DeployOf(manifest, i) == e {
      CreatedEffect(catalog, store, sum, manifest, listing, i);
    }
    DeployedAt(id, c, manifest, create, e);
  }

  predicate Retriable(i: Instance) {
    i.status == Pending || i.status == Failed
  }

  lemma NotBoth(catalog: Catalog, store: Store, sum: Summary, manifest: Manifest, listing: Listing, id: string)
    requires Ready(catalog, store, sum, manifest, listing) && id in RetiredTable(store, manifest, listing)
    ensures id in store.instances && !Lacks(manifest, sum, id)
    ensures InstanceRowOk(sum.(have := Retained(manifest, sum)), id, store.instances[id])
  {
    RetirePhase(catalog, store, sum, manifest, listing);
    RowOwner(sum.(have := Retained(manifest, sum)), manifest, id, store.instances[id]);
  }

  /** Retried are exactly the pending and failed instances that survive the retiring and are still declared. */
  lemma RetriedIff(catalog: Catalog, store: Store, sum: Summary, manifest: Manifest, listing: Listing, id: string)
    requires Ready(catalog, store, sum, manifest, listing)
    ensures id in InstanceIds(InstancesToRedeploy(manifest, listing)) <==>
            && id in RetiredTable(store, manifest, listing)
            && Retriable(store.instances[id]) && Declared(manifest, store.instances[id].serviceId).Some?
  {
    if id in RetiredTable(store, manifest, listing) {
      var i := store.instances[id];
      NotBoth(catalog, store, sum, manifest, listing, id);
      CreatedIff(catalog, store, sum, manifest, listing, id);
      if Declared(manifest, i.serviceId).Some? {
        DeclaredMember(manifest, Declared(manifest, i.serviceId).value);
      }
      RetriedListed(store, manifest, listing, i);
    }
    if id in InstanceIds(InstancesToRedeploy(manifest, listing)) {
      var j :| j in InstancesToRedeploy(manifest, listing) && j.id == id;
      assert store.instances[id] == j;
    }
  }

  lemma RetriedListed(store: Store, manifest: Manifest, listing: Listing, i: Instance)
    requires manifest.WellFormed() && IsListing(listing, store)
    requires i.id in store.instances && store.instances[i.id] == i
    ensures i in InstancesToRedeploy(manifest, listing) <==>
            && Retriable(i)
            && i.id !in InstanceIds(InstancesToRemove(manifest, listing))
            && i.id !in InstanceIds(InstancesToCreate(manifest, listing))
            && Declared(manifest, i.serviceId).Some?
  {
    var found := Declared(manifest, i.serviceId);
    assert found.Some? <==> i.serviceId in ServiceIds(DesiredServices(manifest));
    assert i in listing.instances;
  }

  lemma RetriedEffect(
    catalog: Catalog, store: Store, sum: Summary, manifest: Manifest, listing: Listing, id: string)
    requires Ready(catalog, store, sum, manifest, listing) && id in RetiredTable(store, manifest, listing)
    requires Declared(manifest, store.instances[id].serviceId).Some?
    ensures DeployOf(manifest, store.instances[id]) ==
            DeployEffect(Declared(manifest, store.instances[id].serviceId).value)
  {
    var i := store.instances[id];
    var s := Declared(manifest, i.serviceId).value;
    NotBoth(catalog, store, sum, manifest, listing, id);
    StoredRow(store, sum, id);
    DeclaredMember(manifest, s);
    RetainedAlike(catalog, sum, manifest, s);
    DesiredEffect(manifest, s, i);
  }

  lemma RetriesAt(
    catalog: Catalog, store: Store, sum: Summary, manifest: Manifest, listing: Listing, id: string,
    c: Option<Container>)
    requires Ready(catalog, store, sum, manifest, listing)
    ensures ReplayedAt(id, c, FlatMap(InstancesToRedeploy(manifest, listing), DeployOperations(manifest))) ==
            if && id in RetiredTable(store, manifest, listing)
               && Retriable(store.instances[id]) && Declared(manifest, store.instances[id].serviceId).Some?
            then Act(DeployEffect(Declared(manifest, store.instances[id].serviceId).value), c) else c
  {
    var redeploy := InstancesToRedeploy(manifest, listing);
    RetriedIff(catalog, store, sum, manifest, listing, id);
    if id in InstanceIds(redeploy) {
      RetriedEffect(catalog, store, sum, manifest, listing, id);
      forall i | i in redeploy && i.id == id ensures i == store.instances[id] {
        assert i in listing.instances;
      }
      DeployedAt(id, c, manifest, redeploy, DeployOf(manifest, store.instances[id]));
    } else {
      DeployedAt(id, c, manifest, redeploy, Retire);
    }
  }

  // ---- in-place network changes -----------------------------------------------------------

  lemma RecreatedHasNone(
    catalog: Catalog, store: Store, sum: Summary, manifest: Manifest, listing: Listing, s: Service, id: string)
    requires Ready(catalog, store, sum, manifest, listing)
    requires s in DesiredServices(manifest) && s.id in sum.services && NeedsRecreate(manifest, sum.services[s.id], s)
    requires id in RetiredTable(store, manifest, listing)
    ensures store.instances[id].serviceId != s.id
  {
    NotBoth(catalog, store, sum, manifest, listing, id);
    RetainedIs(catalog, sum, manifest, s);
  }

  lemma Survivors(store: Store, manifest: Manifest, listing: Listing, sid: string, id: string)
    requires IsListing(listing, store) && manifest.WellFormed()
    requires forall k :: k in store.instances ==> store.instances[k].id == k
    ensures var rows := Filter(listing.instances, Survives(sid, InstanceIds(InstancesToRemove(manifest, listing))));
            id in InstanceIds(rows) <==>
            id in RetiredTable(store, manifest, listing) && store.instances[id].serviceId == sid
  {
    var rows := Filter(listing.instances, Survives(sid, InstanceIds(InstancesToRemove(manifest, listing))));
    if id in RetiredTable(store, manifest, listing) && store.instances[id].serviceId == sid {
      assert store.instances[id] in listing.instances;
      assert store.instances[id] in rows;
    }
  }

  lemma RewiredAt(id: string, c: Option<Container>, rows: seq<Instance>, previous: seq<string>, next: seq<string>)
    ensures ReplayedAt(id, c, FlatMap(rows, Rewire(previous, next))) ==
            if id in InstanceIds(rows) then Act(RewiringOf(previous, next), c) else c
  {
    var e := RewiringOf(previous, next);
    forall i | i in rows ensures Does(id, Rewire(previous, next)(i), Named(id)(i), e) {
      forall d ensures ReplayedAt(id, d, Rewire(previous, next)(i)) == if Named(id)(i) then Act(e, d) else d {
        RewireAt(id, d, i, previous, next);
      }
    }
    FoldAt(id, c, rows, Rewire(previous, next), Named(id), e);
    NamedAmong(rows, id);
  }

  lemma NetworkOperationsAre(
    catalog: Catalog, store: Store, sum: Summary, manifest: Manifest, listing: Listing, s: Service)
    requires Ready(catalog, store, sum, manifest, listing) && s in ServicesToUpdate(manifest, listing)
    ensures s.id in sum.services && s in DesiredServices(manifest)
    ensures var removed := InstanceIds(InstancesToRemove(manifest, listing));
            NetworkOperations(manifest, listing, removed)(s) ==
            if NeedsRecreate(manifest, sum.services[s.id], s) then []
            else FlatMap(Filter(listing.instances, Survives(s.id, removed)),
                         Rewire(sum.services[s.id].networks, s.networks))
  {
    UpdateMember(catalog, store, sum, manifest, listing, s);
    DesiredMember(manifest, s);
    ExistingFacts(catalog, store, sum, manifest, listing, s);
  }

  /** The network operations of one updated service rewire its surviving containers and touch no other. */
  lemma NetworkStepAt(
    catalog: Catalog, store: Store, sum: Summary, manifest: Manifest, listing: Listing, s: Service, id: string,
    c: Option<Container>)
    requires Ready(catalog, store, sum, manifest, listing) && s in ServicesToUpdate(manifest, listing)
    ensures s.id in sum.services
    ensures ReplayedAt(id, c,
                       NetworkOperations(manifest, listing, InstanceIds(InstancesToRemove(manifest, listing)))(s)) ==
            if id in RetiredTable(store, manifest, listing) && store.instances[id].serviceId == s.id then
              Act(RewiringOf(sum.services[s.id].networks, s.networks), c)
            else c
  {
    NetworkOperationsAre(catalog, store, sum, manifest, listing, s);
    if NeedsRecreate(manifest, sum.services[s.id], s) {
      if id in RetiredTable(store, manifest, listing) {
        RecreatedHasNone(catalog, store, sum, manifest, listing, s, id);
      }
    } else {
      var rows := Filter(listing.instances, Survives(s.id, InstanceIds(InstancesToRemove(manifest, listing))));
      RewiredAt(id, c, rows, sum.services[s.id].networks, s.networks);
      RowsKeyed(catalog, store, sum, manifest, listing);
      Survivors(store, manifest, listing, s.id, id);
    }
  }

  lemma RowsKeyed(catalog: Catalog, store: Store, sum: Summary, manifest: Manifest, listing: Listing)
    requires Ready(catalog, store, sum, manifest, listing)
    ensures forall k :: k in store.instances ==> store.instances[k].id == k
  {
  }

  function OfService(sid: string): Service -> bool {
    (s: Service) => s.id == sid
  }

  lemma NoRewiring(c: Option<Container>, networks: seq<string>)
    ensures Act(RewiringOf(networks, networks), c) == c
  {
    assert Elements(networks) - Elements(networks) == {};
    if c.Some? {
      assert c.value.networks - {} + {} == c.value.networks;
    }
  }

  /** The networks a surviving container is rewired between: its old row's and its declared row's. */
  function RewiringAt(manifest: Manifest, services: map<string, Service>, sid: string): Effect
    requires manifest.WellFormed()
  {
    if sid in services && Declared(manifest, sid).Some? then
      RewiringOf(services[sid].networks, Declared(manifest, sid).value.networks)
    else RewiringOf([], [])
  }

  function NetworkPlan(manifest: Manifest, listing: Listing): Service -> seq<Operation>
    requires manifest.WellFormed()
  {
    NetworkOperations(manifest, listing, InstanceIds(InstancesToRemove(manifest, listing)))
  }

  lemma UpdateRewiresAt(
    catalog: Catalog, store: Store, sum: Summary, manifest: Manifest, listing: Listing, id: string, s: Service,
    c: Option<Container>)
    requires Ready(catalog, store, sum, manifest, listing) && id in RetiredTable(store, manifest, listing)
    requires s in ServicesToUpdate(manifest, listing)
    ensures ReplayedAt(id, c, NetworkPlan(manifest, listing)(s)) ==
            if s.id == store.instances[id].serviceId then Act(RewiringAt(manifest, sum.services, s.id), c) else c
  {
    UpdatedDeclared(catalog, store, sum, manifest, listing, s);
    NetworkStepAt(catalog, store, sum, manifest, listing, s, id, c);
  }

  lemma UpdateRewires(
    catalog: Catalog, store: Store, sum: Summary, manifest: Manifest, listing: Listing, id: string, s: Service)
    requires Ready(catalog, store, sum, manifest, listing) && id in RetiredTable(store, manifest, listing)
    requires s in ServicesToUpdate(manifest, listing)
    ensures var sid := store.instances[id].serviceId;
            Does(id, NetworkPlan(manifest, listing)(s), OfService(sid)(s), RewiringAt(manifest, sum.services, sid))
  {
    var sid, ops := store.instances[id].serviceId, NetworkPlan(manifest, listing)(s);
    var e := RewiringAt(manifest, sum.services, sid);
    forall d ensures ReplayedAt(id, d, ops) == if s.id == sid then Act(e, d) else d {
      UpdateRewiresAt(catalog, store, sum, manifest, listing, id, s, d);
    }
    assert Does(id, ops, s.id == sid, e);
  }

  lemma NoneUpdates(
    catalog: Catalog, store: Store, sum: Summary, manifest: Manifest, listing: Listing, sid: string,
    c: Option<Container>)
    requires Ready(catalog, store, sum, manifest, listing)
    requires !exists s :: s in ServicesToUpdate(manifest, listing) && OfService(sid)(s)
    ensures Act(RewiringAt(manifest, sum.services, sid), c) == c
  {
    forall s | s in ServicesToUpdate(manifest, listing) ensures s.id != sid {
      assert !OfService(sid)(s);
    }
    NotUpdated(catalog, store, sum, manifest, listing, sid);
    RewiredInVain(manifest, sum.services, sid, c);
  }

  lemma SurvivorRewired(
    catalog: Catalog, store: Store, sum: Summary, manifest: Manifest, listing: Listing, id: string,
    c: Option<Container>)
    requires Ready(catalog, store, sum, manifest, listing) && id in RetiredTable(store, manifest, listing)
    ensures ReplayedAt(id, c, FlatMap(ServicesToUpdate(manifest, listing), NetworkPlan(manifest, listing))) ==
            Act(RewiringAt(manifest, sum.services, store.instances[id].serviceId), c)
  {
    var rows, f, sid := ServicesToUpdate(manifest, listing), NetworkPlan(manifest, listing),
        store.instances[id].serviceId;
    var e := RewiringAt(manifest, sum.services, sid);
    forall s | s in rows ensures Does(id, f(s), OfService(sid)(s), e) {
      UpdateRewires(catalog, store, sum, manifest, listing, id, s);
    }
    FoldAt(id, c, rows, f, OfService(sid), e);
    if !exists s :: s in rows && OfService(sid)(s) {
      NoneUpdates(catalog, store, sum, manifest, listing, sid, c);
    }
  }

  lemma RewiredInVain(manifest: Manifest, services: map<string, Service>, sid: string, c: Option<Container>)
    requires manifest.WellFormed()
    requires sid in services && Declared(manifest, sid).Some? ==> services[sid] == Declared(manifest, sid).value
    ensures Act(RewiringAt(manifest, services, sid), c) == c
  {
    NoRewiring(c, if sid in services then services[sid].networks else []);
    NoRewiring(c, []);
  }

  lemma OthersNotRewired(
    catalog: Catalog, store: Store, sum: Summary, manifest: Manifest, listing: Listing, id: string,
    c: Option<Container>)
    requires Ready(catalog, store, sum, manifest, listing) && id !in RetiredTable(store, manifest, listing)
    ensures ReplayedAt(id, c, FlatMap(ServicesToUpdate(manifest, listing), NetworkPlan(manifest, listing))) == c
  {
    var rows, f := ServicesToUpdate(manifest, listing), NetworkPlan(manifest, listing);
    forall s | s in rows ensures Does(id, f(s), false, Retire) {
      forall d ensures ReplayedAt(id, d, f(s)) == d {
        NetworkStepAt(catalog, store, sum, manifest, listing, s, id, d);
      }
    }
    FoldAt(id, c, rows, f, s => false, Retire);
  }

  /** All network operations together rewire each surviving container of a declared service, and nothing else. */
  lemma NetworksReplayed(
    catalog: Catalog, store: Store, sum: Summary, manifest: Manifest, listing: Listing, id: string,
    c: Option<Container>)
    requires Ready(catalog, store, sum, manifest, listing)
    ensures ReplayedAt(id, c, FlatMap(ServicesToUpdate(manifest, listing), NetworkPlan(manifest, listing)))
            == if id in RetiredTable(store, manifest, listing)
               then Act(RewiringAt(manifest, sum.services, store.instances[id].serviceId), c) else c
  {
    if id in RetiredTable(store, manifest, listing) {
      SurvivorRewired(catalog, store, sum, manifest, listing, id, c);
    } else {
      OthersNotRewired(catalog, store, sum, manifest, listing, id, c);
    }
  }

  lemma UpdatedDeclared(
    catalog: Catalog, store: Store, sum: Summary, manifest: Manifest, listing: Listing, s: Service)
    requires Ready(catalog, store, sum, manifest, listing) && s in ServicesToUpdate(manifest, listing)
    ensures Declared(manifest, s.id) == Some(s) && s.id in sum.services
  {
    UpdateMember(catalog, store, sum, manifest, listing, s);
    DeclaredMember(manifest, s);
  }

  lemma NotUpdated(catalog: Catalog, store: Store, sum: Summary, manifest: Manifest, listing: Listing, sid: string)
    requires Ready(catalog, store, sum, manifest, listing)
    requires forall s :: s in ServicesToUpdate(manifest, listing) ==> s.id != sid
    ensures sid in sum.services && Declared(manifest, sid).Some? ==> sum.services[sid] == Declared(manifest, sid).value
  {
    if sid in sum.services && Declared(manifest, sid).Some? {
      var s := Declared(manifest, sid).value;
      UpdateMember(catalog, store, sum, manifest, listing, s);
      DeclaredRow(catalog, sum, manifest, s);
    }
  }

  // ---- the whole list, under one id --------------------------------------------------------

  lemma SixGroups(
    id: string, c: Option<Container>, a: seq<Operation>, b: seq<Operation>, v: seq<Operation>, d: seq<Operation>,
    e: seq<Operation>, f: seq<Operation>)
    requires forall op :: op in b ==> !On(id, op)
    requires forall op :: op in v ==> !On(id, op)
    ensures ReplayedAt(id, c, a + b + v + d + e + f) ==
            ReplayedAt(id, ReplayedAt(id, ReplayedAt(id, ReplayedAt(id, c, a), d), e), f)
  {
    AtConcat(id, c, a + b + v + d + e, f);
    AtConcat(id, c, a + b + v + d, e);
    AtConcat(id, c, a + b + v, d);
    AtConcat(id, c, a + b, v);
    AtConcat(id, c, a, b);
    NoEffect(id, ReplayedAt(id, c, a), b);
    NoEffect(id, ReplayedAt(id, c, a), v);
  }

  /** The list is the retirements, the network changes, the creations and the retries; volumes do not matter. */
  lemma OperationsSplit(manifest: Manifest, listing: Listing, id: string, c: Option<Container>)
    requires manifest.WellFormed()
    ensures var c1 := if id in InstanceIds(InstancesToRemove(manifest, listing)) then None else c;
            var c2 := ReplayedAt(id, c1, FlatMap(ServicesToUpdate(manifest, listing), NetworkPlan(manifest, listing)));
            var c3 := ReplayedAt(id, c2, FlatMap(InstancesToCreate(manifest, listing), DeployOperations(manifest)));
            ReplayedAt(id, c, DiffOf(manifest, listing).operations) ==
            ReplayedAt(id, c3, FlatMap(InstancesToRedeploy(manifest, listing), DeployOperations(manifest)))
  {
    RetiredAt(id, c, InstancesToRemove(manifest, listing));
    SixGroups(id, c, FlatMap(InstancesToRemove(manifest, listing), RetireOperations()),
              FlatMap(VolumesToRemove(manifest, listing), RemoveVolumeOperations()),
              FlatMap(VolumesToEnsure(manifest, listing), EnsureVolumeOperations()),
              FlatMap(ServicesToUpdate(manifest, listing), NetworkPlan(manifest, listing)),
              FlatMap(InstancesToCreate(manifest, listing), DeployOperations(manifest)),
              FlatMap(InstancesToRedeploy(manifest, listing), DeployOperations(manifest)));
  }

  /** What the list does to a container whose row survives: rewired if declared, and deployed if to be retried. */
  lemma SurvivorReplayed(
    catalog: Catalog, store: Store, sum: Summary, manifest: Manifest, listing: Listing, id: string,
    c: Option<Container>)
    requires Ready(catalog, store, sum, manifest, listing) && id in RetiredTable(store, manifest, listing)
    ensures var declared := Declared(manifest, store.instances[id].serviceId);
            var d := Act(RewiringAt(manifest, sum.services, store.instances[id].serviceId), c);
            ReplayedAt(id, c, DiffOf(manifest, listing).operations) ==
            if declared.Some? && Retriable(store.instances[id]) then Act(DeployEffect(declared.value), d) else d
  {
    var d := Act(RewiringAt(manifest, sum.services, store.instances[id].serviceId), c);
    OperationsSplit(manifest, listing, id, c);
    NetworksReplayed(catalog, store, sum, manifest, listing, id, c);
    NotBoth(catalog, store, sum, manifest, listing, id);
    CreatesAt(catalog, store, sum, manifest, listing, id, d);
    RetriesAt(catalog, store, sum, manifest, listing, id, d);
  }

  /** What it does to any other container: gone if its row was stored, and deployed if its service lacks it. */
  lemma OtherReplayed(
    catalog: Catalog, store: Store, sum: Summary, manifest: Manifest, listing: Listing, id: string,
    c: Option<Container>)
    requires Ready(catalog, store, sum, manifest, listing) && id !in RetiredTable(store, manifest, listing)
    ensures Lacks(manifest, sum, id) ==> OwnerOf(manifest, id).Some?
    ensures var d := if id in store.instances then None else c;
            ReplayedAt(id, c, DiffOf(manifest, listing).operations) ==
            if Lacks(manifest, sum, id) then Act(DeployEffect(OwnerOf(manifest, id).value), d) else d
  {
    var d := if id in store.instances then None else c;
    OperationsSplit(manifest, listing, id, c);
    RemovedStored(catalog, store, sum, manifest, listing, id);
    NetworksReplayed(catalog, store, sum, manifest, listing, id, d);
    CreatesAt(catalog, store, sum, manifest, listing, id, d);
    RetriesAt(catalog, store, sum, manifest, listing, id,
              if Lacks(manifest, sum, id) then Act(DeployEffect(OwnerOf(manifest, id).value), d) else d);
  }

  lemma RemovedStored(catalog: Catalog, store: Store, sum: Summary, manifest: Manifest, listing: Listing, id: string)
    requires Ready(catalog, store, sum, manifest, listing)
    ensures id in InstanceIds(InstancesToRemove(manifest, listing)) <==>
            id in store.instances && id !in RetiredTable(store, manifest, listing)
  {
    if id in InstanceIds(InstancesToRemove(manifest, listing)) {
      var i :| i in InstancesToRemove(manifest, listing) && i.id == id;
      RemovedAreStored(catalog, store, sum, manifest, listing, i);
    }
  }

  // ---- the rows after a finished apply -----------------------------------------------------

  lemma {:induction false} InsertFrame(
    table: map<string, Instance>, rows: seq<Instance>, nodes: seq<string>, id: string)
    requires |rows| == |nodes| && id in table
    ensures id in InsertInstances(table, rows, nodes).table &&
            InsertInstances(table, rows, nodes).table[id] == table[id]
    decreases |rows|
  {
    if rows != [] && rows[0].id !in table {
      InsertFrame(table[rows[0].id := rows[0].(nodeId := nodes[0])], rows[1..], nodes[1..], id);
    }
  }

  /** The serving loop never touches a row that is already there. */
  lemma {:induction false} ServeFrame(
    store: Store, todo: seq<Service>, create: seq<Instance>, place: Placement, id: string)
    requires id in store.instances
    ensures id in ServeServices(store, todo, create, place).0.instances
    ensures ServeServices(store, todo, create, place).0.instances[id] == store.instances[id]
    decreases |todo|
  {
    if todo != [] {
      var service := todo[0];
      var added := Filter(create, IsInstanceOf(service.id));
      var nodes := if added == [] then [] else place(service.id, |added|);
      if |nodes| == |added| {
        InsertFrame(store.instances, added, nodes, id);
        var table := InsertInstances(store.instances, added, nodes).table;
        ServeFrame(store.(instances := table, services := store.services[service.id := Saved(store.dialect, service)]),
                   todo[1..], create, place, id);
      }
    }
  }

  lemma DiffFrame(store: Store, diff: Diff, place: Placement, kept: set<string>, id: string)
    requires id in store.instances && id !in InstanceIds(diff.instancesToRemove)
    ensures var (after, outcome) := ApplyDiff(store, diff, place, kept);
            && (id in after.instances ==> after.instances[id] == store.instances[id])
            && (outcome.NoTarget? ==> id in after.instances)
  {
    ServeFrame(store.(instances := store.instances - InstanceIds(diff.instancesToRemove)),
               diff.servicesToCreate + diff.servicesToUpdate, diff.instancesToCreate, place, id);
  }

  lemma AfterFrame(store: Store, manifest: Manifest, listing: Listing, place: Placement, kept: set<string>, id: string)
    requires manifest.WellFormed() && id in RetiredTable(store, manifest, listing)
    ensures var (after, outcome) := ApplyDiff(store, DiffOf(manifest, listing), place, kept);
            && (id in after.instances ==> after.instances[id] == store.instances[id])
            && (outcome.NoTarget? ==> id in after.instances)
  {
    DiffFrame(store, DiffOf(manifest, listing), place, kept, id);
  }

  lemma RetainedStays(catalog: Catalog, sum: Summary, manifest: Manifest, sum': Summary, sid: string)
    requires Sound(catalog, sum) && Admissible(catalog, manifest)
    requires At(sum', sid) == ExpectedAt(manifest, sum, sid)
    requires sid in sum.have && Retained(manifest, sum)[sid] > 0
    ensures sid in sum'.have && sum'.have[sid] >= Retained(manifest, sum)[sid]
  {
    DroppedIsUndeclared(catalog, sum, manifest, sid);
    if Declared(manifest, sid).Some? {
      var s := Declared(manifest, sid).value;
      DeclaredRow(catalog, sum, manifest, s);
      RetainedIs(catalog, sum, manifest, s);
    }
  }

  lemma AboveIsLacked(catalog: Catalog, sum: Summary, manifest: Manifest, sum': Summary, sid: string, k: nat)
    requires Sound(catalog, sum) && Admissible(catalog, manifest)
    requires At(sum', sid) == ExpectedAt(manifest, sum, sid)
    requires sid in sum'.services && sid in sum'.have && HaveOf(Retained(manifest, sum), sid) < k <= sum'.have[sid]
    ensures Lacks(manifest, sum, InstanceId(sid, k))
  {
    if Declared(manifest, sid).Some? {
      var s := Declared(manifest, sid).value;
      OwnerIs(manifest, s, k);
      ReplicaIndexOfInstanceId(sid, k);
      if s.id in sum.services {
        DeclaredRow(catalog, sum, manifest, s);
        RetainedIs(catalog, sum, manifest, s);
      }
    }
  }

  lemma RetainedIsStored(
    catalog: Catalog, store: Store, sum: Summary, manifest: Manifest, listing: Listing, sid: string, k: nat)
    requires Ready(catalog, store, sum, manifest, listing)
    requires 1 <= k <= HaveOf(Retained(manifest, sum), sid)
    ensures InstanceId(sid, k) in RetiredTable(store, manifest, listing)
  {
    RetirePhase(catalog, store, sum, manifest, listing);
    assert sid in Retained(manifest, sum);
  }

  lemma LackedIsAfter(catalog: Catalog, sum: Summary, manifest: Manifest, after: Store, sum': Summary, id: string)
    requires Sound(catalog, sum) && Admissible(catalog, manifest) && Represents(after, sum')
    requires Reconciled(manifest, sum, sum') && Lacks(manifest, sum, id)
    ensures id in after.instances
  {
    var s := OwnerOf(manifest, id).value;
    DeclaredMember(manifest, s);
    assert At(sum', s.id) == ExpectedAt(manifest, sum, s.id);
  }

  /** The rows after a finished apply are the retained ones and the ones their services lacked; none is both. */
  lemma AddedRows(
    catalog: Catalog, store: Store, sum: Summary, manifest: Manifest, listing: Listing, place: Placement,
    kept: set<string>, id: string)
    requires Ready(catalog, store, sum, manifest, listing)
    requires ApplyDiff(store, DiffOf(manifest, listing), place, kept).1 == Done
    ensures id in ApplyDiff(store, DiffOf(manifest, listing), place, kept).0.instances <==>
            id in RetiredTable(store, manifest, listing) || Lacks(manifest, sum, id)
    ensures id in RetiredTable(store, manifest, listing) ==> !Lacks(manifest, sum, id)
    ensures Lacks(manifest, sum, id) <==> id in InstanceIds(InstancesToCreate(manifest, listing))
  {
    var after, sum' := ApplyDiff(store, DiffOf(manifest, listing), place, kept).0,
        Reconcile(sum, manifest, place, kept).0;
    ApplyRefines(catalog, store, sum, manifest, listing, place, kept);
    FinishedApply(catalog, sum, manifest, place, kept);
    CreatedIff(catalog, store, sum, manifest, listing, id);
    if id in RetiredTable(store, manifest, listing) {
      NotBoth(catalog, store, sum, manifest, listing, id);
      var sid := store.instances[id].serviceId;
      assert At(sum', sid) == ExpectedAt(manifest, sum, sid);
      RetainedStays(catalog, sum, manifest, sum', sid);
      StoredReplica(after, sum', sid, ReplicaIndex(sid, id));
    } else if Lacks(manifest, sum, id) {
      LackedIsAfter(catalog, sum, manifest, after, sum', id);
    } else if id in after.instances {
      StoredRow(after, sum', id);
      var sid := after.instances[id].serviceId;
      var k := ReplicaIndex(sid, id);
      assert At(sum', sid) == ExpectedAt(manifest, sum, sid);
      if k <= HaveOf(Retained(manifest, sum), sid) {
        RetainedIsStored(catalog, store, sum, manifest, listing, sid, k);
      } else {
        AboveIsLacked(catalog, sum, manifest, sum', sid, k);
      }
    }
  }

  /** The row of a service after a finished apply that still has instances. */
  function RowAfter(manifest: Manifest, before: Store, sid: string): Option<Service>
    requires manifest.WellFormed()
  {
    if Declared(manifest, sid).Some? then Some(Saved(before.dialect, Declared(manifest, sid).value))
    else if sid in before.services then Some(before.services[sid])
    else None
  }

  lemma RowAfterIs(manifest: Manifest, store: Store, sum: Summary, after: Store, sum': Summary, sid: string)
    requires manifest.WellFormed() && store.dialect == sum.dialect
    requires store.services == sum.services && after.services == sum'.services
    requires At(sum', sid) == ExpectedAt(manifest, sum, sid) && sid in sum'.services && sid in sum'.have
    ensures RowAfter(manifest, store, sid) == Some(after.services[sid])
  {
  }

  lemma FinalOwner(after: Store, sum': Summary, manifest: Manifest, id: string)
    requires Represents(after, sum') && manifest.WellFormed() && id in after.instances
    ensures var sid := after.instances[id].serviceId;
            && sid in after.services && sid in sum'.services && sid in sum'.have
            && OwnerOf(manifest, id) == Declared(manifest, sid)
  {
    StoredRow(after, sum', id);
    RowOwner(sum', manifest, id, after.instances[id]);
  }

  lemma RepresentsRows(store: Store, sum: Summary)
    requires Represents(store, sum)
    ensures store.dialect == sum.dialect && store.services == sum.services
  {
  }

  /** The instance row under an id after a finished apply, and its service row. */
  lemma FinalRow(
    catalog: Catalog, store: Store, sum: Summary, manifest: Manifest, listing: Listing, place: Placement,
    kept: set<string>, id: string)
    requires Ready(catalog, store, sum, manifest, listing)
    requires ApplyDiff(store, DiffOf(manifest, listing), place, kept).1 == Done
    requires id in ApplyDiff(store, DiffOf(manifest, listing), place, kept).0.instances
    ensures var after := ApplyDiff(store, DiffOf(manifest, listing), place, kept).0;
            var sid := after.instances[id].serviceId;
            && sid in after.services && RowAfter(manifest, store, sid) == Some(after.services[sid])
            && OwnerOf(manifest, id) == Declared(manifest, sid)
            && (id in RetiredTable(store, manifest, listing) ==> after.instances[id] == store.instances[id])
  {
    var after, sum' := ApplyDiff(store, DiffOf(manifest, listing), place, kept).0,
        Reconcile(sum, manifest, place, kept).0;
    var sid := after.instances[id].serviceId;
    ApplyRefines(catalog, store, sum, manifest, listing, place, kept);
    FinishedApply(catalog, sum, manifest, place, kept);
    FinalOwner(after, sum', manifest, id);
    assert At(sum', sid) == ExpectedAt(manifest, sum, sid);
    RepresentsRows(store, sum);
    RepresentsRows(after, sum');
    RowAfterIs(manifest, store, sum, after, sum', sid);
    if id in RetiredTable(store, manifest, listing) {
      AfterFrame(store, manifest, listing, place, kept, id);
    }
  }

  // ---- what should run --------------------------------------------------------------------

  function ContainerOf(service: Service): Container {
    Container(service.image, Sorted(service.deploySpec), Elements(service.networks), true)
  }

  lemma SavedAlike(dialect: Dialect, s: Service)
    ensures ContainerOf(Saved(dialect, s)) == ContainerOf(s)
  {
    StoredTwice(dialect, s.deploySpec);
  }

  /** The container the tables ask for under an id. */
  function Wanted(id: string, instances: map<string, Instance>, services: map<string, Service>): Option<Container> {
    if id in instances && instances[id].serviceId in services then Some(ContainerOf(services[instances[id].serviceId]))
    else None
  }

  /** The runtime runs exactly the stored instances, each as its service row says. */
  ghost predicate Mirrors(rt: Runtime, instances: map<string, Instance>, services: map<string, Service>) {
    forall id :: Get(rt, id) == Wanted(id, instances, services)
  }

  /** A container a deployment can complete: the right image and spec, and no network too many. */
  predicate Completable(c: Container, service: Service) {
    c.image == service.image && c.spec == Sorted(service.deploySpec) && c.networks <= Elements(service.networks)
  }

  /** As the tables want it, or an instance still to be retried that is missing or can be completed. */
  predicate HostedAt(
    c: Option<Container>, id: string, instances: map<string, Instance>, services: map<string, Service>)
  {
    || c == Wanted(id, instances, services)
    || (id in instances && Retriable(instances[id]) && instances[id].serviceId in services
        && (c.Some? ==> Completable(c.value, services[instances[id].serviceId])))
  }

  /** The runtime has nothing but stored instances; all but pending and failed ones run as their rows say. */
  ghost predicate Hosts(rt: Runtime, instances: map<string, Instance>, services: map<string, Service>) {
    forall id :: HostedAt(Get(rt, id), id, instances, services)
  }

  lemma DeployCompletes(c: Option<Container>, s: Service)
    requires c.Some? ==> Completable(c.value, s)
    ensures Act(DeployEffect(s), c) == Some(ContainerOf(s))
  {
    if c.Some? {
      assert c.value.networks + Elements(s.networks) == Elements(s.networks);
    }
  }

  lemma RewiredCompletable(c: Container, row: Service, s: Service)
    requires Completable(c, row) && row.image == s.image && row.deploySpec == s.deploySpec
    ensures Completable(Act(RewiringOf(row.networks, s.networks), Some(c)).value, s)
    ensures c == ContainerOf(row) ==> Act(RewiringOf(row.networks, s.networks), Some(c)) == Some(ContainerOf(s))
  {
    var dropped, added := Elements(row.networks) - Elements(s.networks), Elements(s.networks) - Elements(row.networks);
    assert c.networks - dropped + added <= Elements(s.networks);
    assert Elements(row.networks) - dropped + added == Elements(s.networks);
  }

  lemma ContainerCompletable(s: Service)
    ensures Completable(ContainerOf(s), s)
  {
  }

  /** What the rewiring and retrying make of a hosted container of a declared service that is not recreated. */
  lemma SurvivorRuns(c: Option<Container>, retried: bool, row: Service, s: Service)
    requires row.image == s.image && row.deploySpec == s.deploySpec
    requires c == Some(ContainerOf(row)) || (retried && (c.Some? ==> Completable(c.value, row)))
    ensures var d := Act(RewiringOf(row.networks, s.networks), c);
            (if retried then Act(DeployEffect(s), d) else d) == Some(ContainerOf(s))
  {
    ContainerCompletable(row);
    if c.Some? {
      RewiredCompletable(c.value, row, s);
      ContainerCompletable(s);
    }
    if retried {
      DeployCompletes(Act(RewiringOf(row.networks, s.networks), c), s);
    }
  }

  lemma RetainedNotRecreated(
    catalog: Catalog, store: Store, sum: Summary, manifest: Manifest, listing: Listing, id: string)
    requires Ready(catalog, store, sum, manifest, listing) && id in RetiredTable(store, manifest, listing)
    ensures store.instances[id].serviceId in sum.services
    ensures Declared(manifest, store.instances[id].serviceId).Some? ==>
              var row, s := sum.services[store.instances[id].serviceId],
                  Declared(manifest, store.instances[id].serviceId).value;
              row.image == s.image && row.deploySpec == s.deploySpec
  {
    NotBoth(catalog, store, sum, manifest, listing, id);
    var sid := store.instances[id].serviceId;
    if Declared(manifest, sid).Some? {
      var s := Declared(manifest, sid).value;
      DesiredMember(manifest, s);
      if NeedsRecreate(manifest, sum.services[sid], s) {
        RecreatedHasNone(catalog, store, sum, manifest, listing, s, id);
      }
    }
  }

  /** What the tables want of a declared instance, and of one of another manifest, after a finished apply. */
  lemma WantedAfter(manifest: Manifest, store: Store, after: Store, id: string)
    requires manifest.WellFormed() && id in after.instances
    requires after.instances[id].serviceId in after.services
    requires RowAfter(manifest, store, after.instances[id].serviceId) ==
             Some(after.services[after.instances[id].serviceId])
    ensures var declared := Declared(manifest, after.instances[id].serviceId);
            Wanted(id, after.instances, after.services) ==
            Some(ContainerOf(if declared.Some? then declared.value else after.services[after.instances[id].serviceId]))
  {
    var declared := Declared(manifest, after.instances[id].serviceId);
    if declared.Some? {
      SavedAlike(store.dialect, declared.value);
    }
  }

  lemma SurvivorRealised(
    catalog: Catalog, store: Store, sum: Summary, manifest: Manifest, listing: Listing, after: Store, id: string,
    c: Option<Container>)
    requires Ready(catalog, store, sum, manifest, listing)
    requires id in RetiredTable(store, manifest, listing) && id in after.instances
    requires after.instances[id] == store.instances[id] && after.instances[id].serviceId in after.services
    requires RowAfter(manifest, store, after.instances[id].serviceId) ==
             Some(after.services[after.instances[id].serviceId])
    requires HostedAt(c, id, store.instances, store.services)
    ensures var c' := ReplayedAt(id, c, DiffOf(manifest, listing).operations);
            if Declared(manifest, store.instances[id].serviceId).Some? then
              c' == Wanted(id, after.instances, after.services)
            else
              c' == c
              && after.services[store.instances[id].serviceId] == store.services[store.instances[id].serviceId]
  {
    var sid := store.instances[id].serviceId;
    SurvivorReplayed(catalog, store, sum, manifest, listing, id, c);
    RetainedNotRecreated(catalog, store, sum, manifest, listing, id);
    if Declared(manifest, sid).Some? {
      WantedAfter(manifest, store, after, id);
      SurvivorRuns(c, Retriable(store.instances[id]), store.services[sid], Declared(manifest, sid).value);
    } else {
      NoRewiring(c, []);
    }
  }

  lemma OtherRealised(
    catalog: Catalog, store: Store, sum: Summary, manifest: Manifest, listing: Listing, place: Placement,
    kept: set<string>, id: string, c: Option<Container>)
    requires Ready(catalog, store, sum, manifest, listing)
    requires ApplyDiff(store, DiffOf(manifest, listing), place, kept).1 == Done
    requires id !in RetiredTable(store, manifest, listing) && (id !in store.instances ==> c == None)
    ensures var after := ApplyDiff(store, DiffOf(manifest, listing), place, kept).0;
            ReplayedAt(id, c, DiffOf(manifest, listing).operations) == Wanted(id, after.instances, after.services)
  {
    var after := ApplyDiff(store, DiffOf(manifest, listing), place, kept).0;
    AddedRows(catalog, store, sum, manifest, listing, place, kept, id);
    OtherReplayed(catalog, store, sum, manifest, listing, id, c);
    if id in after.instances {
      FinalRow(catalog, store, sum, manifest, listing, place, kept, id);
      WantedAfter(manifest, store, after, id);
      DeployCompletes(None, OwnerOf(manifest, id).value);
    }
  }

  /** The container under one id once the list has run. */
  lemma RealisedAt(
    catalog: Catalog, store: Store, sum: Summary, manifest: Manifest, listing: Listing, place: Placement,
    kept: set<string>, id: string, c: Option<Container>)
    requires Ready(catalog, store, sum, manifest, listing)
    requires ApplyDiff(store, DiffOf(manifest, listing), place, kept).1 == Done
    requires HostedAt(c, id, store.instances, store.services)
    ensures var after := ApplyDiff(store, DiffOf(manifest, listing), place, kept).0;
            var c' := ReplayedAt(id, c, DiffOf(manifest, listing).operations);
            && HostedAt(c', id, after.instances, after.services)
            && (c == Wanted(id, store.instances, store.services) || OwnerOf(manifest, id).Some? ==>
                  c' == Wanted(id, after.instances, after.services))
  {
    var after := ApplyDiff(store, DiffOf(manifest, listing), place, kept).0;
    if id in RetiredTable(store, manifest, listing) {
      AddedRows(catalog, store, sum, manifest, listing, place, kept, id);
      FinalRow(catalog, store, sum, manifest, listing, place, kept, id);
      SurvivorRealised(catalog, store, sum, manifest, listing, after, id, c);
    } else {
      OtherRealised(catalog, store, sum, manifest, listing, place, kept, id, c);
    }
  }

  /**
   * The operation list realises the apply. If the runtime has nothing but the stored instances, those not pending
   * or failed running as their rows say, and the apply finishes, then once the list has run the same holds of the
   * new tables, and every instance of a service the manifest declares runs with the image, deploy spec and networks
   * of its new row. If every old instance ran as its row said, so does every new one.
   */
  lemma OperationsRealiseApply(
    catalog: Catalog, store: Store, sum: Summary, manifest: Manifest, listing: Listing, place: Placement,
    kept: set<string>, rt: Runtime)
    requires Ready(catalog, store, sum, manifest, listing)
    requires Hosts(rt, store.instances, store.services)
    requires ApplyDiff(store, DiffOf(manifest, listing), place, kept).1 == Done
    ensures var after := ApplyDiff(store, DiffOf(manifest, listing), place, kept).0;
            var rt' := Replayed(rt, DiffOf(manifest, listing).operations);
            && Hosts(rt', after.instances, after.services)
            && (forall id :: OwnerOf(manifest, id).Some? ==>
                  Get(rt', id) == Wanted(id, after.instances, after.services))
            && (Mirrors(rt, store.instances, store.services) ==> Mirrors(rt', after.instances, after.services))
  {
    var after := ApplyDiff(store, DiffOf(manifest, listing), place, kept).0;
    var rt' := Replayed(rt, DiffOf(manifest, listing).operations);
    forall id
      ensures HostedAt(Get(rt', id), id, after.instances, after.services)
      ensures Get(rt, id) == Wanted(id, store.instances, store.services) || OwnerOf(manifest, id).Some? ==>
                Get(rt', id) == Wanted(id, after.instances, after.services)
    {
      assert HostedAt(Get(rt, id), id, store.instances, store.services);
      ReplayedGet(rt, DiffOf(manifest, listing).operations, id);
      RealisedAt(catalog, store, sum, manifest, listing, place, kept, id, Get(rt, id));
    }
  }
}
