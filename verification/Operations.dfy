/** What the operation list of a diff holds, in which order, and what it does to the volumes. */
module Operations {
  import opened Sequences
  import opened Naming
  import opened Cluster
  import opened Planner
  import opened Apply
  import opened Reconciliation
  import opened Refinement
  import opened Convergence
  import opened Runs
  import opened Replay
  import opened Halting
  import opened Declarations

  // ---- the parts of the list --------------------------------------------------------------

  function RetirePart(manifest: Manifest, listing: Listing): seq<Operation>
    requires manifest.WellFormed()
  {
    FlatMap(InstancesToRemove(manifest, listing), RetireOperations())
  }

  function DropPart(manifest: Manifest, listing: Listing): seq<Operation> {
    FlatMap(VolumesToRemove(manifest, listing), RemoveVolumeOperations())
  }

  function EnsurePart(manifest: Manifest, listing: Listing): seq<Operation> {
    FlatMap(VolumesToEnsure(manifest, listing), EnsureVolumeOperations())
  }

  function WirePart(manifest: Manifest, listing: Listing): seq<Operation>
    requires manifest.WellFormed()
  {
    FlatMap(ServicesToUpdate(manifest, listing),
            NetworkOperations(manifest, listing, InstanceIds(InstancesToRemove(manifest, listing))))
  }

  function DeployPart(manifest: Manifest, listing: Listing): seq<Operation>
    requires manifest.WellFormed()
  {
    FlatMap(InstancesToCreate(manifest, listing), DeployOperations(manifest))
      + FlatMap(InstancesToRedeploy(manifest, listing), DeployOperations(manifest))
  }

  lemma ListIs(manifest: Manifest, listing: Listing)
    requires manifest.WellFormed()
    ensures DiffOf(manifest, listing).operations ==
            RetirePart(manifest, listing) + DropPart(manifest, listing) + EnsurePart(manifest, listing)
            + WirePart(manifest, listing) + DeployPart(manifest, listing)
  {
  }

  predicate Retires(op: Operation) {
    op.Stop? || op.Remove?
  }

  predicate Deploys(op: Operation) {
    op.Create? || op.ConnectNetwork? || op.Start?
  }

  lemma RetireKinds(rows: seq<Instance>)
    ensures forall op :: op in FlatMap(rows, RetireOperations()) ==> Retires(op)
  {
    forall op | op in FlatMap(rows, RetireOperations()) ensures Retires(op) {
      var i :| i in rows && op in RetireOperations()(i);
    }
  }

  lemma DropKinds(rows: seq<Volume>, op: Operation)
    ensures op in FlatMap(rows, RemoveVolumeOperations()) <==> op.RemoveVolume? && op.volumeName in VolumeNames(rows)
  {
    if op.RemoveVolume? && op.volumeName in VolumeNames(rows) {
      var v :| v in rows && v.name == op.volumeName;
      FlatMapMember(rows, RemoveVolumeOperations(), v, op);
    }
  }

  lemma EnsureKinds(rows: seq<Volume>, op: Operation)
    ensures op in FlatMap(rows, EnsureVolumeOperations()) <==> op.EnsureVolume? && op.volumeName in VolumeNames(rows)
  {
    if op.EnsureVolume? && op.volumeName in VolumeNames(rows) {
      var v :| v in rows && v.name == op.volumeName;
      FlatMapMember(rows, EnsureVolumeOperations(), v, op);
    }
  }

  lemma RewireKinds(previous: seq<string>, next: seq<string>, i: Instance)
    ensures forall op :: op in Rewire(previous, next)(i) ==> Wires(op)
  {
    NetworksWire(i.id, Filter(previous, Absent(next)));
    NetworksWire(i.id, Filter(next, Absent(previous)));
  }

  lemma WireKinds(manifest: Manifest, listing: Listing, removed: set<string>, rows: seq<Service>)
    ensures forall op :: op in FlatMap(rows, NetworkOperations(manifest, listing, removed)) ==> Wires(op)
  {
    var f := NetworkOperations(manifest, listing, removed);
    forall op | op in FlatMap(rows, f) ensures Wires(op) {
      var s :| s in rows && op in f(s);
      var current := CurrentNamed(listing.services, s.name);
      var rewire := Rewire(current.value.networks, s.networks);
      var i :| i in Filter(listing.instances, Survives(s.id, removed)) && op in rewire(i);
      RewireKinds(current.value.networks, s.networks, i);
    }
  }

  function CreateOf(manifest: Manifest, i: Instance): Operation {
    Create(i.id, i.serviceName, i.image, DeploySpecOf(manifest, i.serviceName))
  }

  lemma DeployKinds(manifest: Manifest, rows: seq<Instance>, op: Operation)
    requires op in FlatMap(rows, DeployOperations(manifest))
    ensures Deploys(op)
    ensures op.Create? ==>
              exists i :: i in rows && op == CreateOf(manifest, i)
  {
    var i :| i in rows && op in DeployOperations(manifest)(i);
    NetworksWire(i.id, NetworksOf(manifest, i.serviceName));
  }

  lemma DeployHas(manifest: Manifest, rows: seq<Instance>, i: Instance)
    requires i in rows
    ensures CreateOf(manifest, i)
            in FlatMap(rows, DeployOperations(manifest))
  {
    var op := CreateOf(manifest, i);
    assert DeployOperations(manifest)(i)[0] == op;
    FlatMapMember(rows, DeployOperations(manifest), i, op);
  }

  lemma PartKinds(manifest: Manifest, listing: Listing)
    requires manifest.WellFormed()
    ensures forall op :: op in RetirePart(manifest, listing) ==> Retires(op)
    ensures forall op :: op in DropPart(manifest, listing) ==> op.RemoveVolume?
    ensures forall op :: op in EnsurePart(manifest, listing) ==> op.EnsureVolume?
    ensures forall op :: op in WirePart(manifest, listing) ==> Wires(op)
    ensures forall op :: op in DeployPart(manifest, listing) ==> Deploys(op)
  {
    RetireKinds(InstancesToRemove(manifest, listing));
    forall op | op in DropPart(manifest, listing) ensures op.RemoveVolume? {
      DropKinds(VolumesToRemove(manifest, listing), op);
    }
    forall op | op in EnsurePart(manifest, listing) ensures op.EnsureVolume? {
      EnsureKinds(VolumesToEnsure(manifest, listing), op);
    }
    WireKinds(manifest, listing, InstanceIds(InstancesToRemove(manifest, listing)),
              ServicesToUpdate(manifest, listing));
    forall op | op in DeployPart(manifest, listing) ensures Deploys(op) {
      if op in FlatMap(InstancesToCreate(manifest, listing), DeployOperations(manifest)) {
        DeployKinds(manifest, InstancesToCreate(manifest, listing), op);
      } else {
        DeployKinds(manifest, InstancesToRedeploy(manifest, listing), op);
      }
    }
  }

  /** The list in its five parts, with the kinds of operations of those that do not touch volumes. */
  lemma Parts(manifest: Manifest, listing: Listing)
    returns (a: seq<Operation>, d: seq<Operation>, e: seq<Operation>)
    requires manifest.WellFormed()
    ensures DiffOf(manifest, listing).operations ==
            a + FlatMap(VolumesToRemove(manifest, listing), RemoveVolumeOperations())
            + FlatMap(VolumesToEnsure(manifest, listing), EnsureVolumeOperations()) + d + e
    ensures (forall op :: op in a ==> Retires(op)) && (forall op :: op in d ==> Wires(op))
    ensures forall op :: op in e ==> Deploys(op)
    ensures e == FlatMap(InstancesToCreate(manifest, listing), DeployOperations(manifest))
                 + FlatMap(InstancesToRedeploy(manifest, listing), DeployOperations(manifest))
  {
    a, d, e := RetirePart(manifest, listing), WirePart(manifest, listing), DeployPart(manifest, listing);
    ListIs(manifest, listing);
    PartKinds(manifest, listing);
  }

  lemma Segments(manifest: Manifest, listing: Listing)
    returns (a: seq<Operation>, b: seq<Operation>, c: seq<Operation>, d: seq<Operation>, e: seq<Operation>)
    requires manifest.WellFormed()
    ensures DiffOf(manifest, listing).operations == a + b + c + d + e
    ensures (forall op :: op in a ==> Retires(op)) && (forall op :: op in b ==> op.RemoveVolume?)
    ensures (forall op :: op in c ==> op.EnsureVolume?) && (forall op :: op in d ==> Wires(op))
    ensures forall op :: op in e ==> Deploys(op)
    ensures e == FlatMap(InstancesToCreate(manifest, listing), DeployOperations(manifest))
                 + FlatMap(InstancesToRedeploy(manifest, listing), DeployOperations(manifest))
  {
    a, d, e := Parts(manifest, listing);
    b := FlatMap(VolumesToRemove(manifest, listing), RemoveVolumeOperations());
    c := FlatMap(VolumesToEnsure(manifest, listing), EnsureVolumeOperations());
    forall x | x in b ensures x.RemoveVolume? {
      DropKinds(VolumesToRemove(manifest, listing), x);
    }
    forall x | x in c ensures x.EnsureVolume? {
      EnsureKinds(VolumesToEnsure(manifest, listing), x);
    }
  }

  // ---- volumes ----------------------------------------------------------------------------

  /** The volumes a cluster holds, by name, after one operation. */
  function VolumeStep(held: set<string>, op: Operation): set<string> {
    match op
    case EnsureVolume(name) => held + {name}
    case RemoveVolume(name) => held - {name}
    case _ => held
  }

  function VolumesAfter(held: set<string>, ops: seq<Operation>): set<string>
    decreases |ops|
  {
    if ops == [] then held else VolumesAfter(VolumeStep(held, ops[0]), ops[1..])
  }

  lemma {:induction false} VolumesConcat(held: set<string>, a: seq<Operation>, b: seq<Operation>)
    ensures VolumesAfter(held, a + b) == VolumesAfter(VolumesAfter(held, a), b)
    decreases |a|
  {
    if a == [] {
      assert a + b == b;
    } else {
      assert (a + b)[1..] == a[1..] + b && (a + b)[0] == a[0];
      VolumesConcat(VolumeStep(held, a[0]), a[1..], b);
    }
  }

  lemma {:induction false} VolumesIdle(held: set<string>, ops: seq<Operation>)
    requires forall op :: op in ops ==> !op.EnsureVolume? && !op.RemoveVolume?
    ensures VolumesAfter(held, ops) == held
    decreases |ops|
  {
    if ops != [] {
      assert ops[0] in ops;
      VolumesIdle(held, ops[1..]);
    }
  }

  lemma {:induction false} VolumesDropped(held: set<string>, rows: seq<Volume>)
    ensures VolumesAfter(held, FlatMap(rows, RemoveVolumeOperations())) == held - VolumeNames(rows)
    decreases |rows|
  {
    if rows != [] {
      var op := RemoveVolume(rows[0].name);
      VolumesConcat(held, [op], FlatMap(rows[1..], RemoveVolumeOperations()));
      assert [op][1..] == [] && VolumesAfter(held, [op]) == held - {rows[0].name};
      VolumesDropped(held - {rows[0].name}, rows[1..]);
      assert VolumeNames(rows) == {rows[0].name} + VolumeNames(rows[1..]);
    }
  }

  lemma {:induction false} VolumesEnsured(held: set<string>, rows: seq<Volume>)
    ensures VolumesAfter(held, FlatMap(rows, EnsureVolumeOperations())) == held + VolumeNames(rows)
    decreases |rows|
  {
    if rows != [] {
      var op := EnsureVolume(rows[0].name);
      VolumesConcat(held, [op], FlatMap(rows[1..], EnsureVolumeOperations()));
      assert [op][1..] == [] && VolumesAfter(held, [op]) == held + {rows[0].name};
      VolumesEnsured(held + {rows[0].name}, rows[1..]);
      assert VolumeNames(rows) == {rows[0].name} + VolumeNames(rows[1..]);
    }
  }

  predicate OnVolume(op: Operation) {
    op.EnsureVolume? || op.RemoveVolume?
  }

  /** Of five parts only the second and the third touch volumes. */
  lemma VolumesThrough(
    held: set<string>, a: seq<Operation>, removed: seq<Volume>, ensured: seq<Volume>, d: seq<Operation>,
    e: seq<Operation>)
    requires forall op :: op in a || op in d || op in e ==> !OnVolume(op)
    ensures var b, c := FlatMap(removed, RemoveVolumeOperations()), FlatMap(ensured, EnsureVolumeOperations());
            VolumesAfter(held, a + b + c + d + e) == held - VolumeNames(removed) + VolumeNames(ensured)
  {
    var b, c := FlatMap(removed, RemoveVolumeOperations()), FlatMap(ensured, EnsureVolumeOperations());
    VolumesConcat(held, a + b + c + d, e);
    VolumesConcat(held, a + b + c, d);
    VolumesConcat(held, a + b, c);
    VolumesConcat(held, a, b);
    VolumesIdle(held, a);
    VolumesDropped(held, removed);
    VolumesEnsured(held - VolumeNames(removed), ensured);
    VolumesIdle(held - VolumeNames(removed) + VolumeNames(ensured), d);
    VolumesIdle(held - VolumeNames(removed) + VolumeNames(ensured), e);
  }

  lemma VolumesAre(manifest: Manifest, listing: Listing, held: set<string>)
    requires manifest.WellFormed()
    ensures VolumesAfter(held, DiffOf(manifest, listing).operations) ==
            held - VolumeNames(VolumesToRemove(manifest, listing)) + VolumeNames(VolumesToEnsure(manifest, listing))
  {
    var a, d, e := Parts(manifest, listing);
    VolumesThrough(held, a, VolumesToRemove(manifest, listing), VolumesToEnsure(manifest, listing), d, e);
  }

  /** The names of the stored volumes. */
  function StoredNames(volumes: map<string, Volume>): set<string> {
    set id | id in volumes :: volumes[id].name
  }

  lemma EnsuredNames(sum: Summary, manifest: Manifest, listing: Listing)
    requires Lists(listing.volumes, sum.volumes, (v: Volume) => v.id)
    requires forall id :: id in sum.volumes ==> sum.volumes[id].id == id
    ensures forall n :: n in VolumeNames(VolumesToEnsure(manifest, listing)) <==>
              n in manifest.volumes && n !in StoredNames(sum.volumes)
  {
    assert forall n :: n in VolumeNames(listing.volumes) <==> n in StoredNames(sum.volumes) by {
      forall n | n in StoredNames(sum.volumes) ensures n in VolumeNames(listing.volumes) {
        var id :| id in sum.volumes && sum.volumes[id].name == n;
        assert sum.volumes[id] in listing.volumes;
      }
      forall n | n in VolumeNames(listing.volumes) ensures n in StoredNames(sum.volumes) {
        var v :| v in listing.volumes && v.name == n;
        assert v.id in sum.volumes;
      }
    }
    forall n ensures n in VolumeNames(VolumesToEnsure(manifest, listing)) <==>
                     n in manifest.volumes && n !in StoredNames(sum.volumes) {
      var row := Volume(VolumeId(manifest.name, n), n, manifest.name);
      DesiredVolume(manifest, row);
      if n in manifest.volumes && n !in StoredNames(sum.volumes) {
        assert row in VolumesToEnsure(manifest, listing);
      }
      if n in VolumeNames(VolumesToEnsure(manifest, listing)) {
        var v :| v in VolumesToEnsure(manifest, listing) && v.name == n;
        DesiredVolume(manifest, v);
      }
    }
  }

  lemma KeyedVolumes(catalog: Catalog, store: Store, sum: Summary, manifest: Manifest, listing: Listing)
    requires Ready(catalog, store, sum, manifest, listing)
    ensures store.volumes == sum.volumes && Lists(listing.volumes, sum.volumes, (v: Volume) => v.id)
    ensures forall id :: id in sum.volumes ==> sum.volumes[id].id == id
  {
  }

  lemma VolumeMember(
    a: seq<Operation>, removed: seq<Volume>, ensured: seq<Volume>, d: seq<Operation>, e: seq<Operation>, op: Operation)
    requires forall x :: x in a || x in d || x in e ==> !OnVolume(x)
    requires OnVolume(op)
    ensures var b, c := FlatMap(removed, RemoveVolumeOperations()), FlatMap(ensured, EnsureVolumeOperations());
            op in a + b + c + d + e <==>
            op.volumeName in if op.EnsureVolume? then VolumeNames(ensured) else VolumeNames(removed)
  {
    DropKinds(removed, op);
    EnsureKinds(ensured, op);
  }

  lemma ListedVolume(manifest: Manifest, listing: Listing, op: Operation)
    requires manifest.WellFormed() && OnVolume(op)
    ensures op in DiffOf(manifest, listing).operations <==>
            op.volumeName in if op.EnsureVolume? then VolumeNames(VolumesToEnsure(manifest, listing))
                             else VolumeNames(VolumesToRemove(manifest, listing))
  {
    var a, d, e := Parts(manifest, listing);
    VolumeMember(a, VolumesToRemove(manifest, listing), VolumesToEnsure(manifest, listing), d, e, op);
  }

  /**
   * The volume operations of a diff: a volume is ensured exactly if the manifest declares it and no stored one has
   * its name, and removed exactly if a stored one of the manifest has its name and the manifest no longer declares it.
   */
  lemma VolumeOperationsIff(
    catalog: Catalog, store: Store, sum: Summary, manifest: Manifest, listing: Listing, name: string)
    requires Ready(catalog, store, sum, manifest, listing)
    ensures EnsureVolume(name) in DiffOf(manifest, listing).operations <==>
            name in manifest.volumes && forall id :: id in store.volumes ==> store.volumes[id].name != name
    ensures RemoveVolume(name) in DiffOf(manifest, listing).operations <==>
            && name !in manifest.volumes
            && exists id :: id in store.volumes && store.volumes[id].name == name
                            && store.volumes[id].manifestName == manifest.name
  {
    KeyedVolumes(catalog, store, sum, manifest, listing);
    ListedVolume(manifest, listing, EnsureVolume(name));
    ListedVolume(manifest, listing, RemoveVolume(name));
    EnsuredNames(sum, manifest, listing);
    StaleNames(sum, manifest, listing);
  }

  // ---- volumes after an apply -------------------------------------------------------------

  lemma FinalNames(catalog: Catalog, sum: Summary, manifest: Manifest, name: string)
    requires Sound(catalog, sum) && Admissible(catalog, manifest)
    ensures name in StoredNames(FinalVolumes(sum, manifest, {})) <==>
            || name in manifest.volumes
            || (name in StoredNames(sum.volumes) && name !in StaleVolumes(manifest, sum.volumes))
  {
    var ensured := WithVolumes(sum.volumes, DesiredVolumesFrom(manifest.name, manifest.volumes));
    var stale := StaleVolumes(manifest, sum.volumes) - {};
    var final := FinalVolumes(sum, manifest, {});
    if name in StoredNames(final) {
      var id :| id in final && final[id].name == name;
      EnsuredAt(catalog, sum, manifest, id);
      VolumeDeclaredName(manifest, id);
    }
    if name in manifest.volumes {
      var id := VolumeId(manifest.name, name);
      VolumeDeclaredIs(manifest, name);
      EnsuredAt(catalog, sum, manifest, id);
      assert ensured[id].name == name && name !in stale;
      assert id in final;
    } else if name in StoredNames(sum.volumes) && name !in StaleVolumes(manifest, sum.volumes) {
      var id :| id in sum.volumes && sum.volumes[id].name == name;
      EnsuredAt(catalog, sum, manifest, id);
      VolumeDeclaredName(manifest, id);
      if VolumeDeclared()(manifest, id).Some? {
        SameVolumeId(catalog, sum, manifest, id);
      }
      assert id in final;
    }
  }

  lemma VolumeDeclaredName(manifest: Manifest, id: string)
    ensures var declared := VolumeDeclared()(manifest, id);
            declared.Some? ==> declared.value.name in manifest.volumes && declared.value.id == id
  {
    if VolumeDeclared()(manifest, id).Some? {
      DesiredVolume(manifest, VolumeDeclared()(manifest, id).value);
    }
  }

  lemma SameVolumeId(catalog: Catalog, sum: Summary, manifest: Manifest, id: string)
    requires Sound(catalog, sum) && Admissible(catalog, manifest)
    requires id in sum.volumes && VolumeDeclared()(manifest, id).Some?
    ensures VolumeDeclared()(manifest, id).value.name == sum.volumes[id].name
  {
    var v, d := sum.volumes[id], VolumeDeclared()(manifest, id).value;
    DesiredVolume(manifest, d);
    OwnedIds(catalog, v.manifestName, v.name, manifest.name, d.name);
  }

  /**
   * The volume operations realise the apply. If the cluster holds the stored volumes and the apply finishes with
   * every node taking its plan, then after the operations it holds the volumes of the new tables.
   */
  lemma VolumesRealiseApply(
    catalog: Catalog, store: Store, sum: Summary, manifest: Manifest, listing: Listing, place: Placement)
    requires Ready(catalog, store, sum, manifest, listing)
    requires ApplyDiff(store, DiffOf(manifest, listing), place, {}).1 == Done
    ensures var after := ApplyDiff(store, DiffOf(manifest, listing), place, {}).0;
            VolumesAfter(StoredNames(store.volumes), DiffOf(manifest, listing).operations) == StoredNames(after.volumes)
  {
    var after := ApplyDiff(store, DiffOf(manifest, listing), place, {}).0;
    KeyedVolumes(catalog, store, sum, manifest, listing);
    FinishedVolumes(catalog, store, sum, manifest, listing, place);
    VolumesAre(manifest, listing, StoredNames(store.volumes));
    EnsuredNames(sum, manifest, listing);
    StaleNames(sum, manifest, listing);
    forall n ensures n in VolumesAfter(StoredNames(store.volumes), DiffOf(manifest, listing).operations) <==>
                     n in StoredNames(after.volumes) {
      FinalNames(catalog, sum, manifest, n);
    }
  }

  lemma FinishedVolumes(
    catalog: Catalog, store: Store, sum: Summary, manifest: Manifest, listing: Listing, place: Placement)
    requires Ready(catalog, store, sum, manifest, listing)
    requires ApplyDiff(store, DiffOf(manifest, listing), place, {}).1 == Done
    ensures ApplyDiff(store, DiffOf(manifest, listing), place, {}).0.volumes == FinalVolumes(sum, manifest, {})
  {
    ApplyRefines(catalog, store, sum, manifest, listing, place, {});
    ServeKeepsVolumes(sum.(have := Retained(manifest, sum)), Todo(manifest, sum.services), place);
  }

  // ---- created containers -----------------------------------------------------------------

  lemma CreateMember(a: seq<Operation>, b: seq<Operation>, c: seq<Operation>, d: seq<Operation>, e: seq<Operation>,
                     op: Operation)
    requires forall x :: x in a || x in b || x in c || x in d ==> !x.Create?
    requires op.Create?
    ensures op in a + b + c + d + e <==> op in e
  {
  }

  lemma ListedCreate(manifest: Manifest, listing: Listing, op: Operation)
    requires manifest.WellFormed() && op.Create?
    ensures op in DiffOf(manifest, listing).operations <==>
            || op in FlatMap(InstancesToCreate(manifest, listing), DeployOperations(manifest))
            || op in FlatMap(InstancesToRedeploy(manifest, listing), DeployOperations(manifest))
  {
    var a, d, e := Parts(manifest, listing);
    var b := FlatMap(VolumesToRemove(manifest, listing), RemoveVolumeOperations());
    var c := FlatMap(VolumesToEnsure(manifest, listing), EnsureVolumeOperations());
    forall x | x in b || x in c ensures !x.Create? {
      DropKinds(VolumesToRemove(manifest, listing), x);
      EnsureKinds(VolumesToEnsure(manifest, listing), x);
    }
    CreateMember(a, b, c, d, e, op);
  }

  lemma CreatorOf(manifest: Manifest, listing: Listing, op: Operation) returns (i: Instance)
    requires manifest.WellFormed() && op.Create? && op in DiffOf(manifest, listing).operations
    ensures i in InstancesToCreate(manifest, listing) || i in InstancesToRedeploy(manifest, listing)
    ensures op == CreateOf(manifest, i)
  {
    var create, redeploy := InstancesToCreate(manifest, listing), InstancesToRedeploy(manifest, listing);
    ListedCreate(manifest, listing, op);
    if op in FlatMap(create, DeployOperations(manifest)) {
      DeployKinds(manifest, create, op);
      i :| i in create && op == CreateOf(manifest, i);
    } else {
      DeployKinds(manifest, redeploy, op);
      i :| i in redeploy && op == CreateOf(manifest, i);
    }
  }

  /** The create of an instance names a declared service and carries what the service asks for. */
  ghost predicate CarriesService(manifest: Manifest, op: Operation, sid: string) {
    && op.Create? && op.serviceName in manifest.services && sid == ServiceId(manifest.name, op.serviceName)
    && AsksFor(manifest.services[op.serviceName], op.image)
    && op.deploySpec == BuildDeploySpec(manifest.services[op.serviceName].deploy)
  }

  lemma CarriedBy(manifest: Manifest, i: Instance, s: Service)
    requires manifest.WellFormed() && s in DesiredServices(manifest)
    requires i.serviceId == s.id && i.serviceName == s.name && i.image == s.image
    ensures CarriesService(manifest, CreateOf(manifest, i),
                           i.serviceId)
  {
    DesiredMember(manifest, s);
    ImageAskedFor(manifest.services[s.name]);
  }

  lemma RetriedRow(catalog: Catalog, store: Store, sum: Summary, manifest: Manifest, listing: Listing, i: Instance)
    requires Ready(catalog, store, sum, manifest, listing) && i in InstancesToRedeploy(manifest, listing)
    ensures i.id in RetiredTable(store, manifest, listing) && store.instances[i.id] == i
    ensures CarriesService(manifest, CreateOf(manifest, i),
                           i.serviceId)
  {
    assert i in listing.instances;
    RetriedIff(catalog, store, sum, manifest, listing, i.id);
    NotBoth(catalog, store, sum, manifest, listing, i.id);
    var s := Declared(manifest, i.serviceId).value;
    DeclaredMember(manifest, s);
    StoredRow(store, sum, i.id);
    RetainedAlike(catalog, sum, manifest, s);
    CarriedBy(manifest, i, s);
  }

  /** Every create of a finished apply's list is for an instance of the new tables and carries what it asks for. */
  lemma CreatesCarryServices(
    catalog: Catalog, store: Store, sum: Summary, manifest: Manifest, listing: Listing, place: Placement,
    kept: set<string>, op: Operation)
    requires Ready(catalog, store, sum, manifest, listing)
    requires ApplyDiff(store, DiffOf(manifest, listing), place, kept).1 == Done
    requires op.Create? && op in DiffOf(manifest, listing).operations
    ensures var after := ApplyDiff(store, DiffOf(manifest, listing), place, kept).0;
            op.instanceId in after.instances
            && CarriesService(manifest, op, after.instances[op.instanceId].serviceId)
  {
    var i := CreatorOf(manifest, listing, op);
    if i in InstancesToCreate(manifest, listing) {
      CreatedCarries(catalog, store, sum, manifest, listing, place, kept, i);
    } else {
      RetriedRow(catalog, store, sum, manifest, listing, i);
      AfterFrame(store, manifest, listing, place, kept, i.id);
      AddedRows(catalog, store, sum, manifest, listing, place, kept, i.id);
    }
  }

  lemma CreatedCarries(
    catalog: Catalog, store: Store, sum: Summary, manifest: Manifest, listing: Listing, place: Placement,
    kept: set<string>, i: Instance)
    requires Ready(catalog, store, sum, manifest, listing) && i in InstancesToCreate(manifest, listing)
    requires ApplyDiff(store, DiffOf(manifest, listing), place, kept).1 == Done
    ensures var after := ApplyDiff(store, DiffOf(manifest, listing), place, kept).0;
            && i.id in after.instances
            && CarriesService(manifest, CreateOf(manifest, i),
                              after.instances[i.id].serviceId)
  {
    var s := CreatedIsReplica(catalog, store, sum, manifest, listing, i);
    CarriedBy(manifest, i, s);
    AddedRows(catalog, store, sum, manifest, listing, place, kept, i.id);
    FinalRow(catalog, store, sum, manifest, listing, place, kept, i.id);
    OwnerIs(manifest, s, ReplicaIndex(s.id, i.id));
    var sid := ApplyDiff(store, DiffOf(manifest, listing), place, kept).0.instances[i.id].serviceId;
    assert Declared(manifest, sid) == Some(s) && s.id == sid;
  }

  /**
   * Which containers a finished apply creates: those of the new rows that were not there before or were retired, and
   * those of surviving pending or failed instances the manifest still declares. A running instance that survives is
   * never created again.
   */
  lemma CreatesIff(
    catalog: Catalog, store: Store, sum: Summary, manifest: Manifest, listing: Listing, place: Placement,
    kept: set<string>, id: string)
    requires Ready(catalog, store, sum, manifest, listing)
    requires ApplyDiff(store, DiffOf(manifest, listing), place, kept).1 == Done
    ensures var after := ApplyDiff(store, DiffOf(manifest, listing), place, kept).0;
            (exists op :: op in DiffOf(manifest, listing).operations && op.Create? && op.instanceId == id) <==>
            && id in after.instances
            && (id in RetiredTable(store, manifest, listing) ==>
                  && (store.instances[id].status == Pending || store.instances[id].status == Failed)
                  && Declared(manifest, store.instances[id].serviceId).Some?)
  {
    AddedRows(catalog, store, sum, manifest, listing, place, kept, id);
    RetriedIff(catalog, store, sum, manifest, listing, id);
    CreatedIdsIff(manifest, listing, id);
  }

  lemma CreatedIdsIff(manifest: Manifest, listing: Listing, id: string)
    requires manifest.WellFormed()
    ensures (exists op :: op in DiffOf(manifest, listing).operations && op.Create? && op.instanceId == id) <==>
            || id in InstanceIds(InstancesToCreate(manifest, listing))
            || id in InstanceIds(InstancesToRedeploy(manifest, listing))
  {
    var create, redeploy := InstancesToCreate(manifest, listing), InstancesToRedeploy(manifest, listing);
    if i :| (i in create || i in redeploy) && i.id == id {
      if i in create {
        DeployHas(manifest, create, i);
      } else {
        DeployHas(manifest, redeploy, i);
      }
      ListedCreate(manifest, listing, CreateOf(manifest, i));
    }
    if op :| op in DiffOf(manifest, listing).operations && op.Create? && op.instanceId == id {
      var i := CreatorOf(manifest, listing, op);
    }
  }

  // ---- the order of the list --------------------------------------------------------------

  /** The stage an operation belongs to. Connecting happens both in place and for new containers, so it has none. */
  function Stage(op: Operation): nat {
    match op
    case Stop(_) => 0
    case Remove(_) => 0
    case RemoveVolume(_) => 1
    case EnsureVolume(_) => 2
    case DisconnectNetwork(_, _) => 3
    case _ => 4
  }

  ghost predicate Staged(ops: seq<Operation>) {
    forall i, j :: 0 <= i < j < |ops| && !ops[i].ConnectNetwork? && !ops[j].ConnectNetwork? ==>
      Stage(ops[i]) <= Stage(ops[j])
  }

  ghost predicate Between(ops: seq<Operation>, low: nat, high: nat) {
    forall op :: op in ops && !op.ConnectNetwork? ==> low <= Stage(op) <= high
  }

  lemma StagedConcat(a: seq<Operation>, b: seq<Operation>, low: nat, mid: nat, high: nat)
    requires Staged(a) && Staged(b) && Between(a, low, mid) && Between(b, mid, high) && low <= mid <= high
    ensures Staged(a + b) && Between(a + b, low, high)
  {
    var ops := a + b;
    forall i, j | 0 <= i < j < |ops| && !ops[i].ConnectNetwork? && !ops[j].ConnectNetwork?
      ensures Stage(ops[i]) <= Stage(ops[j])
    {
      if i < |a| <= j {
        assert ops[i] in a && ops[j] in b;
      }
    }
  }

  lemma OneStage(ops: seq<Operation>, stage: nat)
    requires Between(ops, stage, stage)
    ensures Staged(ops)
  {
    forall i, j | 0 <= i < j < |ops| && !ops[i].ConnectNetwork? && !ops[j].ConnectNetwork?
      ensures Stage(ops[i]) <= Stage(ops[j])
    {
      assert ops[i] in ops && ops[j] in ops;
    }
  }

  lemma FiveStages(
    a: seq<Operation>, b: seq<Operation>, c: seq<Operation>, d: seq<Operation>, e: seq<Operation>)
    requires Between(a, 0, 0) && Between(b, 1, 1) && Between(c, 2, 2) && Between(d, 3, 3) && Between(e, 4, 4)
    ensures Staged(a + b + c + d + e)
  {
    OneStage(a, 0);
    OneStage(b, 1);
    OneStage(c, 2);
    OneStage(d, 3);
    OneStage(e, 4);
    assert Between(a, 0, 1) && Between(a + b, 0, 2) by {
      StagedConcat(a, b, 0, 1, 1);
    }
    StagedConcat(a, b, 0, 1, 1);
    StagedConcat(a + b, c, 0, 2, 2);
    assert Between(a + b + c, 0, 3);
    StagedConcat(a + b + c, d, 0, 3, 3);
    assert Between(a + b + c + d, 0, 4);
    StagedConcat(a + b + c + d, e, 0, 4, 4);
  }

  lemma KindsAreStaged(
    ops: seq<Operation>, a: seq<Operation>, b: seq<Operation>, c: seq<Operation>, d: seq<Operation>, e: seq<Operation>)
    requires ops == a + b + c + d + e
    requires (forall op :: op in a ==> Retires(op)) && (forall op :: op in b ==> op.RemoveVolume?)
    requires (forall op :: op in c ==> op.EnsureVolume?) && (forall op :: op in d ==> Wires(op))
    requires forall op :: op in e ==> Deploys(op)
    ensures Staged(ops)
  {
    FiveStages(a, b, c, d, e);
  }

  /**
   * The order of the list: containers are retired before volumes are removed, volumes are there and old networks are
   * off before the first container is created or started.
   */
  lemma ListIsStaged(manifest: Manifest, listing: Listing)
    requires manifest.WellFormed()
    ensures Staged(DiffOf(manifest, listing).operations)
  {
    var a, b, c, d, e := Segments(manifest, listing);
    KindsAreStaged(DiffOf(manifest, listing).operations, a, b, c, d, e);
  }

  /** Whenever the container of an id is started, it exists and is on all of these networks. */
  predicate StartsConnected(id: string, c: Option<Container>, ops: seq<Operation>, networks: set<string>)
    decreases |ops|
  {
    ops == [] ||
    ((ops[0] == Start(id) ==> c.Some? && networks <= c.value.networks)
     && StartsConnected(id, StepAt(id, c, ops[0]), ops[1..], networks))
  }

  lemma {:induction false} StartsConcat(
    id: string, c: Option<Container>, a: seq<Operation>, b: seq<Operation>, networks: set<string>)
    ensures StartsConnected(id, c, a + b, networks) <==>
            StartsConnected(id, c, a, networks) && StartsConnected(id, ReplayedAt(id, c, a), b, networks)
    decreases |a|
  {
    if a == [] {
      assert a + b == b;
    } else {
      assert (a + b)[1..] == a[1..] + b && (a + b)[0] == a[0];
      StartsConcat(id, StepAt(id, c, a[0]), a[1..], b, networks);
    }
  }

  lemma {:induction false} NoStarts(id: string, c: Option<Container>, ops: seq<Operation>, networks: set<string>)
    requires forall op :: op in ops ==> op != Start(id)
    ensures StartsConnected(id, c, ops, networks)
    decreases |ops|
  {
    if ops != [] {
      assert ops[0] in ops && forall op :: op in ops[1..] ==> op in ops;
      NoStarts(id, StepAt(id, c, ops[0]), ops[1..], networks);
    }
  }

  lemma DeployStarts(id: string, c: Option<Container>, manifest: Manifest, i: Instance, networks: set<string>)
    requires i.id == id ==> networks == Elements(NetworksOf(manifest, i.serviceName))
    ensures StartsConnected(id, c, DeployOperations(manifest)(i), networks)
  {
    var own := NetworksOf(manifest, i.serviceName);
    var create, wires := CreateOf(manifest, i), Connects(i.id, own);
    NetworksWire(i.id, own);
    StartsConcat(id, c, [create] + wires, [Start(i.id)], networks);
    NoStarts(id, c, [create] + wires, networks);
    AtConcat(id, c, [create], wires);
    AtOne(id, c, create);
    ConnectsAt(id, StepAt(id, c, create), i.id, own);
    assert [Start(i.id)][1..] == [];
  }

  lemma {:induction false} DeploysStart(
    id: string, c: Option<Container>, manifest: Manifest, rows: seq<Instance>, networks: set<string>)
    requires forall i :: i in rows && i.id == id ==> networks == Elements(NetworksOf(manifest, i.serviceName))
    ensures StartsConnected(id, c, FlatMap(rows, DeployOperations(manifest)), networks)
    decreases |rows|
  {
    if rows != [] {
      var f := DeployOperations(manifest);
      DeployStarts(id, c, manifest, rows[0], networks);
      DeploysStart(id, ReplayedAt(id, c, f(rows[0])), manifest, rows[1..], networks);
      StartsConcat(id, c, f(rows[0]), FlatMap(rows[1..], f), networks);
    }
  }

  lemma DeployedNetworks(
    catalog: Catalog, store: Store, sum: Summary, manifest: Manifest, listing: Listing, service: string, k: nat,
    i: Instance)
    requires Ready(catalog, store, sum, manifest, listing) && service in manifest.services
    requires i in InstancesToCreate(manifest, listing) || i in InstancesToRedeploy(manifest, listing)
    requires i.id == InstanceId(ServiceId(manifest.name, service), k)
    ensures NetworksOf(manifest, i.serviceName) == manifest.services[service].networks
  {
    var s := DesiredService(manifest, service);
    DesiredMember(manifest, s);
    OwnerIs(manifest, s, k);
    if i in InstancesToCreate(manifest, listing) {
      var t := CreatedIsReplica(catalog, store, sum, manifest, listing, i);
      OwnerIs(manifest, t, ReplicaIndex(t.id, i.id));
    } else {
      RetriedRow(catalog, store, sum, manifest, listing, i);
      NotBoth(catalog, store, sum, manifest, listing, i.id);
      InstanceIdInjective(i.serviceId, ReplicaIndex(i.serviceId, i.id), s.id, k);
      SameIdSameName(manifest, i.serviceName, service);
    }
  }

  lemma DeployPartStarts(
    id: string, c: Option<Container>, manifest: Manifest, create: seq<Instance>, redeploy: seq<Instance>,
    networks: set<string>)
    requires forall i :: (i in create || i in redeploy) && i.id == id ==>
               networks == Elements(NetworksOf(manifest, i.serviceName))
    ensures StartsConnected(id, c, FlatMap(create, DeployOperations(manifest))
                                   + FlatMap(redeploy, DeployOperations(manifest)), networks)
  {
    var a := FlatMap(create, DeployOperations(manifest));
    DeploysStart(id, c, manifest, create, networks);
    DeploysStart(id, ReplayedAt(id, c, a), manifest, redeploy, networks);
    StartsConcat(id, c, a, FlatMap(redeploy, DeployOperations(manifest)), networks);
  }

  /** Whatever runs before, no container of a replica is started by the list before it is on its service's networks. */
  lemma StartedOnItsNetworks(
    catalog: Catalog, store: Store, sum: Summary, manifest: Manifest, listing: Listing, service: string, k: nat,
    c: Option<Container>)
    requires Ready(catalog, store, sum, manifest, listing) && service in manifest.services
    ensures StartsConnected(InstanceId(ServiceId(manifest.name, service), k), c, DiffOf(manifest, listing).operations,
                            Elements(manifest.services[service].networks))
  {
    var id, networks := InstanceId(ServiceId(manifest.name, service), k),
                        Elements(manifest.services[service].networks);
    var create, redeploy := InstancesToCreate(manifest, listing), InstancesToRedeploy(manifest, listing);
    var deploys := FlatMap(create, DeployOperations(manifest)) + FlatMap(redeploy, DeployOperations(manifest));
    var head := BeforeDeploys(manifest, listing);
    forall i | (i in create || i in redeploy) && i.id == id
      ensures networks == Elements(NetworksOf(manifest, i.serviceName))
    {
      DeployedNetworks(catalog, store, sum, manifest, listing, service, k, i);
    }
    NoStarts(id, c, head, networks);
    DeployPartStarts(id, ReplayedAt(id, c, head), manifest, create, redeploy, networks);
    StartsConcat(id, c, head, deploys, networks);
  }

  lemma BeforeDeploys(manifest: Manifest, listing: Listing) returns (head: seq<Operation>)
    requires manifest.WellFormed()
    ensures DiffOf(manifest, listing).operations ==
            head + (FlatMap(InstancesToCreate(manifest, listing), DeployOperations(manifest))
                    + FlatMap(InstancesToRedeploy(manifest, listing), DeployOperations(manifest)))
    ensures forall op :: op in head ==> !op.Start?
  {
    var a, b, c, d, e := Segments(manifest, listing);
    head := a + b + c + d;
  }
}
