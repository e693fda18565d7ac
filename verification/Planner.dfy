/** Planner.diff: what separates a manifest from the stored cluster. */
module Planner {
  import opened Sequences
  import opened Text
  import opened Naming
  import opened Json
  import opened Cluster

  datatype Diff = Diff(
    servicesToCreate: seq<Service>, servicesToUpdate: seq<Service>, servicesToRemove: seq<Service>,
    instancesToCreate: seq<Instance>, instancesToRedeploy: seq<Instance>, instancesToRemove: seq<Instance>,
    volumesToEnsure: seq<Volume>, volumesToRemove: seq<Volume>, operations: seq<Operation>)

  // ---- desired records -------------------------------------------------------------------

  function ResolveReplicas(service: ManifestService): nat {
    if service.isFunction then 0
    else if service.scaleReplicas.Some? then service.scaleReplicas.value
    else if service.deployReplicas.Some? then service.deployReplicas.value
    else 1
  }

  function ResolveImage(service: ManifestService): string {
    if service.image != "" then service.image
    else
      match service.build
      case NoBuild => "unknown"
      case BuildPath(path) => "build://" + path
      case BuildBlock(context, outputImage) =>
        if outputImage != "" && StartsWith(outputImage, "container-registry://") then outputImage
        else "build://" + context
  }

  function DeploySpecOf(manifest: Manifest, serviceName: string): Json {
    BuildDeploySpec(if serviceName in manifest.services then manifest.services[serviceName].deploy else NO_PARTS)
  }

  function NetworksOf(manifest: Manifest, serviceName: string): seq<string> {
    if serviceName in manifest.services then manifest.services[serviceName].networks else []
  }

  function DesiredService(manifest: Manifest, name: string): (r: Service)
    requires name in manifest.services
    ensures r.id == ServiceId(manifest.name, name) && r.name == name && r.manifestName == manifest.name
  {
    var service := manifest.services[name];
    Service(ServiceId(manifest.name, name), name, manifest.name, ResolveImage(service), ResolveReplicas(service),
            service.networks, service.ingress, service.functionSpec, BuildDeploySpec(service.deploy))
  }

  function DesiredServicesFrom(manifest: Manifest, names: seq<string>): (r: seq<Service>)
    requires forall n :: n in names ==> n in manifest.services
    ensures |r| == |names| && forall i :: 0 <= i < |r| ==> r[i] == DesiredService(manifest, names[i])
  {
    if names == [] then []
    else [DesiredService(manifest, names[0])] + DesiredServicesFrom(manifest, names[1..])
  }

  function DesiredServices(manifest: Manifest): seq<Service>
    requires manifest.WellFormed()
  {
    assert forall n :: n in manifest.serviceNames ==> n in Elements(manifest.serviceNames);
    DesiredServicesFrom(manifest, manifest.serviceNames)
  }

  function DesiredVolumesFrom(manifestName: string, names: seq<string>): (r: seq<Volume>)
    ensures |r| == |names|
    ensures forall i :: 0 <= i < |r| ==> r[i] == Volume(VolumeId(manifestName, names[i]), names[i], manifestName)
  {
    if names == [] then []
    else
      [Volume(VolumeId(manifestName, names[0]), names[0], manifestName)] + DesiredVolumesFrom(manifestName, names[1..])
  }

  // ---- comparisons -----------------------------------------------------------------------

  /** `actualByName.get(name)`: the last listed service of that name. */
  function CurrentNamed(rows: seq<Service>, name: string): (r: Option<Service>)
    ensures r.Some? ==> r.value in rows && r.value.name == name
    ensures r.None? ==> forall s :: s in rows ==> s.name != name
  {
    if rows == [] then None
    else if rows[|rows| - 1].name == name then Some(rows[|rows| - 1])
    else CurrentNamed(rows[..|rows| - 1], name)
  }

  predicate NeedsRecreate(manifest: Manifest, current: Service, desired: Service) {
    || current.image != desired.image
    || current.ingress != desired.ingress
    || current.functionSpec != desired.functionSpec
    || current.deploySpec != DeploySpecOf(manifest, desired.name)
  }

  predicate NeedsUpdate(manifest: Manifest, current: Service, desired: Service) {
    || NeedsRecreate(manifest, current, desired)
    || current.desiredReplicas != desired.desiredReplicas
    || current.networks != desired.networks
  }

  function IsNew(rows: seq<Service>): Service -> bool {
    (s: Service) => CurrentNamed(rows, s.name).None?
  }

  function IsChanged(manifest: Manifest, rows: seq<Service>): Service -> bool {
    (s: Service) =>
      var current := CurrentNamed(rows, s.name);
      current.Some? && NeedsUpdate(manifest, current.value, s)
  }

  function IsDropped(manifest: Manifest, desiredIds: set<string>): Service -> bool {
    (s: Service) => s.manifestName == manifest.name && s.id !in desiredIds
  }

  function IsInstanceOf(serviceId: string): Instance -> bool {
    (i: Instance) => i.serviceId == serviceId
  }

  function InstancesOf(rows: seq<Instance>, serviceId: string): seq<Instance> {
    Filter(rows, IsInstanceOf(serviceId))
  }

  function ServiceIds(rows: seq<Service>): (ids: set<string>) {
    set s | s in rows :: s.id
  }

  function InstanceIds(rows: seq<Instance>): (ids: set<string>) {
    set i | i in rows :: i.id
  }

  function VolumeNames(rows: seq<Volume>): (names: set<string>) {
    set v | v in rows :: v.name
  }

  // ---- replicas --------------------------------------------------------------------------

  function Replica(service: Service, index: nat): Instance {
    Instance(InstanceId(service.id, index), service.id, service.name, "unscheduled", Pending, service.image)
  }

  /** `count` consecutive replicas of a service, starting at index `first`. */
  function Replicas(service: Service, first: nat, count: nat): (r: seq<Instance>)
    ensures |r| == count && forall i :: 0 <= i < count ==> r[i] == Replica(service, first + i)
  {
    seq(count, i requires 0 <= i => Replica(service, first + i))
  }

  /** `Math.max(...usedIndexes) + 1`, or 1 when no index is in use. */
  function NextIndex(serviceId: string, existing: seq<Instance>): nat {
    if existing == [] then 1
    else
      var rest := NextIndex(serviceId, existing[1..]);
      var index := ReplicaIndex(serviceId, existing[0].id);
      if index >= rest then index + 1 else rest
  }

  function InsertByIndex(serviceId: string, x: Instance, sorted: seq<Instance>): seq<Instance> {
    if sorted == [] || ReplicaIndex(serviceId, sorted[0].id) <= ReplicaIndex(serviceId, x.id) then [x] + sorted
    else [sorted[0]] + InsertByIndex(serviceId, x, sorted[1..])
  }

  /** The stable sort by descending replica index. */
  function SortByIndex(serviceId: string, xs: seq<Instance>): seq<Instance> {
    if xs == [] then [] else InsertByIndex(serviceId, xs[0], SortByIndex(serviceId, xs[1..]))
  }

  lemma {:induction false} InsertByIndexContents(serviceId: string, x: Instance, sorted: seq<Instance>)
    ensures multiset(InsertByIndex(serviceId, x, sorted)) == multiset(sorted) + multiset{x}
  {
    if sorted != [] && !(ReplicaIndex(serviceId, sorted[0].id) <= ReplicaIndex(serviceId, x.id)) {
      InsertByIndexContents(serviceId, x, sorted[1..]);
      assert sorted == [sorted[0]] + sorted[1..];
    }
  }

  lemma {:induction false} SortByIndexContents(serviceId: string, xs: seq<Instance>)
    ensures multiset(SortByIndex(serviceId, xs)) == multiset(xs)
    ensures |SortByIndex(serviceId, xs)| == |xs|
  {
    if xs != [] {
      SortByIndexContents(serviceId, xs[1..]);
      InsertByIndexContents(serviceId, xs[0], SortByIndex(serviceId, xs[1..]));
      assert xs == [xs[0]] + xs[1..];
    }
    assert |multiset(SortByIndex(serviceId, xs))| == |SortByIndex(serviceId, xs)|;
    assert |multiset(xs)| == |xs|;
  }

  /** The `count` listed instances with the highest replica index. */
  function PickInstancesToRetire(existing: seq<Instance>, count: nat): seq<Instance>
    requires count <= |existing|
  {
    var serviceId := if existing == [] then "" else existing[0].serviceId;
    SortByIndexContents(serviceId, existing);
    SortByIndex(serviceId, existing)[..count]
  }

  // ---- the diff --------------------------------------------------------------------------

  /** What an updated service retires of its existing instances. */
  function RetiredOf(
    manifest: Manifest, current: Option<Service>, service: Service, existing: seq<Instance>): seq<Instance>
  {
    if current.None? || NeedsRecreate(manifest, current.value, service) then existing
    else if service.desiredReplicas < |existing| then
      PickInstancesToRetire(existing, |existing| - service.desiredReplicas)
    else []
  }

  function RetiredFor(manifest: Manifest, listing: Listing): Service -> seq<Instance> {
    (service: Service) =>
      RetiredOf(manifest, CurrentNamed(listing.services, service.name), service,
                InstancesOf(listing.instances, service.id))
  }

  /** What it adds to them. */
  function AddedOf(
    manifest: Manifest, current: Option<Service>, service: Service, existing: seq<Instance>): seq<Instance>
  {
    if current.None? || NeedsRecreate(manifest, current.value, service) then
      Replicas(service, 1, service.desiredReplicas)
    else if service.desiredReplicas > |existing| then
      Replicas(service, NextIndex(service.id, existing), service.desiredReplicas - |existing|)
    else []
  }

  function AddedFor(manifest: Manifest, listing: Listing): Service -> seq<Instance> {
    (service: Service) =>
      AddedOf(manifest, CurrentNamed(listing.services, service.name), service,
              InstancesOf(listing.instances, service.id))
  }

  function AllOf(listing: Listing): Service -> seq<Instance> {
    (service: Service) => InstancesOf(listing.instances, service.id)
  }

  function FirstReplicas(): Service -> seq<Instance> {
    (service: Service) => Replicas(service, 1, service.desiredReplicas)
  }

  function ServicesToCreate(manifest: Manifest, listing: Listing): seq<Service>
    requires manifest.WellFormed()
  {
    Filter(DesiredServices(manifest), IsNew(listing.services))
  }

  function ServicesToUpdate(manifest: Manifest, listing: Listing): seq<Service>
    requires manifest.WellFormed()
  {
    Filter(DesiredServices(manifest), IsChanged(manifest, listing.services))
  }

  function ServicesToRemove(manifest: Manifest, listing: Listing): seq<Service>
    requires manifest.WellFormed()
  {
    Filter(listing.services, IsDropped(manifest, ServiceIds(DesiredServices(manifest))))
  }

  function InstancesToRemove(manifest: Manifest, listing: Listing): seq<Instance>
    requires manifest.WellFormed()
  {
    FlatMap(ServicesToRemove(manifest, listing), AllOf(listing))
      + FlatMap(ServicesToUpdate(manifest, listing), RetiredFor(manifest, listing))
  }

  function InstancesToCreate(manifest: Manifest, listing: Listing): seq<Instance>
    requires manifest.WellFormed()
  {
    FlatMap(ServicesToCreate(manifest, listing), FirstReplicas())
      + FlatMap(ServicesToUpdate(manifest, listing), AddedFor(manifest, listing))
  }

  function IsRetried(desiredIds: set<string>, touched: set<string>): Instance -> bool {
    (i: Instance) => (i.status == Pending || i.status == Failed) && i.id !in touched && i.serviceId in desiredIds
  }

  function InstancesToRedeploy(manifest: Manifest, listing: Listing): seq<Instance>
    requires manifest.WellFormed()
  {
    Filter(listing.instances, IsRetried(
      ServiceIds(DesiredServices(manifest)),
      InstanceIds(InstancesToRemove(manifest, listing)) + InstanceIds(InstancesToCreate(manifest, listing))))
  }

  function IsUnlisted(names: set<string>): Volume -> bool {
    (v: Volume) => v.name !in names
  }

  function IsStale(manifestName: string, names: set<string>): Volume -> bool {
    (v: Volume) => v.manifestName == manifestName && v.name !in names
  }

  function VolumesToEnsure(manifest: Manifest, listing: Listing): seq<Volume> {
    Filter(DesiredVolumesFrom(manifest.name, manifest.volumes), IsUnlisted(VolumeNames(listing.volumes)))
  }

  function VolumesToRemove(manifest: Manifest, listing: Listing): seq<Volume> {
    Filter(listing.volumes,
           IsStale(manifest.name, VolumeNames(DesiredVolumesFrom(manifest.name, manifest.volumes))))
  }

  // ---- operations ------------------------------------------------------------------------

  function Connects(instanceId: string, networks: seq<string>): seq<Operation> {
    if networks == [] then [] else [ConnectNetwork(instanceId, networks[0])] + Connects(instanceId, networks[1..])
  }

  function Disconnects(instanceId: string, networks: seq<string>): seq<Operation> {
    if networks == [] then [] else [DisconnectNetwork(instanceId, networks[0])] + Disconnects(instanceId, networks[1..])
  }

  function DeployOperations(manifest: Manifest): Instance -> seq<Operation> {
    (i: Instance) =>
      [Create(i.id, i.serviceName, i.image, DeploySpecOf(manifest, i.serviceName))]
        + Connects(i.id, NetworksOf(manifest, i.serviceName)) + [Start(i.id)]
  }

  function RetireOperations(): Instance -> seq<Operation> {
    (i: Instance) => [Stop(i.id), Remove(i.id)]
  }

  function Absent(networks: seq<string>): string -> bool {
    (n: string) => n !in networks
  }

  function Rewire(previous: seq<string>, next: seq<string>): Instance -> seq<Operation> {
    (i: Instance) =>
      Disconnects(i.id, Filter(previous, Absent(next))) + Connects(i.id, Filter(next, Absent(previous)))
  }

  function Survives(serviceId: string, removed: set<string>): Instance -> bool {
    (i: Instance) => i.serviceId == serviceId && i.id !in removed
  }

  function NetworkOperations(manifest: Manifest, listing: Listing, removed: set<string>): Service -> seq<Operation> {
    (service: Service) =>
      var current := CurrentNamed(listing.services, service.name);
      if current.None? || service.name !in manifest.services || NeedsRecreate(manifest, current.value, service) then []
      else FlatMap(Filter(listing.instances, Survives(service.id, removed)),
                   Rewire(current.value.networks, service.networks))
  }

  function RemoveVolumeOperations(): Volume -> seq<Operation> {
    (v: Volume) => [RemoveVolume(v.name)]
  }

  function EnsureVolumeOperations(): Volume -> seq<Operation> {
    (v: Volume) => [EnsureVolume(v.name)]
  }

  function OperationsOf(
    manifest: Manifest, listing: Listing, create: seq<Instance>, redeploy: seq<Instance>, remove: seq<Instance>,
    ensureVolumes: seq<Volume>, removeVolumes: seq<Volume>, update: seq<Service>): seq<Operation>
  {
    FlatMap(remove, RetireOperations())
      + FlatMap(removeVolumes, RemoveVolumeOperations())
      + FlatMap(ensureVolumes, EnsureVolumeOperations())
      + FlatMap(update, NetworkOperations(manifest, listing, InstanceIds(remove)))
      + FlatMap(create, DeployOperations(manifest))
      + FlatMap(redeploy, DeployOperations(manifest))
  }

  function DiffOf(manifest: Manifest, listing: Listing): Diff
    requires manifest.WellFormed()
  {
    var update := ServicesToUpdate(manifest, listing);
    var create := InstancesToCreate(manifest, listing);
    var redeploy := InstancesToRedeploy(manifest, listing);
    var remove := InstancesToRemove(manifest, listing);
    var ensureVolumes := VolumesToEnsure(manifest, listing);
    var removeVolumes := VolumesToRemove(manifest, listing);
    Diff(ServicesToCreate(manifest, listing), update, ServicesToRemove(manifest, listing),
         create, redeploy, remove, ensureVolumes, removeVolumes,
         OperationsOf(manifest, listing, create, redeploy, remove, ensureVolumes, removeVolumes, update))
  }

  // ---- the loops of the planner ----------------------------------------------------------

  method BuildInstances(service: Service, count: nat) returns (instances: seq<Instance>)
    ensures instances == Replicas(service, 1, count)
  {
    instances := [];
    for replica := 0 to count
      invariant instances == Replicas(service, 1, replica)
    {
      instances := instances + [Replica(service, replica + 1)];
    }
  }

  method BuildScaledInstances(service: Service, count: nat, existing: seq<Instance>) returns (instances: seq<Instance>)
    ensures instances == Replicas(service, NextIndex(service.id, existing), count)
  {
    var nextIndex := 1;
    var k := |existing|;
    while k > 0
      invariant 0 <= k <= |existing|
      invariant nextIndex == NextIndex(service.id, existing[k..])
    {
      k := k - 1;
      assert existing[k..][1..] == existing[k + 1..];
      var index := ReplicaIndex(service.id, existing[k].id);
      if index >= nextIndex {
        nextIndex := index + 1;
      }
    }
    assert existing[0..] == existing;
    var first := nextIndex;
    instances := [];
    for replica := 0 to count
      invariant nextIndex == first + replica
      invariant instances == Replicas(service, first, replica)
    {
      instances := instances + [Replica(service, nextIndex)];
      nextIndex := nextIndex + 1;
    }
  }

  method BuildInstanceDeployOperations(manifest: Manifest, instance: Instance) returns (operations: seq<Operation>)
    ensures operations == DeployOperations(manifest)(instance)
  {
    var networks := NetworksOf(manifest, instance.serviceName);
    operations := [Create(instance.id, instance.serviceName, instance.image,
                          DeploySpecOf(manifest, instance.serviceName))];
    ghost var head := operations;
    for k := 0 to |networks|
      invariant operations == head + Connects(instance.id, networks[..k])
    {
      operations := operations + [ConnectNetwork(instance.id, networks[k])];
      ConnectsSnoc(instance.id, networks[..k], networks[k]);
      assert networks[..k + 1] == networks[..k] + [networks[k]];
    }
    assert networks[..|networks|] == networks;
    operations := operations + [Start(instance.id)];
  }

  lemma {:induction false} ConnectsSnoc(instanceId: string, networks: seq<string>, n: string)
    ensures Connects(instanceId, networks + [n]) == Connects(instanceId, networks) + [ConnectNetwork(instanceId, n)]
  {
    if networks == [] {
      assert [n][1..] == [];
    } else {
      assert (networks + [n])[1..] == networks[1..] + [n];
      ConnectsSnoc(instanceId, networks[1..], n);
    }
  }

  lemma FlatMapSnoc<A(!new), B(!new)>(xs: seq<A>, k: nat, f: A -> seq<B>)
    requires k < |xs|
    ensures FlatMap(xs[..k + 1], f) == FlatMap(xs[..k], f) + f(xs[k])
  {
    assert xs[..k + 1] == xs[..k] + [xs[k]];
    FlatMapConcat(xs[..k], [xs[k]], f);
    assert [xs[k]][1..] == [];
  }

  method BuildOperations(
    manifest: Manifest, listing: Listing, create: seq<Instance>, redeploy: seq<Instance>, remove: seq<Instance>,
    ensureVolumes: seq<Volume>, removeVolumes: seq<Volume>, update: seq<Service>)
    returns (operations: seq<Operation>)
    ensures operations ==
            OperationsOf(manifest, listing, create, redeploy, remove, ensureVolumes, removeVolumes, update)
  {
    operations := RetireAll(remove);
    operations := operations + FlatMap(removeVolumes, RemoveVolumeOperations());
    operations := operations + FlatMap(ensureVolumes, EnsureVolumeOperations());
    var networkOperations := ConnectUpdated(manifest, listing, InstanceIds(remove), update);
    operations := operations + networkOperations;
    var created := DeployAll(manifest, create);
    operations := operations + created;
    var redeployed := DeployAll(manifest, redeploy);
    operations := operations + redeployed;
  }

  /** The stop-and-remove loop of `buildOperations`. */
  method RetireAll(remove: seq<Instance>) returns (operations: seq<Operation>)
    ensures operations == FlatMap(remove, RetireOperations())
  {
    operations := [];
    for k := 0 to |remove|
      invariant operations == FlatMap(remove[..k], RetireOperations())
    {
      operations := operations + [Stop(remove[k].id)];
      operations := operations + [Remove(remove[k].id)];
      FlatMapSnoc(remove, k, RetireOperations());
    }
    assert remove[..|remove|] == remove;
  }

  /** The in-place network loop of `buildOperations`. */
  method ConnectUpdated(manifest: Manifest, listing: Listing, removed: set<string>, update: seq<Service>)
    returns (operations: seq<Operation>)
    ensures operations == FlatMap(update, NetworkOperations(manifest, listing, removed))
  {
    operations := [];
    for k := 0 to |update|
      invariant operations == FlatMap(update[..k], NetworkOperations(manifest, listing, removed))
    {
      FlatMapSnoc(update, k, NetworkOperations(manifest, listing, removed));
      var current := CurrentNamed(listing.services, update[k].name);
      if current.None? || update[k].name !in manifest.services
         || NeedsRecreate(manifest, current.value, update[k]) {
        continue;
      }
      var rewired := RewireAll(Filter(listing.instances, Survives(update[k].id, removed)),
                               current.value.networks, update[k].networks);
      operations := operations + rewired;
    }
    assert update[..|update|] == update;
  }

  /** A deploy loop of `buildOperations`. */
  method DeployAll(manifest: Manifest, instances: seq<Instance>) returns (operations: seq<Operation>)
    ensures operations == FlatMap(instances, DeployOperations(manifest))
  {
    operations := [];
    for k := 0 to |instances|
      invariant operations == FlatMap(instances[..k], DeployOperations(manifest))
    {
      FlatMapSnoc(instances, k, DeployOperations(manifest));
      var deploy := BuildInstanceDeployOperations(manifest, instances[k]);
      operations := operations + deploy;
    }
    assert instances[..|instances|] == instances;
  }

  /** The inner network loops of `buildOperations` for one service. */
  method RewireAll(instances: seq<Instance>, previous: seq<string>, next: seq<string>)
    returns (operations: seq<Operation>)
    ensures operations == FlatMap(instances, Rewire(previous, next))
  {
    operations := [];
    var removedNetworks := Filter(previous, Absent(next));
    var addedNetworks := Filter(next, Absent(previous));
    for k := 0 to |instances|
      invariant operations == FlatMap(instances[..k], Rewire(previous, next))
    {
      FlatMapSnoc(instances, k, Rewire(previous, next));
      operations := operations + Disconnects(instances[k].id, removedNetworks);
      operations := operations + Connects(instances[k].id, addedNetworks);
    }
    assert instances[..|instances|] == instances;
  }

  /** What one updated service retires and adds: the body of the loop over them. */
  method ReplaceOne(manifest: Manifest, listing: Listing, service: Service)
    returns (retired: seq<Instance>, added: seq<Instance>)
    ensures retired == RetiredFor(manifest, listing)(service)
    ensures added == AddedFor(manifest, listing)(service)
  {
    var current := CurrentNamed(listing.services, service.name);
    var existing := InstancesOf(listing.instances, service.id);
    retired, added := [], [];
    if current.None? || NeedsRecreate(manifest, current.value, service) {
      retired := existing;
      added := BuildInstances(service, service.desiredReplicas);
    } else {
      var scaleDelta := service.desiredReplicas - |existing|;
      if scaleDelta > 0 {
        added := BuildScaledInstances(service, scaleDelta, existing);
      } else if scaleDelta < 0 {
        retired := PickInstancesToRetire(existing, -scaleDelta);
      }
    }
  }

  /** The loop of `diff` over the services that are updated in place or recreated. */
  method ReplaceUpdated(manifest: Manifest, listing: Listing, servicesToUpdate: seq<Service>)
    returns (retired: seq<Instance>, added: seq<Instance>)
    ensures retired == FlatMap(servicesToUpdate, RetiredFor(manifest, listing))
    ensures added == FlatMap(servicesToUpdate, AddedFor(manifest, listing))
  {
    retired, added := [], [];
    for k := 0 to |servicesToUpdate|
      invariant retired == FlatMap(servicesToUpdate[..k], RetiredFor(manifest, listing))
      invariant added == FlatMap(servicesToUpdate[..k], AddedFor(manifest, listing))
    {
      FlatMapSnoc(servicesToUpdate, k, RetiredFor(manifest, listing));
      FlatMapSnoc(servicesToUpdate, k, AddedFor(manifest, listing));
      var one, more := ReplaceOne(manifest, listing, servicesToUpdate[k]);
      retired, added := retired + one, added + more;
    }
    assert servicesToUpdate[..|servicesToUpdate|] == servicesToUpdate;
  }

  /** The loop of `diff` over the services that are new. */
  method BuildFirst(servicesToCreate: seq<Service>) returns (added: seq<Instance>)
    ensures added == FlatMap(servicesToCreate, FirstReplicas())
  {
    added := [];
    for k := 0 to |servicesToCreate|
      invariant added == FlatMap(servicesToCreate[..k], FirstReplicas())
    {
      FlatMapSnoc(servicesToCreate, k, FirstReplicas());
      var built := BuildInstances(servicesToCreate[k], servicesToCreate[k].desiredReplicas);
      added := added + built;
    }
    assert servicesToCreate[..|servicesToCreate|] == servicesToCreate;
  }

  method ComputeDiff(manifest: Manifest, listing: Listing) returns (diff: Diff)
    requires manifest.WellFormed()
    ensures diff == DiffOf(manifest, listing)
  {
    var servicesToCreate := ServicesToCreate(manifest, listing);
    var servicesToUpdate := ServicesToUpdate(manifest, listing);
    var servicesToRemove := ServicesToRemove(manifest, listing);
    var instancesToRemove := FlatMap(servicesToRemove, AllOf(listing));
    var instancesToCreate := BuildFirst(servicesToCreate);
    var retired, added := ReplaceUpdated(manifest, listing, servicesToUpdate);
    instancesToRemove := instancesToRemove + retired;
    instancesToCreate := instancesToCreate + added;
    var ensureVolumes := VolumesToEnsure(manifest, listing);
    var removeVolumes := VolumesToRemove(manifest, listing);
    var redeploy := Filter(listing.instances, IsRetried(
      ServiceIds(DesiredServices(manifest)), InstanceIds(instancesToRemove) + InstanceIds(instancesToCreate)));
    var operations := BuildOperations(manifest, listing, instancesToCreate, redeploy, instancesToRemove,
                                      ensureVolumes, removeVolumes, servicesToUpdate);
    diff := Diff(servicesToCreate, servicesToUpdate, servicesToRemove, instancesToCreate, redeploy,
                 instancesToRemove, ensureVolumes, removeVolumes, operations);
  }
}
