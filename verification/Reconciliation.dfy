/**
 * The store reduced to what reconciliation is about: the service rows and, for each, how many
 * replicas exist. Every apply on the tables is shown to be one step on this summary.
 */
module Reconciliation {
  import opened Sequences
  import opened Naming
  import opened Json
  import opened Cluster
  import opened Planner
  import opened Apply

  datatype Summary = Summary(
    dialect: Dialect, services: map<string, Service>, have: map<string, nat>, volumes: map<string, Volume>)

  /** Which manifest each service name and each volume name belongs to. */
  datatype Catalog = Catalog(services: map<string, string>, volumes: map<string, string>)

  function Owners(catalog: Catalog): set<string> {
    catalog.services.Values + catalog.volumes.Values
  }

  /** No owner's name continues another's behind a colon, so their `manifest:name` ids never collide. */
  ghost predicate Apart(catalog: Catalog) {
    forall a, b :: a in Owners(catalog) && b in Owners(catalog) && a != b ==> !Extends(a, b)
  }

  lemma OwnedIds(catalog: Catalog, m1: string, n1: string, m2: string, n2: string)
    requires Apart(catalog) && m1 in Owners(catalog) && m2 in Owners(catalog)
    requires ServiceId(m1, n1) == ServiceId(m2, n2)
    ensures m1 == m2 && n1 == n2
  {
    ServiceIdInjective(m1, n1, m2, n2);
  }

  /** A manifest whose names are its own. */
  ghost predicate Admissible(catalog: Catalog, manifest: Manifest) {
    && manifest.WellFormed()
    && Apart(catalog)
    && (forall n :: n in manifest.services ==> n in catalog.services && catalog.services[n] == manifest.name)
    && (forall v :: v in manifest.volumes ==> v in catalog.volumes && catalog.volumes[v] == manifest.name)
  }

  ghost predicate ServiceRowOk(catalog: Catalog, id: string, row: Service) {
    && row.id == id == ServiceId(row.manifestName, row.name)
    && row.name in catalog.services && catalog.services[row.name] == row.manifestName
  }

  ghost predicate VolumeRowOk(catalog: Catalog, id: string, row: Volume) {
    && row.id == id == VolumeId(row.manifestName, row.name)
    && row.name in catalog.volumes && catalog.volumes[row.name] == row.manifestName
  }

  /** Every row is owned, reads back as it is, and has at most its desired replicas. */
  ghost predicate Sound(catalog: Catalog, sum: Summary) {
    && Apart(catalog)
    && sum.have.Keys == sum.services.Keys
    && (forall id :: id in sum.services ==>
          && ServiceRowOk(catalog, id, sum.services[id])
          && Saved(sum.dialect, sum.services[id]) == sum.services[id]
          && sum.have[id] <= sum.services[id].desiredReplicas)
    && (forall id :: id in sum.volumes ==> VolumeRowOk(catalog, id, sum.volumes[id]))
  }

  ghost predicate InstanceRowOk(sum: Summary, id: string, row: Instance) {
    && row.id == id
    && row.serviceId in sum.services && row.serviceId in sum.have
    && row.serviceName == sum.services[row.serviceId].name
    && row.image == sum.services[row.serviceId].image
    && id == InstanceId(row.serviceId, ReplicaIndex(row.serviceId, id))
    && 1 <= ReplicaIndex(row.serviceId, id) <= sum.have[row.serviceId]
  }

  /** The tables hold exactly the replicas `id-1 … id-have` of every service, with its image. */
  ghost predicate Represents(store: Store, sum: Summary) {
    && store.dialect == sum.dialect
    && store.services == sum.services
    && store.volumes == sum.volumes
    && (forall id :: id in store.instances ==> InstanceRowOk(sum, id, store.instances[id]))
    && (forall sid, k :: sid in sum.have && 1 <= k <= sum.have[sid] ==>
          InstanceId(sid, k) in store.instances && store.instances[InstanceId(sid, k)].serviceId == sid)
  }

  function HaveOf(have: map<string, nat>, sid: string): nat {
    if sid in have then have[sid] else 0
  }

  // ---- the summary machine ---------------------------------------------------------------

  /** Replicas of a stored service that outlive the retiring of an apply. */
  function RetainedCount(manifest: Manifest, row: Service, count: nat): nat {
    if row.manifestName != manifest.name then count
    else if row.name !in manifest.services then 0
    else
      var desired := DesiredService(manifest, row.name);
      if NeedsRecreate(manifest, row, desired) then 0
      else if desired.desiredReplicas < count then desired.desiredReplicas
      else count
  }

  function Retained(manifest: Manifest, sum: Summary): map<string, nat>
    requires sum.have.Keys == sum.services.Keys
  {
    map id | id in sum.have :: RetainedCount(manifest, sum.services[id], sum.have[id])
  }

  function IsAbsent(services: map<string, Service>): Service -> bool {
    (s: Service) => s.id !in services
  }

  function IsOutdated(manifest: Manifest, services: map<string, Service>): Service -> bool {
    (s: Service) => s.id in services && NeedsUpdate(manifest, services[s.id], s)
  }

  function Todo(manifest: Manifest, services: map<string, Service>): seq<Service>
    requires manifest.WellFormed()
  {
    Filter(DesiredServices(manifest), IsAbsent(services))
      + Filter(DesiredServices(manifest), IsOutdated(manifest, services))
  }

  function Missing(have: map<string, nat>, service: Service): nat {
    if HaveOf(have, service.id) <= service.desiredReplicas then service.desiredReplicas - HaveOf(have, service.id)
    else 0
  }

  predicate Placeable(have: map<string, nat>, service: Service, place: Placement) {
    Missing(have, service) == 0 || |place(service.id, Missing(have, service))| == Missing(have, service)
  }

  /** The summary once a service has its desired row and number. */
  function WithServed(sum: Summary, s: Service): Summary {
    sum.(services := sum.services[s.id := Saved(sum.dialect, s)], have := sum.have[s.id := s.desiredReplicas])
  }

  function ServeSummary(sum: Summary, todo: seq<Service>, place: Placement): (Summary, Outcome)
    decreases |todo|
  {
    if todo == [] then (sum, Done)
    else if !Placeable(sum.have, todo[0], place) then (sum, NoTarget(todo[0].name))
    else
      ServeSummary(WithServed(sum, todo[0]), todo[1..], place)
  }

  /** Ids of the manifest's stored services it no longer declares. */
  function DroppedIds(manifest: Manifest, services: map<string, Service>): set<string> {
    set id | id in services && services[id].manifestName == manifest.name && services[id].name !in manifest.services
  }

  function WithVolumes(volumes: map<string, Volume>, rows: seq<Volume>): (r: map<string, Volume>)
    decreases |rows|
    ensures forall id :: id in r <==> id in volumes || exists v :: v in rows && v.id == id
  {
    if rows == [] then volumes
    else WithVolumes(volumes[rows[0].id := rows[0]], rows[1..])
  }

  function StaleVolumes(manifest: Manifest, volumes: map<string, Volume>): set<string> {
    set id | id in volumes && volumes[id].manifestName == manifest.name && volumes[id].name !in manifest.volumes
      :: volumes[id].name
  }

  function Reconcile(sum: Summary, manifest: Manifest, place: Placement, kept: set<string>): (Summary, Outcome)
    requires sum.have.Keys == sum.services.Keys
    requires manifest.WellFormed()
  {
    var (served, outcome) :=
      ServeSummary(sum.(have := Retained(manifest, sum)), Todo(manifest, sum.services), place);
    if outcome != Done then (served, outcome)
    else
      var dropped := DroppedIds(manifest, sum.services);
      (Summary(sum.dialect, served.services - dropped, served.have - dropped,
               WithoutVolumes(WithVolumes(sum.volumes, DesiredVolumesFrom(manifest.name, manifest.volumes)),
                              StaleVolumes(manifest, sum.volumes) - kept)),
       Done)
  }
}
