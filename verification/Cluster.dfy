/** The stored cluster, manifests and execution operations. */
module Cluster {
  import opened Sequences
  import opened Json

  datatype Service = Service(
    id: string, name: string, manifestName: string, image: string, desiredReplicas: nat,
    networks: seq<string>, ingress: Json, functionSpec: Json, deploySpec: Json)

  datatype Status = Pending | Running | Failed | Stopped

  datatype Instance = Instance(
    id: string, serviceId: string, serviceName: string, nodeId: string, status: Status, image: string)

  datatype Volume = Volume(id: string, name: string, manifestName: string)

  /** The `build` entry of a service: a path, or a block with a context and an optional image. */
  datatype BuildEntry = NoBuild | BuildPath(path: string) | BuildBlock(context: string, outputImage: string)

  /** A manifest service; an absent image is empty. */
  datatype ManifestService = ManifestService(
    image: string, build: BuildEntry, isFunction: bool, scaleReplicas: Option<nat>, deployReplicas: Option<nat>,
    networks: seq<string>, ingress: Json, functionSpec: Json, deploy: DeployParts)

  /** What goes into the deploy fingerprint, as the planner resolves it. */
  datatype DeployParts = DeployParts(
    command: Json, environment: Json, ports: Json, secrets: Json, volumeMounts: Json, networkMode: Option<Json>)

  /** A parsed manifest: the service dictionary with its key order, and the volume keys. */
  datatype Manifest = Manifest(
    name: string, serviceNames: seq<string>, services: map<string, ManifestService>, volumes: seq<string>)
  {
    ghost predicate WellFormed() {
      && Distinct(serviceNames)
      && Elements(serviceNames) == services.Keys
      && Distinct(volumes)
    }
  }

  datatype Operation =
    | Stop(instanceId: string)
    | Remove(instanceId: string)
    | RemoveVolume(volumeName: string)
    | EnsureVolume(volumeName: string)
    | Create(instanceId: string, serviceName: string, image: string, deploySpec: Json)
    | ConnectNetwork(instanceId: string, networkName: string)
    | DisconnectNetwork(instanceId: string, networkName: string)
    | Start(instanceId: string)
    | Pull(image: string)

  /** The database an apply reads and writes: its dialect and its tables, keyed by primary key. */
  datatype Store = Store(
    dialect: Dialect, services: map<string, Service>, instances: map<string, Instance>, volumes: map<string, Volume>)

  /** A service row as it reads back once it is written. */
  function Saved(dialect: Dialect, s: Service): Service {
    s.(ingress := Stored(dialect, s.ingress), functionSpec := Stored(dialect, s.functionSpec),
       deploySpec := Stored(dialect, s.deploySpec))
  }

  lemma SavedTwice(dialect: Dialect, s: Service)
    ensures Saved(dialect, Saved(dialect, s)) == Saved(dialect, s)
  {
    StoredTwice(dialect, s.ingress);
    StoredTwice(dialect, s.functionSpec);
    StoredTwice(dialect, s.deploySpec);
  }

  /** Every row sits under its own primary key. */
  ghost predicate Keyed(store: Store) {
    && (forall id :: id in store.services ==> store.services[id].id == id)
    && (forall id :: id in store.instances ==> store.instances[id].id == id)
    && (forall id :: id in store.volumes ==> store.volumes[id].id == id)
  }

  /** The rows a round of `list` queries returned, in whatever order the database chose. */
  datatype Listing = Listing(services: seq<Service>, instances: seq<Instance>, volumes: seq<Volume>)

  /** `rows` enumerates a table without repetition. */
  ghost predicate Lists<R(!new)>(rows: seq<R>, table: map<string, R>, key: R -> string) {
    && Distinct(rows)
    && (forall r :: r in rows <==> key(r) in table && table[key(r)] == r)
  }

  ghost predicate IsListing(listing: Listing, store: Store) {
    && Lists(listing.services, store.services, (s: Service) => s.id)
    && Lists(listing.instances, store.instances, (i: Instance) => i.id)
    && Lists(listing.volumes, store.volumes, (v: Volume) => v.id)
  }

  function VolumeId(manifestName: string, volumeName: string): string {
    manifestName + ":" + volumeName
  }

  /** The deploy fingerprint: an object whose keys are written in this order. */
  function BuildDeploySpec(parts: DeployParts): Json {
    Object([Member("command", parts.command), Member("environment", parts.environment), Member("ports", parts.ports),
            Member("secrets", parts.secrets), Member("volumeMounts", parts.volumeMounts)]
           + (if parts.networkMode.Some? then [Member("networkMode", parts.networkMode.value)] else []))
  }

  /** What the planner resolves for a service the manifest does not have. */
  const NO_PARTS: DeployParts := DeployParts(List([]), Object([]), List([]), List([]), List([]), None)

  /** The fingerprint is never in stored order: `ports` is shorter than `environment` and comes after it. */
  lemma DeploySpecOutOfOrder(parts: DeployParts)
    ensures !InOrder(BuildDeploySpec(parts))
  {
    var members := BuildDeploySpec(parts).members;
    assert members[1].key == "environment" && members[2].key == "ports";
    assert !KeyBefore(members[1].key, members[2].key);
    assert members[1..][0] == members[1] && members[1..][1] == members[2];
    assert !Ascending(members[1..]);
  }
}
