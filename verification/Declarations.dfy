/** What applies make of a manifest, in the words of the manifest's own fields. */
module Declarations {
  import opened Sequences
  import opened Naming
  import opened Json
  import opened Cluster
  import opened Planner
  import opened Apply
  import opened Reconciliation
  import opened Refinement
  import opened Convergence
  import opened Runs
  import opened Replay

  // ---- records of finished runs -----------------------------------------------------------

  /** The summary a run of finished applies settles on; no service id is contended in it. */
  lemma RunEnds(catalog: Catalog, dialect: Dialect, attempts: seq<Attempt>, id: string) returns (sum: Summary)
    requires Apart(catalog) && Run(catalog, dialect, attempts) && AllDone(attempts)
    ensures Represents(End(dialect, attempts), sum) && SettledAt(Manifests(attempts), sum, id)
    ensures sum.dialect == dialect && sum.have.Keys == sum.services.Keys
    ensures Uncontended(Manifests(attempts), id, ServiceDeclared(dialect), ServiceOwner())
    ensures forall m :: m in Manifests(attempts) ==> Admissible(catalog, m)
  {
    sum := RunSettles(catalog, dialect, attempts);
    RunAdmissible(catalog, dialect, attempts);
    AdmissibleUncontended(catalog, dialect, Manifests(attempts), id);
  }

  lemma DeclaredBy(dialect: Dialect, m: Manifest, service: string)
    requires m.WellFormed() && service in m.services
    ensures ServiceDeclared(dialect)(m, ServiceId(m.name, service)) == Some(Saved(dialect, DesiredService(m, service)))
  {
    DesiredMember(m, DesiredService(m, service));
    DeclaredMember(m, DesiredService(m, service));
  }

  /** The row a history settles on under the id of a service its manifest's last version declares. */
  lemma LastRow(
    catalog: Catalog, dialect: Dialect, attempts: seq<Attempt>, m: Manifest, service: string) returns (sum: Summary)
    requires Apart(catalog) && Run(catalog, dialect, attempts) && AllDone(attempts)
    requires LastOf(Manifests(attempts), m.name) == Some(m)
    ensures Represents(End(dialect, attempts), sum)
    ensures service in m.services ==>
              At(sum, ServiceId(m.name, service)) ==
              Some((Saved(dialect, DesiredService(m, service)), DesiredService(m, service).desiredReplicas))
    ensures service !in m.services && m.name in Owners(catalog) ==> At(sum, ServiceId(m.name, service)) == None
    ensures sum.have.Keys == sum.services.Keys
  {
    var history, id := Manifests(attempts), ServiceId(m.name, service);
    sum := RunEnds(catalog, dialect, attempts, id);
    if service in m.services {
      DeclaredBy(dialect, m, service);
      FinalIsLast(history, id, ServiceDeclared(dialect), ServiceOwner(), m.name);
    } else if m.name in Owners(catalog) {
      UndeclaredIsGone(catalog, dialect, history, m, service);
    }
  }

  lemma UndeclaredIsGone(catalog: Catalog, dialect: Dialect, history: seq<Manifest>, m: Manifest, service: string)
    requires forall w :: w in history ==> Admissible(catalog, w)
    requires Uncontended(history, ServiceId(m.name, service), ServiceDeclared(dialect), ServiceOwner())
    requires m.name in Owners(catalog) && Apart(catalog)
    requires LastOf(history, m.name) == Some(m) && service !in m.services
    ensures Final(history, ServiceId(m.name, service), ServiceDeclared(dialect), ServiceOwner()) == None
  {
    var id := ServiceId(m.name, service);
    var final := Final(history, id, ServiceDeclared(dialect), ServiceOwner());
    FinalIsLast(history, id, ServiceDeclared(dialect), ServiceOwner(), m.name);
    if final.Some? {
      var w := LastOf(history, final.value.manifestName).value;
      assert ServiceDeclared(dialect)(w, id) == final;
      NotDeclaredBy(catalog, w, m, service);
      assert false;
    }
  }

  lemma NotDeclaredBy(catalog: Catalog, w: Manifest, m: Manifest, service: string)
    requires Admissible(catalog, w) && m.name in Owners(catalog)
    requires Declared(w, ServiceId(m.name, service)).Some?
    ensures w.name == m.name && service in w.services
  {
    var s := Declared(w, ServiceId(m.name, service)).value;
    DesiredMember(w, s);
    assert catalog.services[s.name] == w.name;
    OwnedIds(catalog, w.name, s.name, m.name, service);
  }

  /**
   * Replicas follow the manifest. After any run of finished applies, a service of the last version of its manifest
   * holds no replica if it is a function, else replicas 1 to its `scale` number, else to its `deploy` number, else
   * one replica alone; one that version does not declare holds none, if the manifest owns any name at all.
   */
  lemma ReplicasFollowTheManifest(
    catalog: Catalog, dialect: Dialect, attempts: seq<Attempt>, m: Manifest, service: string)
    requires Apart(catalog) && Run(catalog, dialect, attempts) && AllDone(attempts)
    requires LastOf(Manifests(attempts), m.name) == Some(m)
    ensures var instances, id := End(dialect, attempts).instances, ServiceId(m.name, service);
            && (service !in m.services && m.name in Owners(catalog) ==> HoldsReplicas(instances, id, 0))
            && (service in m.services ==>
                  var s := m.services[service];
                  && (s.isFunction ==> HoldsReplicas(instances, id, 0))
                  && (!s.isFunction && s.scaleReplicas.Some? ==> HoldsReplicas(instances, id, s.scaleReplicas.value))
                  && (!s.isFunction && s.scaleReplicas.None? && s.deployReplicas.Some? ==>
                        HoldsReplicas(instances, id, s.deployReplicas.value))
                  && (!s.isFunction && s.scaleReplicas.None? && s.deployReplicas.None? ==>
                        HoldsReplicas(instances, id, 1)))
  {
    var sum := LastRow(catalog, dialect, attempts, m, service);
    var id := ServiceId(m.name, service);
    HoldsIff(End(dialect, attempts), sum, id, HaveOf(sum.have, id));
  }

  /** The image a manifest service asks for: its own, else one it builds. */
  predicate AsksFor(s: ManifestService, image: string) {
    && (s.image != "" ==> image == s.image)
    && (s.image == "" && s.build.NoBuild? ==> image == "unknown")
    && (s.image == "" && s.build.BuildPath? ==> image == "build://" + s.build.path)
    && (s.image == "" && s.build.BuildBlock? && "container-registry://" <= s.build.outputImage ==>
          image == s.build.outputImage)
    && (s.image == "" && s.build.BuildBlock? && !("container-registry://" <= s.build.outputImage) ==>
          image == "build://" + s.build.context)
  }

  lemma ImageAskedFor(s: ManifestService)
    ensures forall image :: AsksFor(s, image) <==> image == ResolveImage(s)
  {
  }

  /** A fingerprint that holds the given parts, and nothing else, as a column of the dialect returns them. */
  predicate Fingerprints(dialect: Dialect, spec: Json, parts: DeployParts) {
    && spec.Object? && |spec.members| == (if parts.networkMode.Some? then 6 else 5)
    && MemberAt(spec.members, "command") == Some(Stored(dialect, parts.command))
    && MemberAt(spec.members, "environment") == Some(Stored(dialect, parts.environment))
    && MemberAt(spec.members, "ports") == Some(Stored(dialect, parts.ports))
    && MemberAt(spec.members, "secrets") == Some(Stored(dialect, parts.secrets))
    && MemberAt(spec.members, "volumeMounts") == Some(Stored(dialect, parts.volumeMounts))
    && (parts.networkMode.Some? ==>
          MemberAt(spec.members, "networkMode") == Some(Stored(dialect, parts.networkMode.value)))
  }

  lemma {:induction false} MemberIs(members: seq<Member>, k: nat)
    requires k < |members| && forall i :: 0 <= i < k ==> members[i].key != members[k].key
    ensures MemberAt(members, members[k].key) == Some(members[k].value)
  {
    if k > 0 {
      MemberIs(members[1..], k - 1);
    }
  }

  lemma PartStands(dialect: Dialect, parts: DeployParts, k: nat)
    requires k < |BuildDeploySpec(parts).members|
    ensures var members := BuildDeploySpec(parts).members;
            && Stored(dialect, BuildDeploySpec(parts)).Object?
            && |Stored(dialect, BuildDeploySpec(parts)).members| == |members|
            && MemberAt(Stored(dialect, BuildDeploySpec(parts)).members, members[k].key)
               == Some(Stored(dialect, members[k].value))
  {
    var members := BuildDeploySpec(parts).members;
    MemberIs(members, k);
    StoredMember(dialect, members, members[k].key);
  }

  lemma SpecFingerprints(dialect: Dialect, parts: DeployParts)
    ensures Fingerprints(dialect, Stored(dialect, BuildDeploySpec(parts)), parts)
  {
    PartStands(dialect, parts, 0);
    PartStands(dialect, parts, 1);
    PartStands(dialect, parts, 2);
    PartStands(dialect, parts, 3);
    PartStands(dialect, parts, 4);
    if parts.networkMode.Some? {
      PartStands(dialect, parts, 5);
    }
  }

  /**
   * Rows follow the manifest. After any run of finished applies the row of a declared service names it and its
   * manifest and has the image it asks for, its networks, and its ingress, function entry and deploy parts as the
   * database returns them; a service the last version does not declare has no row.
   */
  lemma RowFollowsTheManifest(
    catalog: Catalog, dialect: Dialect, attempts: seq<Attempt>, m: Manifest, service: string)
    requires Apart(catalog) && Run(catalog, dialect, attempts) && AllDone(attempts)
    requires LastOf(Manifests(attempts), m.name) == Some(m)
    ensures var services, id := End(dialect, attempts).services, ServiceId(m.name, service);
            && (service in m.services ==> id in services)
            && (service !in m.services && m.name in Owners(catalog) ==> id !in services)
            && (service in m.services ==>
                  var s, row := m.services[service], services[id];
                  && row.id == id && row.name == service && row.manifestName == m.name
                  && AsksFor(s, row.image) && row.networks == s.networks
                  && row.ingress == Stored(dialect, s.ingress) && row.functionSpec == Stored(dialect, s.functionSpec)
                  && Fingerprints(dialect, row.deploySpec, s.deploy))
  {
    var sum := LastRow(catalog, dialect, attempts, m, service);
    if service in m.services {
      ImageAskedFor(m.services[service]);
      SpecFingerprints(dialect, m.services[service].deploy);
    }
  }

  /** Volumes follow the manifest, when every node with a stale volume took its plan. */
  lemma VolumesFollowTheManifest(
    catalog: Catalog, dialect: Dialect, attempts: seq<Attempt>, m: Manifest, volume: string)
    requires Apart(catalog) && Run(catalog, dialect, attempts) && AllDone(attempts) && AllTaken(attempts)
    requires LastOf(Manifests(attempts), m.name) == Some(m)
    ensures var volumes, id := End(dialect, attempts).volumes, m.name + ":" + volume;
            && (volume in m.volumes ==> id in volumes && volumes[id] == Volume(id, volume, m.name))
            && (volume !in m.volumes && m.name in Owners(catalog) ==> id !in volumes)
  {
    var history, id := Manifests(attempts), VolumeId(m.name, volume);
    var sum := RunSettles(catalog, dialect, attempts);
    RunAdmissible(catalog, dialect, attempts);
    AdmissibleUncontended(catalog, dialect, history, id);
    FinalIsLast(history, id, VolumeDeclared(), VolumeOwner(), m.name);
    assert Find(sum.volumes, id) == Final(history, id, VolumeDeclared(), VolumeOwner());
    VolumeDeclaredIs(m, volume);
    if volume !in m.volumes && m.name in Owners(catalog) {
      VolumeOfAnother(catalog, history, m, volume);
    }
  }

  lemma VolumeDeclaredIs(m: Manifest, volume: string)
    ensures VolumeDeclared()(m, VolumeId(m.name, volume)) ==
            if volume in m.volumes then Some(Volume(VolumeId(m.name, volume), volume, m.name)) else None
  {
    var id := VolumeId(m.name, volume);
    var row := Volume(id, volume, m.name);
    var declared := VolumeDeclared()(m, id);
    DesiredVolume(m, row);
    if declared.Some? {
      DesiredVolume(m, declared.value);
      SameIdSameName(m, declared.value.name, volume);
    }
  }

  lemma VolumeOfAnother(catalog: Catalog, history: seq<Manifest>, m: Manifest, volume: string)
    requires forall w :: w in history ==> Admissible(catalog, w)
    requires Uncontended(history, VolumeId(m.name, volume), VolumeDeclared(), VolumeOwner())
    requires m.name in Owners(catalog) && Apart(catalog)
    requires LastOf(history, m.name) == Some(m) && volume !in m.volumes
    ensures Final(history, VolumeId(m.name, volume), VolumeDeclared(), VolumeOwner()) == None
  {
    var id := VolumeId(m.name, volume);
    var final := Final(history, id, VolumeDeclared(), VolumeOwner());
    FinalIsLast(history, id, VolumeDeclared(), VolumeOwner(), m.name);
    if final.Some? {
      var w := LastOf(history, final.value.manifestName).value;
      var v := final.value;
      DesiredVolume(w, v);
      assert id == ServiceId(w.name, v.name) && catalog.volumes[v.name] == w.name;
      OwnedIds(catalog, w.name, v.name, m.name, volume);
      assert false;
    }
  }

  // ---- rows of one apply ------------------------------------------------------------------

  /** Rows that were inserted without meeting an existing id, each with the node at its place. */
  lemma {:induction false} InsertedAt(table: map<string, Instance>, rows: seq<Instance>, nodes: seq<string>, j: nat)
    requires |rows| == |nodes| && InsertInstances(table, rows, nodes).duplicate == None && j < |rows|
    ensures var after := InsertInstances(table, rows, nodes).table;
            rows[j].id in after && after[rows[j].id] == rows[j].(nodeId := nodes[j])
    decreases j
  {
    var first := rows[0].(nodeId := nodes[0]);
    if j == 0 {
      InsertFrame(table[first.id := first], rows[1..], nodes[1..], first.id);
    } else {
      InsertedAt(table[first.id := first], rows[1..], nodes[1..], j - 1);
    }
  }

  /** A finished serving loop gives the new rows of a service the nodes placement chose for them, in order. */
  lemma {:induction false} ServedNodes(
    store: Store, todo: seq<Service>, create: seq<Instance>, place: Placement, s: Service, j: nat)
    requires ServeServices(store, todo, create, place).1 == Done && s in todo
    requires j < |Filter(create, IsInstanceOf(s.id))|
    ensures var added := Filter(create, IsInstanceOf(s.id));
            var after := ServeServices(store, todo, create, place).0.instances;
            && |place(s.id, |added|)| == |added|
            && added[j].id in after && after[added[j].id] == added[j].(nodeId := place(s.id, |added|)[j])
    decreases |todo|
  {
    var service := todo[0];
    var added := Filter(create, IsInstanceOf(service.id));
    var nodes := if added == [] then [] else place(service.id, |added|);
    var table := InsertInstances(store.instances, added, nodes).table;
    var store' := store.(instances := table, services := store.services[service.id := Saved(store.dialect, service)]);
    if service.id == s.id {
      InsertedAt(store.instances, added, nodes, j);
      ServeFrame(store', todo[1..], create, place, added[j].id);
    } else {
      ServedNodes(store', todo[1..], create, place, s, j);
    }
  }

  /** Replica `k` of a service that had `h` is pending on the node at its place among those chosen for it. */
  ghost predicate NewRow(table: map<string, Instance>, place: Placement, s: Service, h: nat, k: nat) {
    var id := InstanceId(s.id, k);
    && h < k <= s.desiredReplicas && |place(s.id, s.desiredReplicas - h)| == s.desiredReplicas - h
    && id in table
    && table[id] == Instance(id, s.id, s.name, place(s.id, s.desiredReplicas - h)[k - h - 1], Pending, s.image)
  }

  /** A service's new rows once the serving loop has finished. */
  lemma ServedBlock(
    store: Store, todo: seq<Service>, create: seq<Instance>, place: Placement, have: map<string, nat>, s: Service,
    k: nat)
    requires ServeServices(store, todo, create, place).1 == Done && s in todo && AddsMissing(create, have, s)
    requires HaveOf(have, s.id) < k <= s.desiredReplicas
    ensures NewRow(ServeServices(store, todo, create, place).0.instances, place, s, HaveOf(have, s.id), k)
  {
    var j := k - HaveOf(have, s.id) - 1;
    BlockRow(create, have, s, k);
    ServedNodes(store, todo, create, place, s, j);
  }

  lemma BlockRow(create: seq<Instance>, have: map<string, nat>, s: Service, k: nat)
    requires AddsMissing(create, have, s) && HaveOf(have, s.id) < k <= s.desiredReplicas
    ensures var added := Filter(create, IsInstanceOf(s.id));
            |added| == s.desiredReplicas - HaveOf(have, s.id) && added[k - HaveOf(have, s.id) - 1] == Replica(s, k)
  {
  }

  /** The tables when the serving loop of a diff ends. */
  function ServedBy(store: Store, diff: Diff, place: Placement): (Store, Outcome) {
    ServeServices(store.(instances := store.instances - InstanceIds(diff.instancesToRemove)),
                  diff.servicesToCreate + diff.servicesToUpdate, diff.instancesToCreate, place)
  }

  /** A finished apply has at an id what its serving loop left there, or no row. */
  lemma ServedRowStays(store: Store, diff: Diff, place: Placement, kept: set<string>, id: string)
    requires ApplyDiff(store, diff, place, kept).1 == Done
    ensures ServedBy(store, diff, place).1 == Done
    ensures id in ServedBy(store, diff, place).0.instances && id in ApplyDiff(store, diff, place, kept).0.instances ==>
              ApplyDiff(store, diff, place, kept).0.instances[id] == ServedBy(store, diff, place).0.instances[id]
  {
  }

  lemma HeldRetained(
    catalog: Catalog, store: Store, sum: Summary, manifest: Manifest, listing: Listing, sid: string, h: nat)
    requires Ready(catalog, store, sum, manifest, listing)
    requires HoldsReplicas(RetiredTable(store, manifest, listing), sid, h)
    ensures h == HaveOf(Retained(manifest, sum), sid)
  {
    RetirePhase(catalog, store, sum, manifest, listing);
    HoldsIff(store.(instances := RetiredTable(store, manifest, listing)), sum.(have := Retained(manifest, sum)), sid,
             h);
  }

  lemma HeldAfter(
    catalog: Catalog, store: Store, sum: Summary, manifest: Manifest, listing: Listing, place: Placement,
    kept: set<string>, s: Service, n: nat)
    requires Ready(catalog, store, sum, manifest, listing) && s in DesiredServices(manifest)
    requires ApplyDiff(store, DiffOf(manifest, listing), place, kept).1 == Done
    requires HoldsReplicas(ApplyDiff(store, DiffOf(manifest, listing), place, kept).0.instances, s.id, n)
    ensures n == CountAfter(manifest, sum, s)
    ensures var after := ApplyDiff(store, DiffOf(manifest, listing), place, kept).0;
            s.id in after.services && after.services[s.id] == Saved(sum.dialect, s)
  {
    var sum' := Reconcile(sum, manifest, place, kept).0;
    ApplyRefines(catalog, store, sum, manifest, listing, place, kept);
    HoldsIff(ApplyDiff(store, DiffOf(manifest, listing), place, kept).0, sum', s.id, n);
    FinishedApply(catalog, sum, manifest, place, kept);
    DeclaredMember(manifest, s);
    assert At(sum', s.id) == ExpectedAt(manifest, sum, s.id);
  }

  /** A service that grows is on the work list and grows to its desired number. */
  lemma GrownIsServed(catalog: Catalog, sum: Summary, manifest: Manifest, s: Service)
    requires Sound(catalog, sum) && Admissible(catalog, manifest) && s in DesiredServices(manifest)
    requires HaveOf(Retained(manifest, sum), s.id) < CountAfter(manifest, sum, s)
    ensures s in Todo(manifest, sum.services) && CountAfter(manifest, sum, s) == s.desiredReplicas
  {
    TodoMember(manifest, sum.services, s);
    if !Changed(manifest, sum.services, s) {
      RetainedIs(catalog, sum, manifest, s);
      DeclaredRow(catalog, sum, manifest, s);
    }
  }

  lemma GrownServed(
    catalog: Catalog, store: Store, sum: Summary, manifest: Manifest, listing: Listing, place: Placement, s: Service,
    k: nat)
    requires Ready(catalog, store, sum, manifest, listing) && s in Todo(manifest, sum.services)
    requires ServedBy(store, DiffOf(manifest, listing), place).1 == Done
    requires HaveOf(Retained(manifest, sum), s.id) < k <= s.desiredReplicas
    ensures NewRow(ServedBy(store, DiffOf(manifest, listing), place).0.instances, place, s,
                   HaveOf(Retained(manifest, sum), s.id), k)
  {
    var diff := DiffOf(manifest, listing);
    TodoIsDiff(catalog, store, sum, manifest, listing);
    AddedIs(catalog, store, sum, manifest, listing, s);
    ServedBlock(store.(instances := store.instances - InstanceIds(diff.instancesToRemove)),
                diff.servicesToCreate + diff.servicesToUpdate, diff.instancesToCreate, place, Retained(manifest, sum),
                s, k);
  }

  lemma GrownBlock(
    catalog: Catalog, store: Store, sum: Summary, manifest: Manifest, listing: Listing, place: Placement,
    kept: set<string>, s: Service, k: nat)
    requires Ready(catalog, store, sum, manifest, listing) && s in Todo(manifest, sum.services)
    requires ApplyDiff(store, DiffOf(manifest, listing), place, kept).1 == Done
    requires HaveOf(Retained(manifest, sum), s.id) < k <= s.desiredReplicas
    requires InstanceId(s.id, k) in ApplyDiff(store, DiffOf(manifest, listing), place, kept).0.instances
    ensures NewRow(ApplyDiff(store, DiffOf(manifest, listing), place, kept).0.instances, place, s,
                   HaveOf(Retained(manifest, sum), s.id), k)
  {
    ServedRowStays(store, DiffOf(manifest, listing), place, kept, InstanceId(s.id, k));
    GrownServed(catalog, store, sum, manifest, listing, place, s, k);
  }

  lemma HeldReplica(table: map<string, Instance>, sid: string, n: nat, k: nat)
    requires HoldsReplicas(table, sid, n) && 1 <= k <= n
    ensures InstanceId(sid, k) in table
  {
  }

  /**
   * New rows. Where a declared service holds replicas 1 to h once an apply has retired rows, and 1 to n once it has
   * finished, each replica above h is pending, names its service and the image of its row, and is on the node
   * placement chose for it: the nodes for the n - h new replicas are given out in order.
   */
  lemma NewReplicasAreScheduled(
    catalog: Catalog, store: Store, sum: Summary, manifest: Manifest, listing: Listing, place: Placement,
    kept: set<string>, s: Service, h: nat, n: nat, k: nat)
    requires Ready(catalog, store, sum, manifest, listing) && s in DesiredServices(manifest)
    requires ApplyDiff(store, DiffOf(manifest, listing), place, kept).1 == Done
    requires HoldsReplicas(RetiredTable(store, manifest, listing), s.id, h)
    requires HoldsReplicas(ApplyDiff(store, DiffOf(manifest, listing), place, kept).0.instances, s.id, n)
    requires h < k <= n
    ensures var after := ApplyDiff(store, DiffOf(manifest, listing), place, kept).0;
            && n == s.desiredReplicas && NewRow(after.instances, place, s, h, k)
            && s.id in after.services && after.services[s.id].image == s.image
  {
    HeldRetained(catalog, store, sum, manifest, listing, s.id, h);
    HeldAfter(catalog, store, sum, manifest, listing, place, kept, s, n);
    HeldReplica(ApplyDiff(store, DiffOf(manifest, listing), place, kept).0.instances, s.id, n, k);
    GrownNew(catalog, store, sum, manifest, listing, place, kept, s, k);
  }

  lemma GrownNew(
    catalog: Catalog, store: Store, sum: Summary, manifest: Manifest, listing: Listing, place: Placement,
    kept: set<string>, s: Service, k: nat)
    requires Ready(catalog, store, sum, manifest, listing) && s in DesiredServices(manifest)
    requires ApplyDiff(store, DiffOf(manifest, listing), place, kept).1 == Done
    requires HaveOf(Retained(manifest, sum), s.id) < k <= CountAfter(manifest, sum, s)
    requires InstanceId(s.id, k) in ApplyDiff(store, DiffOf(manifest, listing), place, kept).0.instances
    ensures CountAfter(manifest, sum, s) == s.desiredReplicas
    ensures NewRow(ApplyDiff(store, DiffOf(manifest, listing), place, kept).0.instances, place, s,
                   HaveOf(Retained(manifest, sum), s.id), k)
  {
    GrownIsServed(catalog, sum, manifest, s);
    GrownBlock(catalog, store, sum, manifest, listing, place, kept, s, k);
  }

  /** The number of replicas a manifest service asks for. */
  predicate AsksForReplicas(s: ManifestService, n: nat) {
    && (s.isFunction ==> n == 0)
    && (!s.isFunction && s.scaleReplicas.Some? ==> n == s.scaleReplicas.value)
    && (!s.isFunction && s.scaleReplicas.None? && s.deployReplicas.Some? ==> n == s.deployReplicas.value)
    && (!s.isFunction && s.scaleReplicas.None? && s.deployReplicas.None? ==> n == 1)
  }

  /** A stored row says all a manifest service says about its containers, up to their networks. */
  predicate ContainersAgree(row: Service, s: ManifestService) {
    && AsksFor(s, row.image)
    && row.ingress == s.ingress
    && row.functionSpec == s.functionSpec
    && row.deploySpec == BuildDeploySpec(s.deploy)
  }

  lemma RetainedCountIs(manifest: Manifest, row: Service, count: nat, k: nat)
    requires k <= count
    ensures k <= RetainedCount(manifest, row, count) <==>
            || k == 0
            || row.manifestName != manifest.name
            || (row.name in manifest.services && ContainersAgree(row, manifest.services[row.name])
                && exists n :: AsksForReplicas(manifest.services[row.name], n) && k <= n)
  {
    if row.manifestName == manifest.name && row.name in manifest.services {
      var s := manifest.services[row.name];
      ImageAskedFor(s);
      assert AsksForReplicas(s, DesiredService(manifest, row.name).desiredReplicas);
      assert forall n :: AsksForReplicas(s, n) ==> n == DesiredService(manifest, row.name).desiredReplicas;
      assert NeedsRecreate(manifest, row, DesiredService(manifest, row.name)) <==> !ContainersAgree(row, s);
    }
  }

  lemma StoredService(catalog: Catalog, store: Store, sum: Summary, manifest: Manifest, id: string)
    requires Sound(catalog, sum) && Represents(store, sum) && id in store.instances
    ensures var i := store.instances[id];
            && i.id == id && i.serviceId in store.services && i.serviceId in sum.have
            && 1 <= ReplicaIndex(i.serviceId, id) <= sum.have[i.serviceId]
            && Retained(manifest, sum)[i.serviceId]
               == RetainedCount(manifest, store.services[i.serviceId], sum.have[i.serviceId])
  {
    StoredRow(store, sum, id);
  }

  /**
   * What survives an apply. An instance outlives the retiring exactly when its service belongs to another manifest,
   * or the manifest still declares it, the stored image, ingress, function entry and fingerprint equal the declared
   * ones, and its number is not above the number of replicas asked for. It then keeps its row.
   */
  lemma SurvivesIff(
    catalog: Catalog, store: Store, sum: Summary, manifest: Manifest, listing: Listing, place: Placement,
    kept: set<string>, id: string)
    requires Ready(catalog, store, sum, manifest, listing) && id in store.instances
    ensures store.instances[id].serviceId in store.services
    ensures var row := store.services[store.instances[id].serviceId];
            id in RetiredTable(store, manifest, listing) <==>
            || row.manifestName != manifest.name
            || (row.name in manifest.services && ContainersAgree(row, manifest.services[row.name])
                && exists n :: AsksForReplicas(manifest.services[row.name], n)
                               && ReplicaIndex(store.instances[id].serviceId, id) <= n)
    ensures var (after, outcome) := ApplyDiff(store, DiffOf(manifest, listing), place, kept);
            id in RetiredTable(store, manifest, listing) && outcome == Done ==>
              id in after.instances && after.instances[id] == store.instances[id]
  {
    RetiringSpares(catalog, store, sum, manifest, listing, id);
    if id in RetiredTable(store, manifest, listing) {
      AfterFrame(store, manifest, listing, place, kept, id);
      if ApplyDiff(store, DiffOf(manifest, listing), place, kept).1 == Done {
        AddedRows(catalog, store, sum, manifest, listing, place, kept, id);
      }
    }
  }

  lemma RetiringSpares(catalog: Catalog, store: Store, sum: Summary, manifest: Manifest, listing: Listing, id: string)
    requires Ready(catalog, store, sum, manifest, listing) && id in store.instances
    ensures store.instances[id].serviceId in store.services
    ensures var row := store.services[store.instances[id].serviceId];
            id in RetiredTable(store, manifest, listing) <==>
            || row.manifestName != manifest.name
            || (row.name in manifest.services && ContainersAgree(row, manifest.services[row.name])
                && exists n :: AsksForReplicas(manifest.services[row.name], n)
                               && ReplicaIndex(store.instances[id].serviceId, id) <= n)
  {
    StoredService(catalog, store, sum, manifest, id);
    var i := store.instances[id];
    RemovedIff(catalog, store, sum, manifest, listing, i);
    RemovedNamed(catalog, store, sum, manifest, listing, id);
    RetainedCountIs(manifest, store.services[i.serviceId], sum.have[i.serviceId], ReplicaIndex(i.serviceId, id));
  }

  lemma RemovedNamed(catalog: Catalog, store: Store, sum: Summary, manifest: Manifest, listing: Listing, id: string)
    requires Ready(catalog, store, sum, manifest, listing) && id in store.instances
    ensures id in RetiredTable(store, manifest, listing) <==>
            store.instances[id] !in InstancesToRemove(manifest, listing)
  {
    StoredRow(store, sum, id);
    RemovedStored(catalog, store, sum, manifest, listing, id);
    if id in InstanceIds(InstancesToRemove(manifest, listing)) {
      var i :| i in InstancesToRemove(manifest, listing) && i.id == id;
      RemovedAreStored(catalog, store, sum, manifest, listing, i);
    }
  }
}
