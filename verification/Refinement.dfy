/** The string and array code of the planner and the apply loop computes the summary machine. */
module Refinement {
  import opened Sequences
  import opened Naming
  import opened Cluster
  import opened Planner
  import opened Apply
  import opened Reconciliation

  // ---- what the planner reads ------------------------------------------------------------

  /** Looking a manifest's service up by name finds exactly the row stored under its id. */
  lemma CurrentIsStored(catalog: Catalog, sum: Summary, rows: seq<Service>, manifest: Manifest, name: string)
    requires Sound(catalog, sum) && Admissible(catalog, manifest) && name in manifest.services
    requires Lists(rows, sum.services, (s: Service) => s.id)
    ensures CurrentNamed(rows, name) ==
            if ServiceId(manifest.name, name) in sum.services
            then Some(sum.services[ServiceId(manifest.name, name)]) else None
  {
    var sid := ServiceId(manifest.name, name);
    var current := CurrentNamed(rows, name);
    if sid in sum.services {
      var row := sum.services[sid];
      OwnedIds(catalog, row.manifestName, row.name, manifest.name, name);
      assert row in rows;
    }
  }

  /** A table holds exactly replicas 1 to n of a service. */
  ghost predicate HoldsReplicas(table: map<string, Instance>, sid: string, n: nat) {
    && (forall k :: 1 <= k <= n ==> InstanceId(sid, k) in table && table[InstanceId(sid, k)].serviceId == sid)
    && (forall id :: id in table ==>
          && table[id].id == id
          && (table[id].serviceId == sid ==>
                id == InstanceId(sid, ReplicaIndex(sid, id)) && 1 <= ReplicaIndex(sid, id) <= n))
  }

  ghost predicate ListsReplicas(table: map<string, Instance>, sid: string, existing: seq<Instance>) {
    && Distinct(existing)
    && (forall i :: i in existing <==> i.id in table && table[i.id] == i && i.serviceId == sid)
  }

  lemma ReplicasHeld(store: Store, sum: Summary, rows: seq<Instance>, sid: string)
    requires Represents(store, sum) && sum.have.Keys == sum.services.Keys
    requires Lists(rows, store.instances, (i: Instance) => i.id)
    ensures HoldsReplicas(store.instances, sid, HaveOf(sum.have, sid))
    ensures ListsReplicas(store.instances, sid, InstancesOf(rows, sid))
  {
    FilterDistinct(rows, IsInstanceOf(sid));
  }

  function Canonical(table: map<string, Instance>, sid: string, n: nat): (r: seq<Instance>)
    requires forall k :: 1 <= k <= n ==> InstanceId(sid, k) in table
    ensures |r| == n && forall k :: 0 <= k < n ==> r[k] == table[InstanceId(sid, k + 1)]
  {
    seq(n, k requires 0 <= k < n => table[InstanceId(sid, k + 1)])
  }

  /** Filtering the listing by service id yields as many rows as there are replicas. */
  lemma CountsReplicas(table: map<string, Instance>, sid: string, n: nat, existing: seq<Instance>)
    requires HoldsReplicas(table, sid, n) && ListsReplicas(table, sid, existing)
    ensures |existing| == n
  {
    var canon := Canonical(table, sid, n);
    forall j, k | 0 <= j < k < n
      ensures canon[j] != canon[k]
    {
      if InstanceId(sid, j + 1) == InstanceId(sid, k + 1) {
        InstanceIdInjective(sid, j + 1, sid, k + 1);
      }
      assert canon[j].id == InstanceId(sid, j + 1) && canon[k].id == InstanceId(sid, k + 1);
    }
    forall i | i in existing
      ensures i in canon
    {
      assert canon[ReplicaIndex(sid, i.id) - 1] == i;
    }
    assert Elements(canon) == Elements(existing);
    DistinctSize(canon);
    DistinctSize(existing);
  }

  lemma {:induction false} NextIndexBounds(sid: string, existing: seq<Instance>)
    ensures NextIndex(sid, existing) >= 1
    ensures forall i :: i in existing ==> ReplicaIndex(sid, i.id) < NextIndex(sid, existing)
    ensures NextIndex(sid, existing) == 1
            || exists i :: i in existing && NextIndex(sid, existing) == ReplicaIndex(sid, i.id) + 1
  {
    if existing != [] {
      NextIndexBounds(sid, existing[1..]);
      assert forall i :: i in existing <==> i == existing[0] || i in existing[1..];
    }
  }

  /** A scale-up continues right after the last replica. */
  lemma NextIndexFollows(table: map<string, Instance>, sid: string, n: nat, existing: seq<Instance>)
    requires HoldsReplicas(table, sid, n) && ListsReplicas(table, sid, existing)
    ensures NextIndex(sid, existing) == n + 1
  {
    NextIndexBounds(sid, existing);
    if n > 0 {
      assert table[InstanceId(sid, n)] in existing;
      ReplicaIndexOfInstanceId(sid, n);
    }
  }

  ghost predicate Descending(sid: string, xs: seq<Instance>) {
    forall i, j :: 0 <= i < j < |xs| ==> ReplicaIndex(sid, xs[i].id) >= ReplicaIndex(sid, xs[j].id)
  }

  lemma {:induction false} InsertDescending(sid: string, x: Instance, sorted: seq<Instance>)
    requires Descending(sid, sorted)
    ensures Descending(sid, InsertByIndex(sid, x, sorted))
  {
    if sorted != [] && !(ReplicaIndex(sid, sorted[0].id) <= ReplicaIndex(sid, x.id)) {
      InsertDescending(sid, x, sorted[1..]);
      InsertByIndexContents(sid, x, sorted[1..]);
      var rest := InsertByIndex(sid, x, sorted[1..]);
      forall j | 0 <= j < |rest|
        ensures ReplicaIndex(sid, sorted[0].id) >= ReplicaIndex(sid, rest[j].id)
      {
        assert rest[j] in multiset(rest);
        assert rest[j] == x || rest[j] in sorted[1..];
      }
    }
  }

  lemma {:induction false} SortDescending(sid: string, xs: seq<Instance>)
    ensures Descending(sid, SortByIndex(sid, xs))
  {
    if xs != [] {
      SortDescending(sid, xs[1..]);
      InsertDescending(sid, xs[0], SortByIndex(sid, xs[1..]));
    }
  }

  /** A strictly falling sequence of n numbers between 1 and n is n, n-1, … 1. */
  lemma {:induction false} FallingIsCountdown(xs: seq<int>, n: nat)
    requires |xs| == n
    requires forall i :: 0 <= i < n ==> 1 <= xs[i] <= n
    requires forall i, j :: 0 <= i < j < n ==> xs[i] > xs[j]
    ensures forall i :: 0 <= i < n ==> xs[i] == n - i
  {
    var k := 0;
    while k < n
      invariant 0 <= k <= n
      invariant forall i :: 0 <= i < k ==> xs[i] <= n - i
    {
      assert k > 0 ==> xs[k - 1] > xs[k];
      k := k + 1;
    }
    k := n;
    while k > 0
      invariant 0 <= k <= n
      invariant forall i :: k <= i < n ==> xs[i] >= n - i
    {
      k := k - 1;
      assert k + 1 < n ==> xs[k] > xs[k + 1];
    }
  }

  function SortedIndices(sid: string, existing: seq<Instance>): (r: seq<int>)
    ensures |r| == |SortByIndex(sid, existing)|
    ensures forall k :: 0 <= k < |r| ==> r[k] == ReplicaIndex(sid, SortByIndex(sid, existing)[k].id)
  {
    var sorted := SortByIndex(sid, existing);
    seq(|sorted|, k requires 0 <= k < |sorted| => ReplicaIndex(sid, sorted[k].id))
  }

  lemma SortedMember(sid: string, existing: seq<Instance>, i: Instance)
    ensures i in existing <==> i in SortByIndex(sid, existing)
  {
    SortByIndexContents(sid, existing);
    assert i in existing <==> i in multiset(existing);
    assert i in SortByIndex(sid, existing) <==> i in multiset(SortByIndex(sid, existing));
  }

  /** Sorted by falling index, replica k sits at position n - k. */
  lemma SortedIsCountdown(table: map<string, Instance>, sid: string, n: nat, existing: seq<Instance>)
    requires HoldsReplicas(table, sid, n) && ListsReplicas(table, sid, existing)
    ensures |SortByIndex(sid, existing)| == n
    ensures forall k :: 0 <= k < n ==> SortedIndices(sid, existing)[k] == n - k
  {
    var sorted := SortByIndex(sid, existing);
    var indices := SortedIndices(sid, existing);
    CountsReplicas(table, sid, n, existing);
    SortByIndexContents(sid, existing);
    SortDescending(sid, existing);
    forall k | 0 <= k < n
      ensures 1 <= indices[k] <= n && sorted[k] in existing
    {
      SortedMember(sid, existing, sorted[k]);
    }
    forall i, j | 0 <= i < j < n
      ensures indices[i] > indices[j]
    {
      SortedDistinct(sid, existing, i, j);
      assert sorted[i] in existing && sorted[j] in existing;
      assert sorted[i] == table[sorted[i].id] && sorted[j] == table[sorted[j].id];
    }
    FallingIsCountdown(indices, n);
  }

  /** Scaling down to `d` retires exactly the replicas above `d`. */
  lemma RetiresTheTop(table: map<string, Instance>, sid: string, n: nat, existing: seq<Instance>, d: nat, i: Instance)
    requires HoldsReplicas(table, sid, n) && ListsReplicas(table, sid, existing) && d <= n
    ensures |existing| == n
    ensures i in PickInstancesToRetire(existing, n - d) <==> i in existing && ReplicaIndex(sid, i.id) > d
  {
    CountsReplicas(table, sid, n, existing);
    if existing != [] {
      var sorted := SortByIndex(sid, existing);
      SortedIsCountdown(table, sid, n, existing);
      assert existing[0] in existing;
      assert PickInstancesToRetire(existing, n - d) == sorted[..n - d];
      SortedMember(sid, existing, i);
      if i in existing && ReplicaIndex(sid, i.id) > d {
        var k :| 0 <= k < n && sorted[k] == i;
        assert SortedIndices(sid, existing)[k] == n - k;
        assert sorted[..n - d][k] == i;
      }
      if i in sorted[..n - d] {
        var k :| 0 <= k < n - d && sorted[..n - d][k] == i;
        assert SortedIndices(sid, existing)[k] == n - k;
      }
    }
  }

  lemma SortedDistinct(sid: string, xs: seq<Instance>, i: nat, j: nat)
    requires Distinct(xs)
    requires i < j < |xs|
    ensures |SortByIndex(sid, xs)| == |xs| && SortByIndex(sid, xs)[i] != SortByIndex(sid, xs)[j]
  {
    SortByIndexContents(sid, xs);
    var sorted := SortByIndex(sid, xs);
    if sorted[i] == sorted[j] {
      var x := sorted[i];
      assert sorted == sorted[..i] + [x] + sorted[i + 1..j] + [x] + sorted[j + 1..];
      assert multiset(sorted)[x] >= 2;
      DistinctMultiplicity(xs, x);
    }
  }

  lemma {:induction false} DistinctMultiplicity<T(!new)>(xs: seq<T>, x: T)
    requires Distinct(xs)
    ensures multiset(xs)[x] <= 1
  {
    if xs != [] {
      assert xs == [xs[0]] + xs[1..];
      DistinctMultiplicity(xs[1..], x);
      if xs[0] == x {
        assert x !in xs[1..];
        assert x !in multiset(xs[1..]);
      }
    }
  }

  // ---- which services and instances the diff selects --------------------------------------

  lemma DesiredMember(manifest: Manifest, s: Service)
    requires manifest.WellFormed()
    ensures s in DesiredServices(manifest) <==> s.name in manifest.services && s == DesiredService(manifest, s.name)
  {
    if s.name in manifest.services && s == DesiredService(manifest, s.name) {
      assert s.name in Elements(manifest.serviceNames);
      var k :| 0 <= k < |manifest.serviceNames| && manifest.serviceNames[k] == s.name;
      assert DesiredServices(manifest)[k] == s;
    }
    if s in DesiredServices(manifest) {
      var k :| 0 <= k < |manifest.serviceNames| && DesiredServices(manifest)[k] == s;
      assert manifest.serviceNames[k] in Elements(manifest.serviceNames);
    }
  }

  lemma DesiredDistinct(manifest: Manifest)
    requires manifest.WellFormed()
    ensures Distinct(DesiredServices(manifest))
  {
  }

  lemma SameIdSameName(manifest: Manifest, a: string, b: string)
    requires ServiceId(manifest.name, a) == ServiceId(manifest.name, b)
    ensures a == b
  {
    assert ServiceId(manifest.name, a)[|manifest.name| + 1..] == a;
    assert ServiceId(manifest.name, b)[|manifest.name| + 1..] == b;
  }

  lemma StoredRow(store: Store, sum: Summary, id: string)
    requires Represents(store, sum) && id in store.instances
    ensures InstanceRowOk(sum, id, store.instances[id])
  {
  }

  lemma StoredReplica(store: Store, sum: Summary, sid: string, k: nat)
    requires Represents(store, sum) && sid in sum.have && 1 <= k <= sum.have[sid]
    ensures InstanceId(sid, k) in store.instances && store.instances[InstanceId(sid, k)].serviceId == sid
  {
  }

  /** The state an apply starts from: tables, their summary, a fair listing and an admissible manifest. */
  ghost predicate Ready(catalog: Catalog, store: Store, sum: Summary, manifest: Manifest, listing: Listing) {
    && Sound(catalog, sum)
    && Represents(store, sum)
    && Admissible(catalog, manifest)
    && IsListing(listing, store)
  }

  lemma CreateMember(catalog: Catalog, store: Store, sum: Summary, manifest: Manifest, listing: Listing, s: Service)
    requires Ready(catalog, store, sum, manifest, listing)
    ensures s in ServicesToCreate(manifest, listing) <==>
            s in DesiredServices(manifest) && s.id !in sum.services
  {
    DesiredMember(manifest, s);
    if s in DesiredServices(manifest) {
      CurrentIsStored(catalog, sum, listing.services, manifest, s.name);
    }
  }

  lemma UpdateMember(catalog: Catalog, store: Store, sum: Summary, manifest: Manifest, listing: Listing, s: Service)
    requires Ready(catalog, store, sum, manifest, listing)
    ensures s in ServicesToUpdate(manifest, listing) <==>
            s in DesiredServices(manifest) && s.id in sum.services && NeedsUpdate(manifest, sum.services[s.id], s)
  {
    DesiredMember(manifest, s);
    if s in DesiredServices(manifest) {
      CurrentIsStored(catalog, sum, listing.services, manifest, s.name);
    }
  }

  lemma RemoveMember(catalog: Catalog, store: Store, sum: Summary, manifest: Manifest, listing: Listing, s: Service)
    requires Ready(catalog, store, sum, manifest, listing)
    ensures s in ServicesToRemove(manifest, listing) <==>
            s.id in DroppedIds(manifest, sum.services) && sum.services[s.id] == s
  {
    if s in listing.services && s.manifestName == manifest.name {
      if s.name in manifest.services {
        DesiredMember(manifest, DesiredService(manifest, s.name));
        assert s.id in ServiceIds(DesiredServices(manifest));
      } else if s.id in ServiceIds(DesiredServices(manifest)) {
        var d :| d in DesiredServices(manifest) && d.id == s.id;
        DesiredMember(manifest, d);
        SameIdSameName(manifest, d.name, s.name);
      }
    }
  }

  /** The diff's lists are, in order, the summary machine's work list. */
  lemma TodoIsDiff(catalog: Catalog, store: Store, sum: Summary, manifest: Manifest, listing: Listing)
    requires Ready(catalog, store, sum, manifest, listing)
    ensures ServicesToCreate(manifest, listing) + ServicesToUpdate(manifest, listing) == Todo(manifest, sum.services)
  {
    var desired := DesiredServices(manifest);
    forall s | s in desired
      ensures IsNew(listing.services)(s) == IsAbsent(sum.services)(s)
      ensures IsChanged(manifest, listing.services)(s) == IsOutdated(manifest, sum.services)(s)
    {
      DesiredMember(manifest, s);
      CurrentIsStored(catalog, sum, listing.services, manifest, s.name);
    }
    FilterAlike(desired, IsNew(listing.services), IsAbsent(sum.services));
    FilterAlike(desired, IsChanged(manifest, listing.services), IsOutdated(manifest, sum.services));
  }

  lemma ExistingFacts(
    catalog: Catalog, store: Store, sum: Summary, manifest: Manifest, listing: Listing, s: Service)
    requires Ready(catalog, store, sum, manifest, listing)
    requires s in DesiredServices(manifest) && s.id in sum.services
    ensures CurrentNamed(listing.services, s.name) == Some(sum.services[s.id])
    ensures |InstancesOf(listing.instances, s.id)| == sum.have[s.id]
    ensures NextIndex(s.id, InstancesOf(listing.instances, s.id)) == sum.have[s.id] + 1
  {
    var existing, n := InstancesOf(listing.instances, s.id), sum.have[s.id];
    DesiredMember(manifest, s);
    CurrentIsStored(catalog, sum, listing.services, manifest, s.name);
    ReplicasHeld(store, sum, listing.instances, s.id);
    CountsReplicas(store.instances, s.id, n, existing);
    NextIndexFollows(store.instances, s.id, n, existing);
  }

  /** What a declared service retains when an apply retires its surplus. */
  lemma RetainedIs(catalog: Catalog, sum: Summary, manifest: Manifest, s: Service)
    requires Sound(catalog, sum) && Admissible(catalog, manifest)
    requires s in DesiredServices(manifest) && s.id in sum.services
    ensures s.id in Retained(manifest, sum)
    ensures Retained(manifest, sum)[s.id] ==
            if NeedsRecreate(manifest, sum.services[s.id], s) then 0
            else if s.desiredReplicas < sum.have[s.id] then s.desiredReplicas else sum.have[s.id]
  {
    DesiredMember(manifest, s);
    var row := sum.services[s.id];
    OwnedIds(catalog, row.manifestName, row.name, manifest.name, s.name);
  }

  lemma RetiredForCases(manifest: Manifest, listing: Listing, s: Service, row: Service, n: nat)
    requires CurrentNamed(listing.services, s.name) == Some(row)
    requires |InstancesOf(listing.instances, s.id)| == n
    ensures RetiredFor(manifest, listing)(s) ==
            if NeedsRecreate(manifest, row, s) then InstancesOf(listing.instances, s.id)
            else if s.desiredReplicas < n then
              PickInstancesToRetire(InstancesOf(listing.instances, s.id), n - s.desiredReplicas)
            else []
  {
  }

  lemma RetiredForMember(
    manifest: Manifest, table: map<string, Instance>, listing: Listing, s: Service, row: Service, n: nat, kept: nat,
    i: Instance)
    requires CurrentNamed(listing.services, s.name) == Some(row)
    requires HoldsReplicas(table, s.id, n) && ListsReplicas(table, s.id, InstancesOf(listing.instances, s.id))
    requires kept == if NeedsRecreate(manifest, row, s) then 0
                     else if s.desiredReplicas < n then s.desiredReplicas else n
    ensures i in RetiredFor(manifest, listing)(s) <==>
            i in InstancesOf(listing.instances, s.id) && ReplicaIndex(s.id, i.id) > kept
  {
    CountsReplicas(table, s.id, n, InstancesOf(listing.instances, s.id));
    RetiredForCases(manifest, listing, s, row, n);
    if !NeedsRecreate(manifest, row, s) && s.desiredReplicas < n {
      RetiresTheTop(table, s.id, n, InstancesOf(listing.instances, s.id), s.desiredReplicas, i);
    }
  }

  lemma RetiredForIs(
    catalog: Catalog, store: Store, sum: Summary, manifest: Manifest, listing: Listing, s: Service, i: Instance)
    requires Ready(catalog, store, sum, manifest, listing)
    requires s in DesiredServices(manifest) && s.id in sum.services
    ensures i in RetiredFor(manifest, listing)(s) <==>
            && i.id in store.instances && store.instances[i.id] == i && i.serviceId == s.id
            && ReplicaIndex(s.id, i.id) > Retained(manifest, sum)[s.id]
  {
    ExistingFacts(catalog, store, sum, manifest, listing, s);
    ReplicasHeld(store, sum, listing.instances, s.id);
    RetainedIs(catalog, sum, manifest, s);
    RetiredForMember(manifest, store.instances, listing, s, sum.services[s.id], sum.have[s.id],
                     Retained(manifest, sum)[s.id], i);
    AllOfMember(listing, store, s, i);
  }

  lemma AllOfMember(listing: Listing, store: Store, s: Service, i: Instance)
    requires IsListing(listing, store)
    ensures i in AllOf(listing)(s) <==> i.id in store.instances && store.instances[i.id] == i && i.serviceId == s.id
  {
  }

  /** The first half of `instancesToRemove`: everything of the services the manifest dropped. */
  lemma DroppedIff(
    catalog: Catalog, store: Store, sum: Summary, manifest: Manifest, listing: Listing, i: Instance)
    requires Ready(catalog, store, sum, manifest, listing)
    ensures i in FlatMap(ServicesToRemove(manifest, listing), AllOf(listing)) <==>
            && i.id in store.instances && store.instances[i.id] == i
            && i.serviceId in DroppedIds(manifest, sum.services)
  {
    var removed, f := ServicesToRemove(manifest, listing), AllOf(listing);
    if i in FlatMap(removed, f) {
      var s :| s in removed && i in f(s);
      RemoveMember(catalog, store, sum, manifest, listing, s);
      AllOfMember(listing, store, s, i);
    } else if i.serviceId in DroppedIds(manifest, sum.services) {
      var row := sum.services[i.serviceId];
      assert row.id == i.serviceId;
      RemoveMember(catalog, store, sum, manifest, listing, row);
      AllOfMember(listing, store, row, i);
      if i in f(row) {
        FlatMapMember(removed, f, row, i);
      }
    }
  }

  /** The second half: the surplus of every service the manifest still declares. */
  lemma SurplusIff(
    catalog: Catalog, store: Store, sum: Summary, manifest: Manifest, listing: Listing, i: Instance)
    requires Ready(catalog, store, sum, manifest, listing)
    ensures i in FlatMap(ServicesToUpdate(manifest, listing), RetiredFor(manifest, listing)) <==>
            && i.id in store.instances && store.instances[i.id] == i
            && sum.services[i.serviceId].manifestName == manifest.name
            && sum.services[i.serviceId].name in manifest.services
            && ReplicaIndex(i.serviceId, i.id) > Retained(manifest, sum)[i.serviceId]
  {
    var updated := ServicesToUpdate(manifest, listing);
    if i in FlatMap(updated, RetiredFor(manifest, listing)) {
      var s :| s in updated && i in RetiredFor(manifest, listing)(s);
      UpdateMember(catalog, store, sum, manifest, listing, s);
      DesiredMember(manifest, s);
      RetiredForIs(catalog, store, sum, manifest, listing, s, i);
      var row := sum.services[s.id];
      OwnedIds(catalog, row.manifestName, row.name, manifest.name, s.name);
    }
    if i.id in store.instances && store.instances[i.id] == i {
      var row := sum.services[i.serviceId];
      if && row.manifestName == manifest.name && row.name in manifest.services
         && ReplicaIndex(i.serviceId, i.id) > Retained(manifest, sum)[i.serviceId] {
        var s := DesiredService(manifest, row.name);
        DesiredMember(manifest, s);
        UpdateMember(catalog, store, sum, manifest, listing, s);
        RetiredForIs(catalog, store, sum, manifest, listing, s, i);
        FlatMapMember(updated, RetiredFor(manifest, listing), s, i);
      }
    }
  }

  /** An instance row is retired exactly when its index exceeds what its service retains. */
  lemma RemovedIff(
    catalog: Catalog, store: Store, sum: Summary, manifest: Manifest, listing: Listing, i: Instance)
    requires Ready(catalog, store, sum, manifest, listing)
    requires i.id in store.instances && store.instances[i.id] == i
    ensures i in InstancesToRemove(manifest, listing) <==>
            ReplicaIndex(i.serviceId, i.id) > Retained(manifest, sum)[i.serviceId]
  {
    DroppedIff(catalog, store, sum, manifest, listing, i);
    SurplusIff(catalog, store, sum, manifest, listing, i);
  }

  lemma RemovedAreStored(
    catalog: Catalog, store: Store, sum: Summary, manifest: Manifest, listing: Listing, i: Instance)
    requires Ready(catalog, store, sum, manifest, listing)
    requires i in InstancesToRemove(manifest, listing)
    ensures i.id in store.instances && store.instances[i.id] == i
  {
    DroppedIff(catalog, store, sum, manifest, listing, i);
    SurplusIff(catalog, store, sum, manifest, listing, i);
  }

  lemma GoneIff(catalog: Catalog, store: Store, sum: Summary, manifest: Manifest, listing: Listing, id: string)
    requires Ready(catalog, store, sum, manifest, listing) && id in store.instances
    ensures id in InstanceIds(InstancesToRemove(manifest, listing)) <==>
            ReplicaIndex(store.instances[id].serviceId, id)
            > HaveOf(Retained(manifest, sum), store.instances[id].serviceId)
  {
    var i := store.instances[id];
    assert InstanceRowOk(sum, id, i);
    RemovedIff(catalog, store, sum, manifest, listing, i);
    if id in InstanceIds(InstancesToRemove(manifest, listing)) {
      var j :| j in InstancesToRemove(manifest, listing) && j.id == id;
      RemovedAreStored(catalog, store, sum, manifest, listing, j);
    }
  }

  lemma SoundRetained(catalog: Catalog, sum: Summary, manifest: Manifest)
    requires Sound(catalog, sum)
    ensures Sound(catalog, sum.(have := Retained(manifest, sum)))
    ensures forall id :: id in sum.have ==> Retained(manifest, sum)[id] <= sum.have[id]
  {
  }

  /** Cutting each service's replicas down to a number keeps the tables represented. */
  lemma CutRepresents(store: Store, sum: Summary, have: map<string, nat>, gone: set<string>)
    requires Represents(store, sum) && have.Keys == sum.have.Keys
    requires forall id :: id in sum.have ==> have[id] <= sum.have[id]
    requires forall id :: id in store.instances ==>
               (id in gone <==>
                  ReplicaIndex(store.instances[id].serviceId, id) > HaveOf(have, store.instances[id].serviceId))
    ensures Represents(store.(instances := store.instances - gone), sum.(have := have))
  {
    forall id | id in store.instances && id !in gone
      ensures InstanceRowOk(sum.(have := have), id, store.instances[id])
    {
      assert InstanceRowOk(sum, id, store.instances[id]);
    }
    forall sid, k | sid in have && 1 <= k <= have[sid]
      ensures InstanceId(sid, k) in store.instances - gone && store.instances[InstanceId(sid, k)].serviceId == sid
    {
      assert store.instances[InstanceId(sid, k)].serviceId == sid;
      ReplicaIndexOfInstanceId(sid, k);
    }
  }

  /** Deleting the retired rows leaves each service with its retained replicas. */
  lemma RetirePhase(catalog: Catalog, store: Store, sum: Summary, manifest: Manifest, listing: Listing)
    requires Ready(catalog, store, sum, manifest, listing)
    ensures Sound(catalog, sum.(have := Retained(manifest, sum)))
    ensures Represents(store.(instances := store.instances - InstanceIds(InstancesToRemove(manifest, listing))),
                       sum.(have := Retained(manifest, sum)))
  {
    var gone, have := InstanceIds(InstancesToRemove(manifest, listing)), Retained(manifest, sum);
    SoundRetained(catalog, sum, manifest);
    forall id | id in store.instances
      ensures id in gone <==>
              ReplicaIndex(store.instances[id].serviceId, id) > HaveOf(have, store.instances[id].serviceId)
    {
      GoneIff(catalog, store, sum, manifest, listing, id);
    }
    CutRepresents(store, sum, have, gone);
  }

  // ---- serving the created and updated services -------------------------------------------

  ghost predicate DistinctIds(xs: seq<Service>) {
    forall i, j :: 0 <= i < j < |xs| ==> xs[i].id != xs[j].id
  }

  ghost predicate OwnedBlocks(xs: seq<Service>, f: Service -> seq<Instance>) {
    && DistinctIds(xs)
    && (forall x, y :: x in xs && y in f(x) ==> y.serviceId == x.id)
  }

  lemma {:induction false} NoBlock(xs: seq<Service>, f: Service -> seq<Instance>, sid: string)
    requires OwnedBlocks(xs, f) && forall x :: x in xs ==> x.id != sid
    ensures Filter(FlatMap(xs, f), IsInstanceOf(sid)) == []
  {
    FilterNone(FlatMap(xs, f), IsInstanceOf(sid));
  }

  /** Filtering the joined blocks by service id gives back that service's block. */
  lemma {:induction false} OwnBlock(xs: seq<Service>, f: Service -> seq<Instance>, s: Service)
    requires OwnedBlocks(xs, f) && s in xs
    ensures Filter(FlatMap(xs, f), IsInstanceOf(s.id)) == f(s)
  {
    FilterConcat(f(xs[0]), FlatMap(xs[1..], f), IsInstanceOf(s.id));
    if s == xs[0] {
      FilterAll(f(s), IsInstanceOf(s.id));
      NoBlock(xs[1..], f, s.id);
    } else {
      FilterNone(f(xs[0]), IsInstanceOf(s.id));
      OwnBlock(xs[1..], f, s);
    }
  }

  lemma FilteredDesiredIds(manifest: Manifest, p: Service -> bool)
    requires manifest.WellFormed()
    ensures DistinctIds(Filter(DesiredServices(manifest), p))
  {
    var xs := Filter(DesiredServices(manifest), p);
    DesiredDistinct(manifest);
    FilterDistinct(DesiredServices(manifest), p);
    forall i, j | 0 <= i < j < |xs|
      ensures xs[i].id != xs[j].id
    {
      assert xs[i] in xs && xs[j] in xs;
      DesiredMember(manifest, xs[i]);
      DesiredMember(manifest, xs[j]);
      if xs[i].id == xs[j].id {
        SameIdSameName(manifest, xs[i].name, xs[j].name);
      }
    }
  }

  lemma AddedForCases(manifest: Manifest, listing: Listing, s: Service, row: Service, n: nat)
    requires CurrentNamed(listing.services, s.name) == Some(row)
    requires |InstancesOf(listing.instances, s.id)| == n
    requires NextIndex(s.id, InstancesOf(listing.instances, s.id)) == n + 1
    ensures AddedFor(manifest, listing)(s) ==
            if NeedsRecreate(manifest, row, s) then Replicas(s, 1, s.desiredReplicas)
            else if s.desiredReplicas > n then Replicas(s, n + 1, s.desiredReplicas - n)
            else []
  {
  }

  lemma AddedForOwned(manifest: Manifest, listing: Listing, s: Service)
    ensures forall y :: y in AddedFor(manifest, listing)(s) ==> y.serviceId == s.id
  {
  }

  lemma AddedForMissing(manifest: Manifest, listing: Listing, s: Service, row: Service, n: nat, kept: nat)
    requires CurrentNamed(listing.services, s.name) == Some(row)
    requires |InstancesOf(listing.instances, s.id)| == n
    requires NextIndex(s.id, InstancesOf(listing.instances, s.id)) == n + 1
    requires kept == if NeedsRecreate(manifest, row, s) then 0
                     else if s.desiredReplicas < n then s.desiredReplicas else n
    ensures kept <= s.desiredReplicas
    ensures AddedFor(manifest, listing)(s) == Replicas(s, kept + 1, s.desiredReplicas - kept)
  {
    AddedForCases(manifest, listing, s, row, n);
  }

  lemma AddedForKept(manifest: Manifest, listing: Listing, sum: Summary, have: map<string, nat>, s: Service)
    requires s.id in sum.services && s.id in sum.have && s.id in have
    requires CurrentNamed(listing.services, s.name) == Some(sum.services[s.id])
    requires |InstancesOf(listing.instances, s.id)| == sum.have[s.id]
    requires NextIndex(s.id, InstancesOf(listing.instances, s.id)) == sum.have[s.id] + 1
    requires have[s.id] == if NeedsRecreate(manifest, sum.services[s.id], s) then 0
                           else if s.desiredReplicas < sum.have[s.id] then s.desiredReplicas else sum.have[s.id]
    ensures HaveOf(have, s.id) <= s.desiredReplicas
    ensures AddedFor(manifest, listing)(s) == Replicas(s, HaveOf(have, s.id) + 1, Missing(have, s))
  {
    AddedForMissing(manifest, listing, s, sum.services[s.id], sum.have[s.id], have[s.id]);
  }

  lemma AddedForUnfolds(
    catalog: Catalog, store: Store, sum: Summary, manifest: Manifest, listing: Listing, s: Service)
    requires Ready(catalog, store, sum, manifest, listing)
    requires s in DesiredServices(manifest) && s.id in sum.services
    ensures HaveOf(Retained(manifest, sum), s.id) <= s.desiredReplicas
    ensures AddedFor(manifest, listing)(s) ==
            Replicas(s, HaveOf(Retained(manifest, sum), s.id) + 1, Missing(Retained(manifest, sum), s))
  {
    RetainedIs(catalog, sum, manifest, s);
    ExistingFacts(catalog, store, sum, manifest, listing, s);
    AddedForKept(manifest, listing, sum, Retained(manifest, sum), s);
  }

  lemma CreatedBlock(catalog: Catalog, store: Store, sum: Summary, manifest: Manifest, listing: Listing, s: Service)
    requires Ready(catalog, store, sum, manifest, listing)
    ensures s in ServicesToCreate(manifest, listing) ==>
              Filter(FlatMap(ServicesToCreate(manifest, listing), FirstReplicas()), IsInstanceOf(s.id))
              == FirstReplicas()(s)
    ensures s.id in sum.services ==>
              Filter(FlatMap(ServicesToCreate(manifest, listing), FirstReplicas()), IsInstanceOf(s.id)) == []
  {
    var create := ServicesToCreate(manifest, listing);
    FilteredDesiredIds(manifest, IsNew(listing.services));
    if s in create {
      OwnBlock(create, FirstReplicas(), s);
    }
    if s.id in sum.services {
      forall x | x in create ensures x.id != s.id {
        CreateMember(catalog, store, sum, manifest, listing, x);
      }
      NoBlock(create, FirstReplicas(), s.id);
    }
  }

  lemma UpdatedBlock(catalog: Catalog, store: Store, sum: Summary, manifest: Manifest, listing: Listing, s: Service)
    requires Ready(catalog, store, sum, manifest, listing)
    ensures s in ServicesToUpdate(manifest, listing) ==>
              Filter(FlatMap(ServicesToUpdate(manifest, listing), AddedFor(manifest, listing)), IsInstanceOf(s.id))
              == AddedFor(manifest, listing)(s)
    ensures s.id !in sum.services ==>
              Filter(FlatMap(ServicesToUpdate(manifest, listing), AddedFor(manifest, listing)),
                     IsInstanceOf(s.id)) == []
  {
    var update, g := ServicesToUpdate(manifest, listing), AddedFor(manifest, listing);
    FilteredDesiredIds(manifest, IsChanged(manifest, listing.services));
    forall x ensures forall y :: y in g(x) ==> y.serviceId == x.id {
      AddedForOwned(manifest, listing, x);
    }
    if s in update {
      OwnBlock(update, g, s);
    }
    if s.id !in sum.services {
      forall x | x in update ensures x.id != s.id {
        UpdateMember(catalog, store, sum, manifest, listing, x);
      }
      NoBlock(update, g, s.id);
    }
  }

  /** Of the new rows, those of a service are the replicas it lacks, in order. */
  ghost predicate AddsMissing(create: seq<Instance>, have: map<string, nat>, s: Service) {
    && HaveOf(have, s.id) <= s.desiredReplicas
    && Filter(create, IsInstanceOf(s.id)) == Replicas(s, HaveOf(have, s.id) + 1, Missing(have, s))
  }

  /** What apply inserts for a service are the replicas missing after the retiring, and no others. */
  lemma AddedIs(catalog: Catalog, store: Store, sum: Summary, manifest: Manifest, listing: Listing, s: Service)
    requires Ready(catalog, store, sum, manifest, listing)
    requires s in Todo(manifest, sum.services)
    ensures s in DesiredServices(manifest)
    ensures AddsMissing(InstancesToCreate(manifest, listing), Retained(manifest, sum), s)
  {
    CreateMember(catalog, store, sum, manifest, listing, s);
    UpdateMember(catalog, store, sum, manifest, listing, s);
    BothBlocks(catalog, store, sum, manifest, listing, s);
    if s.id in sum.services {
      AddedForUnfolds(catalog, store, sum, manifest, listing, s);
    }
  }

  /** Of the new rows, those of a service are the block of whichever list it is on. */
  lemma BothBlocks(catalog: Catalog, store: Store, sum: Summary, manifest: Manifest, listing: Listing, s: Service)
    requires Ready(catalog, store, sum, manifest, listing)
    ensures s.id in sum.services && s in ServicesToUpdate(manifest, listing) ==>
              Filter(InstancesToCreate(manifest, listing), IsInstanceOf(s.id)) == AddedFor(manifest, listing)(s)
    ensures s.id !in sum.services && s in ServicesToCreate(manifest, listing) ==>
              Filter(InstancesToCreate(manifest, listing), IsInstanceOf(s.id)) == FirstReplicas()(s)
  {
    FilterConcat(FlatMap(ServicesToCreate(manifest, listing), FirstReplicas()),
                 FlatMap(ServicesToUpdate(manifest, listing), AddedFor(manifest, listing)), IsInstanceOf(s.id));
    CreatedBlock(catalog, store, sum, manifest, listing, s);
    UpdatedBlock(catalog, store, sum, manifest, listing, s);
  }

  /** `after` is `table` with the replicas `first` to `first + count - 1` of a service on it. */
  ghost predicate Gains(
    table: map<string, Instance>, after: map<string, Instance>, s: Service, first: nat, count: nat)
  {
    && (forall id :: id in table ==> id in after && after[id] == table[id])
    && (forall id :: id in after && id !in table ==>
          && after[id] == Replica(s, ReplicaIndex(s.id, id)).(nodeId := after[id].nodeId)
          && id == InstanceId(s.id, ReplicaIndex(s.id, id))
          && first <= ReplicaIndex(s.id, id) < first + count)
    && (forall k :: first <= k < first + count ==> InstanceId(s.id, k) in after)
  }

  /** Inserting consecutive replicas above every existing one never meets an existing id. */
  lemma {:induction false} InsertsReplicas(
    table: map<string, Instance>, s: Service, first: nat, count: nat, nodes: seq<string>)
    requires first >= 1 && |nodes| == count
    requires forall k :: k >= first ==> InstanceId(s.id, k) !in table
    ensures var r := InsertInstances(table, Replicas(s, first, count), nodes);
            r.duplicate == None && Gains(table, r.table, s, first, count)
    decreases count
  {
    if count > 0 {
      var row := Replica(s, first).(nodeId := nodes[0]);
      ReplicaIndexOfInstanceId(s.id, first);
      forall k | k >= first + 1
        ensures InstanceId(s.id, k) !in table[row.id := row]
      {
        if InstanceId(s.id, k) == InstanceId(s.id, first) {
          InstanceIdInjective(s.id, k, s.id, first);
        }
      }
      assert Replicas(s, first, count)[1..] == Replicas(s, first + 1, count - 1);
      InsertsReplicas(table[row.id := row], s, first + 1, count - 1, nodes[1..]);
    }
  }

  /** A service the serving loop may take from `have` replicas up to the desired number. */
  ghost predicate Servable(catalog: Catalog, sum: Summary, create: seq<Instance>, s: Service) {
    && ServiceRowOk(catalog, s.id, s)
    && (s.id in sum.services && HaveOf(sum.have, s.id) > 0 ==>
          sum.services[s.id].image == s.image && sum.services[s.id].name == s.name)
    && AddsMissing(create, sum.have, s)
  }

  lemma NoneAbove(store: Store, sum: Summary, sid: string)
    requires Represents(store, sum)
    ensures forall k :: k > HaveOf(sum.have, sid) ==> InstanceId(sid, k) !in store.instances
  {
    forall k | k > HaveOf(sum.have, sid)
      ensures InstanceId(sid, k) !in store.instances
    {
      var id := InstanceId(sid, k);
      if id in store.instances {
        var row := store.instances[id];
        InstanceIdInjective(sid, k, row.serviceId, ReplicaIndex(row.serviceId, id));
      }
    }
  }

  lemma ServedRowsOk(
    store: Store, sum: Summary, s: Service, table: map<string, Instance>, id: string)
    requires Represents(store, sum) && HaveOf(sum.have, s.id) <= s.desiredReplicas
    requires s.id in sum.services && HaveOf(sum.have, s.id) > 0 ==>
               sum.services[s.id].image == s.image && sum.services[s.id].name == s.name
    requires id in table
    requires id in store.instances ==> table[id] == store.instances[id]
    requires id !in store.instances ==>
               && table[id] == Replica(s, ReplicaIndex(s.id, id)).(nodeId := table[id].nodeId)
               && id == InstanceId(s.id, ReplicaIndex(s.id, id))
               && 1 <= ReplicaIndex(s.id, id) <= s.desiredReplicas
    ensures InstanceRowOk(WithServed(sum, s), id, table[id])
  {
    if id in store.instances {
      assert InstanceRowOk(sum, id, store.instances[id]);
    }
  }

  lemma ServedHolds(
    store: Store, sum: Summary, s: Service, table: map<string, Instance>, sid: string, k: nat)
    requires Represents(store, sum)
    requires forall id :: id in store.instances ==> id in table && table[id] == store.instances[id]
    requires forall j :: HaveOf(sum.have, s.id) < j <= s.desiredReplicas ==>
               InstanceId(s.id, j) in table && table[InstanceId(s.id, j)].serviceId == s.id
    requires sid in WithServed(sum, s).have && 1 <= k <= WithServed(sum, s).have[sid]
    ensures InstanceId(sid, k) in table && table[InstanceId(sid, k)].serviceId == sid
  {
    if sid != s.id || k <= HaveOf(sum.have, s.id) {
      assert InstanceId(sid, k) in store.instances;
    }
  }

  /** `table` adds to the stored rows exactly the replicas a service lacks. */
  ghost predicate AddsReplicas(store: Store, sum: Summary, s: Service, table: map<string, Instance>) {
    && (forall id :: id in store.instances ==> id in table && table[id] == store.instances[id])
    && (forall id :: id in table && id !in store.instances ==>
          && table[id] == Replica(s, ReplicaIndex(s.id, id)).(nodeId := table[id].nodeId)
          && id == InstanceId(s.id, ReplicaIndex(s.id, id))
          && 1 <= ReplicaIndex(s.id, id) <= s.desiredReplicas)
    && (forall j :: HaveOf(sum.have, s.id) < j <= s.desiredReplicas ==>
          InstanceId(s.id, j) in table && table[InstanceId(s.id, j)].serviceId == s.id)
  }

  lemma ServedRepresents(store: Store, sum: Summary, s: Service, table: map<string, Instance>)
    requires Represents(store, sum) && HaveOf(sum.have, s.id) <= s.desiredReplicas
    requires s.id in sum.services && HaveOf(sum.have, s.id) > 0 ==>
               sum.services[s.id].image == s.image && sum.services[s.id].name == s.name
    requires AddsReplicas(store, sum, s, table)
    ensures Represents(store.(instances := table, services := store.services[s.id := Saved(store.dialect, s)]),
                       WithServed(sum, s))
  {
    forall id | id in table
      ensures InstanceRowOk(WithServed(sum, s), id, table[id])
    {
      ServedRowsOk(store, sum, s, table, id);
    }
    forall sid, k | sid in WithServed(sum, s).have && 1 <= k <= WithServed(sum, s).have[sid]
      ensures InstanceId(sid, k) in table && table[InstanceId(sid, k)].serviceId == sid
    {
      ServedHolds(store, sum, s, table, sid, k);
    }
  }

  lemma SoundServed(catalog: Catalog, sum: Summary, s: Service)
    requires Sound(catalog, sum) && ServiceRowOk(catalog, s.id, s)
    ensures Sound(catalog, WithServed(sum, s))
  {
    SavedTwice(sum.dialect, s);
  }

  lemma InsertedAdds(store: Store, sum: Summary, s: Service, nodes: seq<string>)
    requires Represents(store, sum)
    requires HaveOf(sum.have, s.id) <= s.desiredReplicas && |nodes| == Missing(sum.have, s)
    ensures var inserted :=
              InsertInstances(store.instances, Replicas(s, HaveOf(sum.have, s.id) + 1, Missing(sum.have, s)), nodes);
            inserted.duplicate == None && AddsReplicas(store, sum, s, inserted.table)
  {
    var first, count := HaveOf(sum.have, s.id) + 1, Missing(sum.have, s);
    NoneAbove(store, sum, s.id);
    InsertsReplicas(store.instances, s, first, count, nodes);
    GainsAdd(store, sum, s, InsertInstances(store.instances, Replicas(s, first, count), nodes).table);
  }

  lemma GainsAdd(store: Store, sum: Summary, s: Service, table: map<string, Instance>)
    requires Represents(store, sum) && HaveOf(sum.have, s.id) <= s.desiredReplicas
    requires Gains(store.instances, table, s, HaveOf(sum.have, s.id) + 1, Missing(sum.have, s))
    ensures AddsReplicas(store, sum, s, table)
  {
    NoneAbove(store, sum, s.id);
    forall j | HaveOf(sum.have, s.id) < j <= s.desiredReplicas
      ensures InstanceId(s.id, j) in table && table[InstanceId(s.id, j)].serviceId == s.id
    {
      assert InstanceId(s.id, j) !in store.instances;
    }
  }

  lemma ServeStep(catalog: Catalog, store: Store, sum: Summary, create: seq<Instance>, s: Service, nodes: seq<string>)
    requires Sound(catalog, sum) && Represents(store, sum) && Servable(catalog, sum, create, s)
    requires |nodes| == |Filter(create, IsInstanceOf(s.id))|
    ensures var inserted := InsertInstances(store.instances, Filter(create, IsInstanceOf(s.id)), nodes);
            && inserted.duplicate == None
            && Sound(catalog, WithServed(sum, s))
            && Represents(store.(instances := inserted.table,
                                 services := store.services[s.id := Saved(store.dialect, s)]),
                          WithServed(sum, s))
  {
    InsertedAdds(store, sum, s, nodes);
    SoundServed(catalog, sum, s);
    ServedRepresents(store, sum, s, InsertInstances(store.instances, Filter(create, IsInstanceOf(s.id)), nodes).table);
  }

  lemma ServableRest(catalog: Catalog, sum: Summary, create: seq<Instance>, todo: seq<Service>)
    requires todo != [] && DistinctIds(todo)
    requires forall s :: s in todo ==> Servable(catalog, sum, create, s)
    ensures var sum' := WithServed(sum, todo[0]);
            DistinctIds(todo[1..]) && forall t :: t in todo[1..] ==> Servable(catalog, sum', create, t)
  {
    forall t | t in todo[1..]
      ensures t.id != todo[0].id && Servable(catalog, sum, create, t)
    {
      assert t in todo;
    }
  }

  /** The serving loop on the tables is the serving loop on the summary, and it never meets an existing id. */
  lemma {:induction false} ServeRefines(
    catalog: Catalog, store: Store, sum: Summary, todo: seq<Service>, create: seq<Instance>, place: Placement)
    requires Sound(catalog, sum) && Represents(store, sum)
    requires DistinctIds(todo)
    requires forall s :: s in todo ==> Servable(catalog, sum, create, s)
    ensures ServeServices(store, todo, create, place).1 == ServeSummary(sum, todo, place).1
    ensures Sound(catalog, ServeSummary(sum, todo, place).0)
    ensures Represents(ServeServices(store, todo, create, place).0, ServeSummary(sum, todo, place).0)
    decreases |todo|
  {
    if todo != [] {
      var s := todo[0];
      var added := Filter(create, IsInstanceOf(s.id));
      var nodes := if added == [] then [] else place(s.id, |added|);
      assert Servable(catalog, sum, create, s);
      assert |added| == Missing(sum.have, s);
      if |nodes| == |added| {
        ServeStep(catalog, store, sum, create, s, nodes);
        ServableRest(catalog, sum, create, todo);
        var inserted := InsertInstances(store.instances, added, nodes);
        var store' := store.(instances := inserted.table, services := store.services[s.id := Saved(store.dialect, s)]);
        var sum' := WithServed(sum, s);
        ServeRefines(catalog, store', sum', todo[1..], create, place);
        assert ServeServices(store, todo, create, place) == ServeServices(store', todo[1..], create, place);
        assert ServeSummary(sum, todo, place) == ServeSummary(sum', todo[1..], place);
      }
    }
  }

  lemma TodoDistinct(manifest: Manifest, services: map<string, Service>)
    requires manifest.WellFormed()
    ensures DistinctIds(Todo(manifest, services))
    ensures forall s :: s in Todo(manifest, services) <==>
              s in DesiredServices(manifest) && (IsAbsent(services)(s) || IsOutdated(manifest, services)(s))
  {
    var xs := Filter(DesiredServices(manifest), IsAbsent(services));
    var ys := Filter(DesiredServices(manifest), IsOutdated(manifest, services));
    FilteredDesiredIds(manifest, IsAbsent(services));
    FilteredDesiredIds(manifest, IsOutdated(manifest, services));
    forall i, j | 0 <= i < |xs| && 0 <= j < |ys|
      ensures xs[i].id != ys[j].id
    {
      assert xs[i] in xs && ys[j] in ys;
    }
  }

  /** A desired row is one its owner may store. */
  lemma DesiredRowOk(catalog: Catalog, manifest: Manifest, s: Service)
    requires Admissible(catalog, manifest) && s in DesiredServices(manifest)
    ensures ServiceRowOk(catalog, s.id, s)
  {
    DesiredMember(manifest, s);
  }

  /** Replicas are retained only under a row of the same name and image. */
  lemma RetainedAlike(catalog: Catalog, sum: Summary, manifest: Manifest, s: Service)
    requires Sound(catalog, sum) && Admissible(catalog, manifest)
    requires s in DesiredServices(manifest) && s.id in sum.services
    ensures Retained(manifest, sum)[s.id] > 0 ==>
              sum.services[s.id].image == s.image && sum.services[s.id].name == s.name
  {
    RetainedIs(catalog, sum, manifest, s);
    DesiredMember(manifest, s);
    var row := sum.services[s.id];
    OwnedIds(catalog, row.manifestName, row.name, manifest.name, s.name);
  }

  lemma TodoServable(catalog: Catalog, store: Store, sum: Summary, manifest: Manifest, listing: Listing, s: Service)
    requires Ready(catalog, store, sum, manifest, listing) && s in Todo(manifest, sum.services)
    ensures Servable(catalog, sum.(have := Retained(manifest, sum)), InstancesToCreate(manifest, listing), s)
  {
    AddedIs(catalog, store, sum, manifest, listing, s);
    DesiredRowOk(catalog, manifest, s);
    if s.id in sum.services {
      RetainedAlike(catalog, sum, manifest, s);
    }
    ServableWith(catalog, sum, Retained(manifest, sum), InstancesToCreate(manifest, listing), s);
  }

  lemma ServableWith(catalog: Catalog, sum: Summary, have: map<string, nat>, create: seq<Instance>, s: Service)
    requires ServiceRowOk(catalog, s.id, s) && AddsMissing(create, have, s)
    requires s.id in sum.services && HaveOf(have, s.id) > 0 ==>
               sum.services[s.id].image == s.image && sum.services[s.id].name == s.name
    ensures Servable(catalog, sum.(have := have), create, s)
  {
  }

  lemma {:induction false} ServeKeepsVolumes(sum: Summary, todo: seq<Service>, place: Placement)
    ensures ServeSummary(sum, todo, place).0.volumes == sum.volumes
    ensures ServeSummary(sum, todo, place).0.dialect == sum.dialect
    decreases |todo|
  {
    if todo != [] && Placeable(sum.have, todo[0], place) {
      ServeKeepsVolumes(WithServed(sum, todo[0]), todo[1..], place);
    }
  }

  lemma {:induction false} EnsuresVolumes(table: map<string, Volume>, rows: seq<Volume>, listed: set<string>)
    requires forall i, j :: 0 <= i < j < |rows| ==> rows[i].id != rows[j].id
    requires forall r :: r in rows && r.name in listed ==> r.id in table && table[r.id] == r
    requires forall r :: r in rows && r.name !in listed ==> r.id !in table
    ensures InsertVolumes(table, Filter(rows, IsUnlisted(listed))) == VolumesInserted(WithVolumes(table, rows), None)
    decreases |rows|
  {
    if rows != [] {
      var r := rows[0];
      assert forall x :: x in rows[1..] ==> x in rows && x.id != r.id;
      assert r.name in listed ==> table[r.id := r] == table;
      EnsuresVolumes(table[r.id := r], rows[1..], listed);
    }
  }

  lemma DesiredVolume(manifest: Manifest, v: Volume)
    ensures v in DesiredVolumesFrom(manifest.name, manifest.volumes) <==>
            v.name in manifest.volumes && v == Volume(VolumeId(manifest.name, v.name), v.name, manifest.name)
  {
    var rows := DesiredVolumesFrom(manifest.name, manifest.volumes);
    if v.name in manifest.volumes && v == Volume(VolumeId(manifest.name, v.name), v.name, manifest.name) {
      var k :| 0 <= k < |manifest.volumes| && manifest.volumes[k] == v.name;
      assert rows[k] == v;
    }
  }

  lemma {:induction false} WithVolumesIs(table: map<string, Volume>, rows: seq<Volume>)
    ensures forall id :: id in WithVolumes(table, rows) ==>
              (id in table && WithVolumes(table, rows)[id] == table[id])
              || exists v :: v in rows && v.id == id && WithVolumes(table, rows)[id] == v
    decreases |rows|
  {
    if rows != [] {
      WithVolumesIs(table[rows[0].id := rows[0]], rows[1..]);
    }
  }

  lemma DesiredVolumesFit(catalog: Catalog, sum: Summary, manifest: Manifest, listing: Listing, r: Volume)
    requires Sound(catalog, sum) && Admissible(catalog, manifest)
    requires Lists(listing.volumes, sum.volumes, (v: Volume) => v.id)
    requires r in DesiredVolumesFrom(manifest.name, manifest.volumes)
    ensures r.name in VolumeNames(listing.volumes) ==> r.id in sum.volumes && sum.volumes[r.id] == r
    ensures r.name !in VolumeNames(listing.volumes) ==> r.id !in sum.volumes
    ensures VolumeRowOk(catalog, r.id, r)
  {
    DesiredVolume(manifest, r);
    if r.id in sum.volumes {
      var v := sum.volumes[r.id];
      OwnedIds(catalog, v.manifestName, v.name, manifest.name, r.name);
      assert v in listing.volumes;
    }
  }

  /** Ensuring volumes never inserts an existing id. */
  lemma EnsurePhase(catalog: Catalog, sum: Summary, manifest: Manifest, listing: Listing)
    requires Sound(catalog, sum) && Admissible(catalog, manifest)
    requires Lists(listing.volumes, sum.volumes, (v: Volume) => v.id)
    ensures InsertVolumes(sum.volumes, VolumesToEnsure(manifest, listing)) ==
            VolumesInserted(WithVolumes(sum.volumes, DesiredVolumesFrom(manifest.name, manifest.volumes)), None)
    ensures forall id :: id in WithVolumes(sum.volumes, DesiredVolumesFrom(manifest.name, manifest.volumes)) ==>
              VolumeRowOk(catalog, id,
                          WithVolumes(sum.volumes, DesiredVolumesFrom(manifest.name, manifest.volumes))[id])
  {
    var rows := DesiredVolumesFrom(manifest.name, manifest.volumes);
    forall i, j | 0 <= i < j < |rows|
      ensures rows[i].id != rows[j].id
    {
      if rows[i].id == rows[j].id {
        SameIdSameName(manifest, manifest.volumes[i], manifest.volumes[j]);
      }
    }
    forall r | r in rows
      ensures r.name in VolumeNames(listing.volumes) ==> r.id in sum.volumes && sum.volumes[r.id] == r
      ensures r.name !in VolumeNames(listing.volumes) ==> r.id !in sum.volumes
      ensures VolumeRowOk(catalog, r.id, r)
    {
      DesiredVolumesFit(catalog, sum, manifest, listing, r);
    }
    EnsuresVolumes(sum.volumes, rows, VolumeNames(listing.volumes));
    WithVolumesIs(sum.volumes, rows);
  }

  lemma StaleNames(sum: Summary, manifest: Manifest, listing: Listing)
    requires Lists(listing.volumes, sum.volumes, (v: Volume) => v.id)
    requires forall id :: id in sum.volumes ==> sum.volumes[id].id == id
    ensures VolumeNames(VolumesToRemove(manifest, listing)) == StaleVolumes(manifest, sum.volumes)
  {
    var declared := VolumeNames(DesiredVolumesFrom(manifest.name, manifest.volumes));
    forall n ensures n in declared <==> n in manifest.volumes {
      if n in manifest.volumes {
        DesiredVolume(manifest, Volume(VolumeId(manifest.name, n), n, manifest.name));
      }
      if n in declared {
        var w :| w in DesiredVolumesFrom(manifest.name, manifest.volumes) && w.name == n;
        DesiredVolume(manifest, w);
      }
    }
    forall n | n in StaleVolumes(manifest, sum.volumes)
      ensures n in VolumeNames(VolumesToRemove(manifest, listing))
    {
      var id :| id in sum.volumes && sum.volumes[id].manifestName == manifest.name
                && sum.volumes[id].name !in manifest.volumes && sum.volumes[id].name == n;
      assert sum.volumes[id] in listing.volumes;
    }
    forall n | n in VolumeNames(VolumesToRemove(manifest, listing))
      ensures n in StaleVolumes(manifest, sum.volumes)
    {
      var v :| v in VolumesToRemove(manifest, listing) && v.name == n;
      assert v.id in sum.volumes;
    }
  }

  /** Dropping services from the tables is dropping them from the summary. */
  lemma DropPhase(catalog: Catalog, store: Store, sum: Summary, ids: set<string>)
    requires Sound(catalog, sum) && Represents(store, sum)
    ensures Sound(catalog, sum.(services := sum.services - ids, have := sum.have - ids))
    ensures Represents(WithoutServices(store, ids), sum.(services := sum.services - ids, have := sum.have - ids))
  {
  }

  lemma RemoveIds(catalog: Catalog, store: Store, sum: Summary, manifest: Manifest, listing: Listing)
    requires Ready(catalog, store, sum, manifest, listing)
    ensures ServiceIds(ServicesToRemove(manifest, listing)) == DroppedIds(manifest, sum.services)
  {
    forall id | id in ServiceIds(ServicesToRemove(manifest, listing))
      ensures id in DroppedIds(manifest, sum.services)
    {
      var s :| s in ServicesToRemove(manifest, listing) && s.id == id;
      RemoveMember(catalog, store, sum, manifest, listing, s);
    }
    forall id | id in DroppedIds(manifest, sum.services)
      ensures id in ServiceIds(ServicesToRemove(manifest, listing))
    {
      RemoveMember(catalog, store, sum, manifest, listing, sum.services[id]);
    }
  }

  /** The retiring and serving of an apply are those of the summary machine. */
  lemma ServePhase(
    catalog: Catalog, store: Store, sum: Summary, manifest: Manifest, listing: Listing, place: Placement)
    requires Ready(catalog, store, sum, manifest, listing)
    ensures var retired := store.(instances := store.instances - InstanceIds(InstancesToRemove(manifest, listing)));
            var (served, outcome) :=
              ServeServices(retired, ServicesToCreate(manifest, listing) + ServicesToUpdate(manifest, listing),
                            InstancesToCreate(manifest, listing), place);
            var (sum', outcome') :=
              ServeSummary(sum.(have := Retained(manifest, sum)), Todo(manifest, sum.services), place);
            && outcome == outcome' && Sound(catalog, sum') && Represents(served, sum')
            && sum'.volumes == sum.volumes && sum'.dialect == sum.dialect
  {
    var retired := store.(instances := store.instances - InstanceIds(InstancesToRemove(manifest, listing)));
    var sum1 := sum.(have := Retained(manifest, sum));
    var todo, create := Todo(manifest, sum.services), InstancesToCreate(manifest, listing);
    RetirePhase(catalog, store, sum, manifest, listing);
    TodoIsDiff(catalog, store, sum, manifest, listing);
    TodoDistinct(manifest, sum.services);
    forall s | s in todo ensures Servable(catalog, sum1, create, s) {
      TodoServable(catalog, store, sum, manifest, listing, s);
    }
    ServeRefines(catalog, retired, sum1, todo, create, place);
    ServeKeepsVolumes(sum1, todo, place);
  }

  lemma VolumesRepresent(catalog: Catalog, store: Store, sum: Summary, volumes: map<string, Volume>)
    requires Sound(catalog, sum) && Represents(store, sum)
    requires forall id :: id in volumes ==> VolumeRowOk(catalog, id, volumes[id])
    ensures Sound(catalog, sum.(volumes := volumes))
    ensures Represents(store.(volumes := volumes), sum.(volumes := volumes))
  {
  }

  /** The volume table of a finished apply. */
  function FinalVolumes(sum: Summary, manifest: Manifest, kept: set<string>): map<string, Volume> {
    WithoutVolumes(WithVolumes(sum.volumes, DesiredVolumesFrom(manifest.name, manifest.volumes)),
                   StaleVolumes(manifest, sum.volumes) - kept)
  }

  lemma VolumePhase(catalog: Catalog, sum: Summary, manifest: Manifest, listing: Listing, kept: set<string>)
    requires Sound(catalog, sum) && Admissible(catalog, manifest)
    requires Lists(listing.volumes, sum.volumes, (v: Volume) => v.id)
    ensures var inserted := InsertVolumes(sum.volumes, VolumesToEnsure(manifest, listing));
            && inserted.duplicate == None
            && WithoutVolumes(inserted.table, VolumeNames(VolumesToRemove(manifest, listing)) - kept)
               == FinalVolumes(sum, manifest, kept)
    ensures forall id :: id in FinalVolumes(sum, manifest, kept) ==>
              VolumeRowOk(catalog, id, FinalVolumes(sum, manifest, kept)[id])
  {
    EnsurePhase(catalog, sum, manifest, listing);
    StaleNames(sum, manifest, listing);
  }

  /**
   * One apply on the tables, whatever order the rows were listed in, is one step of the summary
   * machine: same outcome, and the new tables hold exactly the replicas the new summary counts.
   */
  lemma ApplyRefines(
    catalog: Catalog, store: Store, sum: Summary, manifest: Manifest, listing: Listing, place: Placement,
    kept: set<string>)
    requires Ready(catalog, store, sum, manifest, listing)
    ensures ApplyDiff(store, DiffOf(manifest, listing), place, kept).1 == Reconcile(sum, manifest, place, kept).1
    ensures Sound(catalog, Reconcile(sum, manifest, place, kept).0)
    ensures Represents(ApplyDiff(store, DiffOf(manifest, listing), place, kept).0,
                       Reconcile(sum, manifest, place, kept).0)
  {
    var retired := store.(instances := store.instances - InstanceIds(InstancesToRemove(manifest, listing)));
    var todo := ServicesToCreate(manifest, listing) + ServicesToUpdate(manifest, listing);
    ServePhase(catalog, store, sum, manifest, listing, place);
    var served := ServeServices(retired, todo, InstancesToCreate(manifest, listing), place).0;
    var sum' := ServeSummary(sum.(have := Retained(manifest, sum)), Todo(manifest, sum.services), place).0;
    var dropped := DroppedIds(manifest, sum.services);
    RemoveIds(catalog, store, sum, manifest, listing);
    DropPhase(catalog, served, sum', dropped);
    VolumePhase(catalog, sum, manifest, listing, kept);
    VolumesRepresent(catalog, WithoutServices(served, dropped),
                     sum'.(services := sum'.services - dropped, have := sum'.have - dropped),
                     FinalVolumes(sum, manifest, kept));
  }

  // ---- the instances an apply adds --------------------------------------------------------

  function RetiredTable(store: Store, manifest: Manifest, listing: Listing): map<string, Instance>
    requires manifest.WellFormed()
  {
    store.instances - InstanceIds(InstancesToRemove(manifest, listing))
  }

  lemma CreatedOwner(
    catalog: Catalog, store: Store, sum: Summary, manifest: Manifest, listing: Listing, i: Instance)
    returns (s: Service)
    requires Ready(catalog, store, sum, manifest, listing)
    requires i in InstancesToCreate(manifest, listing)
    ensures s in Todo(manifest, sum.services) && i.serviceId == s.id
  {
    var create, update := ServicesToCreate(manifest, listing), ServicesToUpdate(manifest, listing);
    TodoIsDiff(catalog, store, sum, manifest, listing);
    if i in FlatMap(create, FirstReplicas()) {
      s :| s in create && i in FirstReplicas()(s);
      assert s in create + update;
    } else {
      s :| s in update && i in AddedFor(manifest, listing)(s);
      AddedForOwned(manifest, listing, s);
      assert s in create + update;
    }
  }

  lemma ReplicaNumber(s: Service, first: nat, count: nat, i: Instance)
    requires i in Replicas(s, first, count)
    ensures first <= ReplicaIndex(s.id, i.id) < first + count && i == Replica(s, ReplicaIndex(s.id, i.id))
  {
    var block := Replicas(s, first, count);
    var k :| 0 <= k < |block| && block[k] == i;
    assert i == Replica(s, first + k) && i.id == InstanceId(s.id, first + k);
    ReplicaIndexOfInstanceId(s.id, first + k);
  }

  lemma InBlock(create: seq<Instance>, have: map<string, nat>, s: Service, i: Instance)
    requires AddsMissing(create, have, s) && i in create && i.serviceId == s.id
    ensures HaveOf(have, s.id) < ReplicaIndex(s.id, i.id) <= s.desiredReplicas
    ensures i == Replica(s, ReplicaIndex(s.id, i.id))
  {
    assert IsInstanceOf(s.id)(i);
    assert i in Filter(create, IsInstanceOf(s.id));
    ReplicaNumber(s, HaveOf(have, s.id) + 1, Missing(have, s), i);
  }

  /** Every new row is a missing replica of a service on the work list. */
  lemma CreatedIsReplica(
    catalog: Catalog, store: Store, sum: Summary, manifest: Manifest, listing: Listing, i: Instance)
    returns (s: Service)
    requires Ready(catalog, store, sum, manifest, listing)
    requires i in InstancesToCreate(manifest, listing)
    ensures s in Todo(manifest, sum.services) && s in DesiredServices(manifest) && i.serviceId == s.id
    ensures HaveOf(Retained(manifest, sum), s.id) < ReplicaIndex(s.id, i.id) <= s.desiredReplicas
    ensures i == Replica(s, ReplicaIndex(s.id, i.id))
  {
    s := CreatedOwner(catalog, store, sum, manifest, listing, i);
    AddedIs(catalog, store, sum, manifest, listing, s);
    InBlock(InstancesToCreate(manifest, listing), Retained(manifest, sum), s, i);
  }

  lemma BlockIds(create: seq<Instance>, have: map<string, nat>, s: Service, k: nat)
    requires AddsMissing(create, have, s) && HaveOf(have, s.id) < k <= s.desiredReplicas
    ensures InstanceId(s.id, k) in InstanceIds(create)
  {
    var block, n := Filter(create, IsInstanceOf(s.id)), k - HaveOf(have, s.id) - 1;
    assert block[n] == Replica(s, k) && block[n] in block;
  }

  lemma BlockHasReplica(
    catalog: Catalog, store: Store, sum: Summary, manifest: Manifest, listing: Listing, s: Service, k: nat)
    requires Ready(catalog, store, sum, manifest, listing) && s in Todo(manifest, sum.services)
    requires HaveOf(Retained(manifest, sum), s.id) < k <= s.desiredReplicas
    ensures InstanceId(s.id, k) in InstanceIds(InstancesToCreate(manifest, listing))
  {
    AddedIs(catalog, store, sum, manifest, listing, s);
    BlockIds(InstancesToCreate(manifest, listing), Retained(manifest, sum), s, k);
  }

  /** Holding replicas 1 to n pins the number down. */
  lemma HoldsIff(store: Store, sum: Summary, sid: string, n: nat)
    requires Represents(store, sum)
    ensures HoldsReplicas(store.instances, sid, n) <==> n == HaveOf(sum.have, sid)
  {
    var have := HaveOf(sum.have, sid);
    NoneAbove(store, sum, sid);
    assert HoldsReplicas(store.instances, sid, n) && n >= 1 ==> InstanceId(sid, n) in store.instances;
    assert n > have ==> InstanceId(sid, n) !in store.instances;
    if HoldsReplicas(store.instances, sid, n) && n < have {
      var id := InstanceId(sid, n + 1);
      assert id in store.instances && store.instances[id].serviceId == sid;
      ReplicaIndexOfInstanceId(sid, n + 1);
    }
    if n == have {
      forall id | id in store.instances
        ensures store.instances[id].id == id
        ensures store.instances[id].serviceId == sid ==>
                  id == InstanceId(sid, ReplicaIndex(sid, id)) && 1 <= ReplicaIndex(sid, id) <= n
      {
        assert InstanceRowOk(sum, id, store.instances[id]);
      }
    }
  }
}
