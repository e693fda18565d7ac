/** Whole histories of applies: canonical states, path independence, idempotence, lost replicas. */
module Runs {
  import opened Sequences
  import opened Naming
  import opened Json
  import opened Cluster
  import opened Planner
  import opened Apply
  import opened Reconciliation
  import opened Refinement
  import opened Convergence

  /**
   * One apply: the tables it found after agents reported, the rows it listed, what the nodes answered,
   * and the tables and outcome it left.
   */
  datatype Attempt = Attempt(
    manifest: Manifest, seen: Store, listing: Listing, place: Placement, kept: set<string>,
    after: Store, outcome: Outcome)

  /** An attempt made on `before`: agents may have changed nodes and statuses, then the apply ran. */
  ghost predicate Made(catalog: Catalog, before: Store, attempt: Attempt) {
    && Admissible(catalog, attempt.manifest)
    && SameRows(before, attempt.seen)
    && IsListing(attempt.listing, attempt.seen)
    && (attempt.after, attempt.outcome)
       == ApplyDiff(attempt.seen, DiffOf(attempt.manifest, attempt.listing), attempt.place, attempt.kept)
  }

  function Empty(dialect: Dialect): Store {
    Store(dialect, map[], map[], map[])
  }

  function End(dialect: Dialect, attempts: seq<Attempt>): Store {
    if attempts == [] then Empty(dialect) else attempts[|attempts| - 1].after
  }

  /** Attempts made one after another on an empty database, each finished or aborted. */
  ghost predicate Run(catalog: Catalog, dialect: Dialect, attempts: seq<Attempt>) {
    attempts == [] ||
    var rest := attempts[..|attempts| - 1];
    Run(catalog, dialect, rest) && Made(catalog, End(dialect, rest), attempts[|attempts| - 1])
  }

  /** Every apply finished. */
  ghost predicate AllDone(attempts: seq<Attempt>) {
    forall a :: a in attempts ==> a.outcome == Done
  }

  /** Every node with a stale volume took its plan. */
  ghost predicate AllTaken(attempts: seq<Attempt>) {
    forall a :: a in attempts ==> a.kept == {}
  }

  /** One attempt is one step of the summary machine and meets no existing id. */
  lemma AttemptStep(catalog: Catalog, before: Store, sum: Summary, attempt: Attempt)
    requires Sound(catalog, sum) && Represents(before, sum)
    requires Made(catalog, before, attempt)
    ensures var (sum', outcome) := Reconcile(sum, attempt.manifest, attempt.place, attempt.kept);
            && Sound(catalog, sum') && Represents(attempt.after, sum')
            && attempt.outcome == outcome && !outcome.DuplicateId? && sum'.dialect == sum.dialect
  {
    DriftRepresents(before, attempt.seen, sum);
    ApplyRefines(catalog, attempt.seen, sum, attempt.manifest, attempt.listing, attempt.place, attempt.kept);
    var todo, sum1 := Todo(attempt.manifest, sum.services), sum.(have := Retained(attempt.manifest, sum));
    TodoDistinct(attempt.manifest, sum.services);
    var k := ServeStops(sum1, todo, attempt.place);
  }

  lemma EmptyIsSound(catalog: Catalog, dialect: Dialect)
    requires Apart(catalog)
    ensures Sound(catalog, Summary(dialect, map[], map[], map[]))
    ensures Represents(Empty(dialect), Summary(dialect, map[], map[], map[]))
  {
  }

  /** The summary of what a run leaves behind; no attempt of the run met an existing id. */
  lemma {:induction false} RunSummary(catalog: Catalog, dialect: Dialect, attempts: seq<Attempt>) returns (sum: Summary)
    requires Apart(catalog) && Run(catalog, dialect, attempts)
    ensures Sound(catalog, sum) && Represents(End(dialect, attempts), sum) && sum.dialect == dialect
    ensures forall a :: a in attempts ==> !a.outcome.DuplicateId?
    decreases |attempts|
  {
    if attempts == [] {
      sum := Summary(dialect, map[], map[], map[]);
      EmptyIsSound(catalog, dialect);
    } else {
      var rest, last := attempts[..|attempts| - 1], attempts[|attempts| - 1];
      var before := RunSummary(catalog, dialect, rest);
      AttemptStep(catalog, End(dialect, rest), before, last);
      sum := Reconcile(before, last.manifest, last.place, last.kept).0;
      assert forall a :: a in attempts ==> a in rest || a == last;
    }
  }

  /**
   * In every state that any run of finished and aborted applies reaches, each stored service has exactly
   * replicas 1 to n for some n up to its desired number, no row belongs to an unknown service, and no
   * insert of the run ever met an existing id.
   */
  lemma EveryReachableStoreIsContiguous(catalog: Catalog, dialect: Dialect, attempts: seq<Attempt>, sid: string)
    returns (n: nat)
    requires Apart(catalog) && Run(catalog, dialect, attempts)
    ensures var store := End(dialect, attempts);
            && HoldsReplicas(store.instances, sid, n)
            && (if sid in store.services then n <= store.services[sid].desiredReplicas else n == 0)
    ensures forall a :: a in attempts ==> !a.outcome.DuplicateId?
  {
    var sum := RunSummary(catalog, dialect, attempts);
    n := HaveOf(sum.have, sid);
    HoldsIff(End(dialect, attempts), sum, sid, n);
  }

  // ---- histories of finished applies ------------------------------------------------------

  function Manifests(attempts: seq<Attempt>): (r: seq<Manifest>)
    ensures |r| == |attempts| && forall i :: 0 <= i < |r| ==> r[i] == attempts[i].manifest
  {
    seq(|attempts|, i requires 0 <= i < |attempts| => attempts[i].manifest)
  }

  /** The last manifest of a name in a history. */
  function LastOf(history: seq<Manifest>, name: string): (r: Option<Manifest>)
    ensures r.Some? ==> r.value in history && r.value.name == name
  {
    if history == [] then None
    else if history[|history| - 1].name == name then Some(history[|history| - 1])
    else LastOf(history[..|history| - 1], name)
  }

  /** What a manifest declares under an id: a service row or a volume row. */
  type Declaration<R> = (Manifest, string) -> Option<R>

  /** The record a history of finished applies leaves under an id. */
  function Final<R(!new)>(history: seq<Manifest>, id: string, declared: Declaration<R>, owner: R -> string): Option<R> {
    if history == [] then None
    else
      var m := history[|history| - 1];
      var before := Final(history[..|history| - 1], id, declared, owner);
      if declared(m, id).Some? then declared(m, id)
      else if before.Some? && owner(before.value) != m.name then before
      else None
  }

  /** The declarations of a history carry their manifest's name and never contend for an id. */
  ghost predicate Uncontended<R(!new)>(
    history: seq<Manifest>, id: string, declared: Declaration<R>, owner: R -> string)
  {
    && (forall m :: m in history && declared(m, id).Some? ==> owner(declared(m, id).value) == m.name)
    && (forall m, w :: m in history && w in history && declared(m, id).Some? && declared(w, id).Some? ==>
          m.name == w.name)
  }

  /** The record under an id is the one its owner's last manifest declares. */
  lemma {:induction false} FinalIsLast<R(!new)>(
    history: seq<Manifest>, id: string, declared: Declaration<R>, owner: R -> string, name: string)
    requires Uncontended(history, id, declared, owner)
    ensures var last := LastOf(history, name);
            last.Some? && declared(last.value, id).Some? ==>
                Final(history, id, declared, owner) == declared(last.value, id)
    ensures Final(history, id, declared, owner).Some? ==>
              var last := LastOf(history, owner(Final(history, id, declared, owner).value));
              last.Some? && declared(last.value, id) == Final(history, id, declared, owner)
  {
    if history != [] {
      FinalIsLast(history[..|history| - 1], id, declared, owner, name);
    }
  }

  /** Two histories that end alike for every manifest name leave the same record under every id. */
  lemma FinalIndependent<R(!new)>(
    h1: seq<Manifest>, h2: seq<Manifest>, id: string, declared: Declaration<R>, owner: R -> string)
    requires Uncontended(h1, id, declared, owner) && Uncontended(h2, id, declared, owner)
    requires forall name :: LastOf(h1, name) == LastOf(h2, name)
    ensures Final(h1, id, declared, owner) == Final(h2, id, declared, owner)
  {
    var f1, f2 := Final(h1, id, declared, owner), Final(h2, id, declared, owner);
    if f1.Some? {
      FinalIsLast(h1, id, declared, owner, owner(f1.value));
      FinalIsLast(h2, id, declared, owner, owner(f1.value));
    } else if f2.Some? {
      FinalIsLast(h1, id, declared, owner, owner(f2.value));
      FinalIsLast(h2, id, declared, owner, owner(f2.value));
    }
  }

  /** The service row a manifest declares under an id, as it reads back. */
  ghost function ServiceDeclared(dialect: Dialect): Declaration<Service> {
    (m: Manifest, id: string) =>
      if m.WellFormed() && Declared(m, id).Some? then Some(Saved(dialect, Declared(m, id).value)) else None
  }

  function ServiceOwner(): Service -> string {
    (s: Service) => s.manifestName
  }

  function FindVolume(rows: seq<Volume>, id: string): (r: Option<Volume>)
    ensures r.Some? ==> r.value in rows && r.value.id == id
    ensures r.None? ==> forall v :: v in rows ==> v.id != id
  {
    if rows == [] then None
    else if rows[0].id == id then Some(rows[0])
    else FindVolume(rows[1..], id)
  }

  function VolumeDeclared(): Declaration<Volume> {
    (m: Manifest, id: string) => FindVolume(DesiredVolumesFrom(m.name, m.volumes), id)
  }

  function VolumeOwner(): Volume -> string {
    (v: Volume) => v.manifestName
  }

  /** An id carries a manifest's name as its prefix, and the manifest owns names. */
  ghost predicate OwnId(catalog: Catalog, m: Manifest, id: string) {
    m.name in Owners(catalog) && exists n :: id == ServiceId(m.name, n)
  }

  lemma DeclaredOwn(catalog: Catalog, dialect: Dialect, m: Manifest, id: string)
    requires Admissible(catalog, m)
    ensures ServiceDeclared(dialect)(m, id).Some? ==>
              OwnId(catalog, m, id) && ServiceDeclared(dialect)(m, id).value.manifestName == m.name
    ensures VolumeDeclared()(m, id).Some? ==>
              OwnId(catalog, m, id) && VolumeDeclared()(m, id).value.manifestName == m.name
  {
    if ServiceDeclared(dialect)(m, id).Some? {
      var s := Declared(m, id).value;
      DesiredMember(m, s);
      assert id == ServiceId(m.name, s.name) && catalog.services[s.name] == m.name;
    }
    if VolumeDeclared()(m, id).Some? {
      var v := VolumeDeclared()(m, id).value;
      DesiredVolume(m, v);
      assert id == ServiceId(m.name, v.name) && catalog.volumes[v.name] == m.name;
    }
  }

  lemma AdmissibleUncontended(catalog: Catalog, dialect: Dialect, history: seq<Manifest>, id: string)
    requires forall m :: m in history ==> Admissible(catalog, m)
    ensures Uncontended(history, id, ServiceDeclared(dialect), ServiceOwner())
    ensures Uncontended(history, id, VolumeDeclared(), VolumeOwner())
  {
    forall m | m in history
      ensures ServiceDeclared(dialect)(m, id).Some? ==>
                OwnId(catalog, m, id) && ServiceDeclared(dialect)(m, id).value.manifestName == m.name
      ensures VolumeDeclared()(m, id).Some? ==>
                OwnId(catalog, m, id) && VolumeDeclared()(m, id).value.manifestName == m.name
    {
      DeclaredOwn(catalog, dialect, m, id);
    }
    forall m, w | m in history && w in history && OwnId(catalog, m, id) && OwnId(catalog, w, id)
      ensures m.name == w.name
    {
      var a :| id == ServiceId(m.name, a);
      var b :| id == ServiceId(w.name, b);
      OwnedIds(catalog, m.name, a, w.name, b);
    }
  }

  /** Under every id the summary has the final service with all its replicas. */
  ghost predicate Settled(history: seq<Manifest>, sum: Summary) {
    && sum.have.Keys == sum.services.Keys
    && (forall id :: SettledAt(history, sum, id))
  }

  ghost predicate SettledAt(history: seq<Manifest>, sum: Summary, id: string) {
    var service := Final(history, id, ServiceDeclared(sum.dialect), ServiceOwner());
    At(sum, id) == if service.Some? then Some((service.value, service.value.desiredReplicas)) else None
  }

  function Find(volumes: map<string, Volume>, id: string): Option<Volume> {
    if id in volumes then Some(volumes[id]) else None
  }

  /** Under every id the table has the final volume. */
  ghost predicate VolumesSettled(history: seq<Manifest>, volumes: map<string, Volume>) {
    forall id :: Find(volumes, id) == Final(history, id, VolumeDeclared(), VolumeOwner())
  }

  lemma ServiceSettles(
    catalog: Catalog, history: seq<Manifest>, before: Summary, m: Manifest, after: Summary, id: string)
    requires Sound(catalog, before) && Admissible(catalog, m)
    requires SettledAt(history, before, id) && after.dialect == before.dialect
    requires At(after, id) == ExpectedAt(m, before, id)
    ensures SettledAt(history + [m], after, id)
  {
    assert (history + [m])[..|history|] == history;
    if Declared(m, id).Some? && id in before.services {
      DeclaredRow(catalog, before, m, Declared(m, id).value);
    }
  }

  lemma VolumeSettles(catalog: Catalog, history: seq<Manifest>, before: Summary, m: Manifest, id: string)
    requires Sound(catalog, before) && Admissible(catalog, m)
    requires Find(before.volumes, id) == Final(history, id, VolumeDeclared(), VolumeOwner())
    ensures Find(FinalVolumes(before, m, {}), id) == Final(history + [m], id, VolumeDeclared(), VolumeOwner())
  {
    assert (history + [m])[..|history|] == history;
    assert StaleVolumes(m, before.volumes) - {} == StaleVolumes(m, before.volumes);
    var declared := VolumeDeclared()(m, id);
    EnsuredAt(catalog, before, m, id);
    if declared.Some? {
      DesiredVolume(m, declared.value);
      if declared.value.name in StaleVolumes(m, before.volumes) {
        assert false;
      }
    } else if id in before.volumes {
      StaleAt(catalog, before, m, id);
    }
  }

  lemma EnsuredAt(catalog: Catalog, before: Summary, m: Manifest, id: string)
    requires Sound(catalog, before) && Admissible(catalog, m)
    ensures var ensured, declared := WithVolumes(before.volumes, DesiredVolumesFrom(m.name, m.volumes)),
                                     VolumeDeclared()(m, id);
            (if id in ensured then Some(ensured[id]) else None) ==
            if declared.Some? then declared else if id in before.volumes then Some(before.volumes[id]) else None
  {
    var rows := DesiredVolumesFrom(m.name, m.volumes);
    WithVolumesIs(before.volumes, rows);
    var declared := VolumeDeclared()(m, id);
    if declared.Some? {
      var d := declared.value;
      DesiredVolume(m, d);
      if id in before.volumes {
        var v := before.volumes[id];
        OwnedIds(catalog, v.manifestName, v.name, m.name, d.name);
      }
      forall r | r in rows && r.id == id ensures r == d {
        DesiredVolume(m, r);
        SameIdSameName(m, r.name, d.name);
      }
    }
  }

  lemma StaleAt(catalog: Catalog, before: Summary, m: Manifest, id: string)
    requires Sound(catalog, before) && Admissible(catalog, m)
    requires id in before.volumes && VolumeDeclared()(m, id).None?
    ensures before.volumes[id].name in StaleVolumes(m, before.volumes) <==> before.volumes[id].manifestName == m.name
  {
    var v := before.volumes[id];
    if v.manifestName == m.name {
      DesiredVolume(m, Volume(VolumeId(m.name, v.name), v.name, m.name));
    }
  }

  lemma SettledStep(
    catalog: Catalog, history: seq<Manifest>, before: Summary, m: Manifest, place: Placement, kept: set<string>)
    requires Sound(catalog, before) && Admissible(catalog, m)
    requires Settled(history, before)
    requires Reconcile(before, m, place, kept).1 == Done
    ensures Settled(history + [m], Reconcile(before, m, place, kept).0)
  {
    var after := Reconcile(before, m, place, kept).0;
    FinishedApply(catalog, before, m, place, kept);
    forall id ensures SettledAt(history + [m], after, id) {
      assert SettledAt(history, before, id);
      assert At(after, id) == ExpectedAt(m, before, id);
      ServiceSettles(catalog, history, before, m, after, id);
    }
  }

  lemma VolumesStep(catalog: Catalog, history: seq<Manifest>, before: Summary, m: Manifest, place: Placement)
    requires Sound(catalog, before) && Admissible(catalog, m)
    requires VolumesSettled(history, before.volumes)
    requires Reconcile(before, m, place, {}).1 == Done
    ensures VolumesSettled(history + [m], Reconcile(before, m, place, {}).0.volumes)
  {
    assert Reconcile(before, m, place, {}).0.volumes == FinalVolumes(before, m, {});
    forall id
      ensures Find(FinalVolumes(before, m, {}), id) == Final(history + [m], id, VolumeDeclared(), VolumeOwner())
    {
      VolumeSettles(catalog, history, before, m, id);
    }
  }

  /** What a run of finished applies leaves. */
  ghost predicate Leaves(catalog: Catalog, history: seq<Manifest>, store: Store, sum: Summary) {
    && Sound(catalog, sum)
    && Represents(store, sum)
    && Settled(history, sum)
  }

  lemma LeavesStep(catalog: Catalog, history: seq<Manifest>, before: Store, sum: Summary, attempt: Attempt)
    requires Leaves(catalog, history, before, sum)
    requires Made(catalog, before, attempt) && attempt.outcome == Done
    ensures var sum' := Reconcile(sum, attempt.manifest, attempt.place, attempt.kept).0;
            && Leaves(catalog, history + [attempt.manifest], attempt.after, sum') && sum'.dialect == sum.dialect
            && (attempt.kept == {} && VolumesSettled(history, sum.volumes) ==>
                  VolumesSettled(history + [attempt.manifest], sum'.volumes))
  {
    AttemptStep(catalog, before, sum, attempt);
    SettledStep(catalog, history, sum, attempt.manifest, attempt.place, attempt.kept);
    if attempt.kept == {} && VolumesSettled(history, sum.volumes) {
      VolumesStep(catalog, history, sum, attempt.manifest, attempt.place);
    }
  }

  lemma ManifestsSnoc(attempts: seq<Attempt>)
    requires attempts != []
    ensures Manifests(attempts) == Manifests(attempts[..|attempts| - 1]) + [attempts[|attempts| - 1].manifest]
  {
  }

  lemma {:induction false} RunAdmissible(catalog: Catalog, dialect: Dialect, attempts: seq<Attempt>)
    requires Run(catalog, dialect, attempts)
    ensures forall m :: m in Manifests(attempts) ==> Admissible(catalog, m)
    decreases |attempts|
  {
    if attempts != [] {
      RunAdmissible(catalog, dialect, attempts[..|attempts| - 1]);
      ManifestsSnoc(attempts);
    }
  }

  /** A run of finished applies leaves exactly the records its history settles on. */
  lemma {:induction false} RunSettles(catalog: Catalog, dialect: Dialect, attempts: seq<Attempt>) returns (sum: Summary)
    requires Apart(catalog) && Run(catalog, dialect, attempts) && AllDone(attempts)
    ensures Leaves(catalog, Manifests(attempts), End(dialect, attempts), sum) && sum.dialect == dialect
    ensures AllTaken(attempts) ==> VolumesSettled(Manifests(attempts), sum.volumes)
    decreases |attempts|
  {
    if attempts == [] {
      sum := Summary(dialect, map[], map[], map[]);
      assert Manifests(attempts) == [];
    } else {
      var rest, last := attempts[..|attempts| - 1], attempts[|attempts| - 1];
      assert last in attempts;
      var before := RunSettles(catalog, dialect, rest);
      ManifestsSnoc(attempts);
      LeavesStep(catalog, Manifests(rest), End(dialect, rest), before, last);
      sum := Reconcile(before, last.manifest, last.place, last.kept).0;
    }
  }

  lemma SettledHolds(history: seq<Manifest>, sum: Summary, store: Store, sid: string)
    requires Settled(history, sum) && Represents(store, sum) && sid in store.services
    ensures HoldsReplicas(store.instances, sid, store.services[sid].desiredReplicas)
  {
    assert SettledAt(history, sum, sid);
    HoldsIff(store, sum, sid, store.services[sid].desiredReplicas);
  }

  /** After a run of finished applies every stored service has all its replicas and no others. */
  lemma FinishedRunsAreCanonical(catalog: Catalog, dialect: Dialect, attempts: seq<Attempt>, sid: string)
    requires Apart(catalog) && Run(catalog, dialect, attempts) && AllDone(attempts)
    requires sid in End(dialect, attempts).services
    ensures HoldsReplicas(End(dialect, attempts).instances, sid, End(dialect, attempts).services[sid].desiredReplicas)
  {
    var sum := RunSettles(catalog, dialect, attempts);
    SettledHolds(Manifests(attempts), sum, End(dialect, attempts), sid);
  }

  lemma SettledAlike(catalog: Catalog, h1: seq<Manifest>, h2: seq<Manifest>, a: Summary, b: Summary)
    requires forall m :: m in h1 ==> Admissible(catalog, m)
    requires forall m :: m in h2 ==> Admissible(catalog, m)
    requires Settled(h1, a) && Settled(h2, b) && a.dialect == b.dialect
    requires forall name :: LastOf(h1, name) == LastOf(h2, name)
    ensures a.services == b.services && a.have == b.have
  {
    forall id ensures At(a, id) == At(b, id) {
      assert SettledAt(h1, a, id) && SettledAt(h2, b, id);
      AdmissibleUncontended(catalog, a.dialect, h1, id);
      AdmissibleUncontended(catalog, a.dialect, h2, id);
      FinalIndependent(h1, h2, id, ServiceDeclared(a.dialect), ServiceOwner());
    }
    SummaryByRows(a, b);
  }

  lemma VolumesAlike(
    catalog: Catalog, h1: seq<Manifest>, h2: seq<Manifest>, a: map<string, Volume>, b: map<string, Volume>)
    requires forall m :: m in h1 ==> Admissible(catalog, m)
    requires forall m :: m in h2 ==> Admissible(catalog, m)
    requires VolumesSettled(h1, a) && VolumesSettled(h2, b)
    requires forall name :: LastOf(h1, name) == LastOf(h2, name)
    ensures a == b
  {
    forall id ensures Find(a, id) == Find(b, id) {
      AdmissibleUncontended(catalog, Sqlite, h1, id);
      AdmissibleUncontended(catalog, Sqlite, h2, id);
      FinalIndependent(h1, h2, id, VolumeDeclared(), VolumeOwner());
    }
    SameVolumes(a, b);
  }

  lemma SameVolumes(a: map<string, Volume>, b: map<string, Volume>)
    requires forall id :: Find(a, id) == Find(b, id)
    ensures a == b
  {
    forall id ensures (id in a <==> id in b) && (id in a ==> a[id] == b[id]) {
      assert Find(a, id) == Find(b, id);
    }
  }

  /**
   * Path independence: two runs of finished applies whose last manifest of every name agrees leave the same
   * services, instance ids and images, whatever came before and however rows were listed; and the same
   * volumes, when every node with a stale volume took its plan.
   */
  lemma PathIndependence(catalog: Catalog, dialect: Dialect, run1: seq<Attempt>, run2: seq<Attempt>)
    requires Apart(catalog) && Run(catalog, dialect, run1) && Run(catalog, dialect, run2)
    requires AllDone(run1) && AllDone(run2)
    requires forall name :: LastOf(Manifests(run1), name) == LastOf(Manifests(run2), name)
    ensures End(dialect, run1).services == End(dialect, run2).services
    ensures SameInstances(End(dialect, run1).instances, End(dialect, run2).instances)
    ensures AllTaken(run1) && AllTaken(run2) ==> End(dialect, run1).volumes == End(dialect, run2).volumes
  {
    var a := RunSettles(catalog, dialect, run1);
    var b := RunSettles(catalog, dialect, run2);
    RunAdmissible(catalog, dialect, run1);
    RunAdmissible(catalog, dialect, run2);
    SettledAlike(catalog, Manifests(run1), Manifests(run2), a, b);
    SameCountsSameInstances(End(dialect, run1), a, End(dialect, run2), b);
    if AllTaken(run1) && AllTaken(run2) {
      VolumesAlike(catalog, Manifests(run1), Manifests(run2), a.volumes, b.volumes);
    }
  }

  // ---- re-applying ------------------------------------------------------------------------

  /** Every declared service is stored in full, and no other row bears the manifest's name. */
  ghost predicate InForce(manifest: Manifest, sum: Summary)
    requires manifest.WellFormed()
  {
    && (forall s :: s in DesiredServices(manifest) ==>
          At(sum, s.id) == Some((Saved(sum.dialect, s), s.desiredReplicas)))
    && DroppedIds(manifest, sum.services) == {}
  }

  ghost predicate VolumesInForce(manifest: Manifest, volumes: map<string, Volume>) {
    && (forall v :: v in DesiredVolumesFrom(manifest.name, manifest.volumes) ==> v.id in volumes && volumes[v.id] == v)
    && StaleVolumes(manifest, volumes) == {}
  }

  lemma SomeName(rows: seq<Volume>)
    requires rows != []
    ensures VolumeNames(rows) != {}
  {
    assert rows[0].name in VolumeNames(rows);
  }

  lemma NoVolumesLeft(catalog: Catalog, store: Store, sum: Summary, manifest: Manifest, listing: Listing)
    requires Ready(catalog, store, sum, manifest, listing) && VolumesInForce(manifest, sum.volumes)
    ensures VolumesToEnsure(manifest, listing) == [] && VolumesToRemove(manifest, listing) == []
  {
    var rows, removeVolumes := DesiredVolumesFrom(manifest.name, manifest.volumes), VolumesToRemove(manifest, listing);
    StaleNames(sum, manifest, listing);
    if removeVolumes != [] {
      SomeName(removeVolumes);
    }
    forall v | v in rows
      ensures v.name in VolumeNames(listing.volumes)
    {
      assert v in listing.volumes;
    }
    FilterNone(rows, IsUnlisted(VolumeNames(listing.volumes)));
  }

  lemma SettledInForce(catalog: Catalog, history: seq<Manifest>, sum: Summary, name: string)
    requires forall m :: m in history ==> Admissible(catalog, m)
    requires Sound(catalog, sum) && Settled(history, sum) && LastOf(history, name).Some?
    ensures LastOf(history, name).value.WellFormed()
    ensures InForce(LastOf(history, name).value, sum)
  {
    var m := LastOf(history, name).value;
    forall s | s in DesiredServices(m)
      ensures At(sum, s.id) == Some((Saved(sum.dialect, s), s.desiredReplicas))
    {
      assert SettledAt(history, sum, s.id);
      AdmissibleUncontended(catalog, sum.dialect, history, s.id);
      FinalIsLast(history, s.id, ServiceDeclared(sum.dialect), ServiceOwner(), name);
      DeclaredMember(m, s);
    }
    forall id | id in DroppedIds(m, sum.services)
      ensures false
    {
      assert SettledAt(history, sum, id);
      AdmissibleUncontended(catalog, sum.dialect, history, id);
      FinalIsLast(history, id, ServiceDeclared(sum.dialect), ServiceOwner(), name);
      DroppedIsUndeclared(catalog, sum, m, id);
    }
  }

  lemma VolumeInForce(catalog: Catalog, history: seq<Manifest>, volumes: map<string, Volume>, name: string, v: Volume)
    requires forall m :: m in history ==> Admissible(catalog, m)
    requires VolumesSettled(history, volumes) && LastOf(history, name).Some?
    requires v in DesiredVolumesFrom(name, LastOf(history, name).value.volumes)
    ensures v.id in volumes && volumes[v.id] == v
  {
    var m := LastOf(history, name).value;
    AdmissibleUncontended(catalog, Sqlite, history, v.id);
    FinalIsLast(history, v.id, VolumeDeclared(), VolumeOwner(), name);
    assert Find(volumes, v.id) == Final(history, v.id, VolumeDeclared(), VolumeOwner());
    var found := FindVolume(DesiredVolumesFrom(m.name, m.volumes), v.id);
    DesiredVolume(m, v);
    DesiredVolume(m, found.value);
    SameIdSameName(m, v.name, found.value.name);
  }

  lemma SettledVolumesInForce(catalog: Catalog, history: seq<Manifest>, volumes: map<string, Volume>, name: string)
    requires forall m :: m in history ==> Admissible(catalog, m)
    requires VolumesSettled(history, volumes) && LastOf(history, name).Some?
    ensures VolumesInForce(LastOf(history, name).value, volumes)
  {
    var m := LastOf(history, name).value;
    forall v | v in DesiredVolumesFrom(m.name, m.volumes)
      ensures v.id in volumes && volumes[v.id] == v
    {
      VolumeInForce(catalog, history, volumes, name, v);
    }
    forall n | n in StaleVolumes(m, volumes)
      ensures false
    {
      var id :| id in volumes && volumes[id].manifestName == m.name && volumes[id].name !in m.volumes;
      assert Find(volumes, id) == Final(history, id, VolumeDeclared(), VolumeOwner());
      AdmissibleUncontended(catalog, Sqlite, history, id);
      FinalIsLast(history, id, VolumeDeclared(), VolumeOwner(), name);
      DesiredVolume(m, volumes[id]);
    }
  }

  /**
   * A desired row reads back as written exactly on SQLite: its deploy fingerprint lists `ports` behind the
   * longer `environment`, and `jsonb` turns them round.
   */
  lemma StableIffSqlite(manifest: Manifest, dialect: Dialect, s: Service)
    requires manifest.WellFormed() && s in DesiredServices(manifest)
    ensures Stable(dialect, s) <==> dialect == Sqlite
  {
    DesiredMember(manifest, s);
    DeploySpecOutOfOrder(manifest.services[s.name].deploy);
    StoredUnchangedIff(dialect, s.deploySpec);
  }

  lemma ForcedServices(catalog: Catalog, store: Store, sum: Summary, manifest: Manifest, listing: Listing)
    requires Ready(catalog, store, sum, manifest, listing) && InForce(manifest, sum)
    ensures ServicesToCreate(manifest, listing) == [] && ServicesToRemove(manifest, listing) == []
    ensures forall s :: s in ServicesToUpdate(manifest, listing) <==>
              s in DesiredServices(manifest) && !Stable(sum.dialect, s)
  {
    var create, remove := ServicesToCreate(manifest, listing), ServicesToRemove(manifest, listing);
    if create != [] {
      CreateMember(catalog, store, sum, manifest, listing, create[0]);
    }
    if remove != [] {
      RemoveMember(catalog, store, sum, manifest, listing, remove[0]);
    }
    forall s
      ensures s in ServicesToUpdate(manifest, listing) <==> s in DesiredServices(manifest) && !Stable(sum.dialect, s)
    {
      UpdateMember(catalog, store, sum, manifest, listing, s);
      if s in DesiredServices(manifest) {
        assert At(sum, s.id) == Some((Saved(sum.dialect, s), s.desiredReplicas));
        DeclaredRow(catalog, sum, manifest, s);
      }
    }
  }

  /** What a service retains when its manifest, already in force, is applied again. */
  lemma ForcedRetains(catalog: Catalog, sum: Summary, manifest: Manifest, sid: string)
    requires Sound(catalog, sum) && Admissible(catalog, manifest) && InForce(manifest, sum)
    requires sid in sum.services
    ensures Retained(manifest, sum)[sid] ==
            if Declared(manifest, sid).Some? && !Stable(sum.dialect, Declared(manifest, sid).value) then 0
            else sum.have[sid]
  {
    DroppedIsUndeclared(catalog, sum, manifest, sid);
    if Declared(manifest, sid).Some? {
      var s := Declared(manifest, sid).value;
      assert At(sum, s.id) == Some((Saved(sum.dialect, s), s.desiredReplicas));
      DeclaredRow(catalog, sum, manifest, s);
      RetainedIs(catalog, sum, manifest, s);
      if !Stable(sum.dialect, s) {
        UnstableRecreates(manifest, sum.dialect, sum.services[sid], s);
      }
    }
  }

  /** A stored instance whose service is declared but does not read back as written. */
  predicate Churned(manifest: Manifest, dialect: Dialect, i: Instance)
    requires manifest.WellFormed()
  {
    Declared(manifest, i.serviceId).Some? && !Stable(dialect, Declared(manifest, i.serviceId).value)
  }

  lemma ForcedRemovals(
    catalog: Catalog, store: Store, sum: Summary, manifest: Manifest, listing: Listing, id: string)
    requires Ready(catalog, store, sum, manifest, listing) && InForce(manifest, sum)
    ensures id in InstanceIds(InstancesToRemove(manifest, listing)) <==>
            id in store.instances && Churned(manifest, store.dialect, store.instances[id])
  {
    if id in store.instances {
      assert InstanceRowOk(sum, id, store.instances[id]);
      ForcedRetains(catalog, sum, manifest, store.instances[id].serviceId);
      GoneIff(catalog, store, sum, manifest, listing, id);
    } else if id in InstanceIds(InstancesToRemove(manifest, listing)) {
      var i :| i in InstancesToRemove(manifest, listing) && i.id == id;
      RemovedAreStored(catalog, store, sum, manifest, listing, i);
    }
  }

  lemma CreatedIsChurned(
    catalog: Catalog, store: Store, sum: Summary, manifest: Manifest, listing: Listing, i: Instance)
    requires Ready(catalog, store, sum, manifest, listing) && InForce(manifest, sum)
    requires i in InstancesToCreate(manifest, listing)
    ensures i.id in store.instances && Churned(manifest, store.dialect, store.instances[i.id])
  {
    var s := CreatedIsReplica(catalog, store, sum, manifest, listing, i);
    assert At(sum, s.id) == Some((Saved(sum.dialect, s), s.desiredReplicas));
    ForcedRetains(catalog, sum, manifest, s.id);
    DeclaredMember(manifest, s);
    StoredReplica(store, sum, s.id, ReplicaIndex(s.id, i.id));
  }

  lemma ChurnedIsCreated(
    catalog: Catalog, store: Store, sum: Summary, manifest: Manifest, listing: Listing, id: string)
    requires Ready(catalog, store, sum, manifest, listing) && InForce(manifest, sum)
    requires id in store.instances && Churned(manifest, store.dialect, store.instances[id])
    ensures id in InstanceIds(InstancesToCreate(manifest, listing))
  {
    var s := Declared(manifest, store.instances[id].serviceId).value;
    StoredRow(store, sum, id);
    assert At(sum, s.id) == Some((Saved(sum.dialect, s), s.desiredReplicas));
    ForcedRetains(catalog, sum, manifest, s.id);
    TodoMember(manifest, sum.services, s);
    DeclaredRow(catalog, sum, manifest, s);
    BlockHasReplica(catalog, store, sum, manifest, listing, s, ReplicaIndex(s.id, id));
  }

  lemma ForcedCreations(
    catalog: Catalog, store: Store, sum: Summary, manifest: Manifest, listing: Listing, id: string)
    requires Ready(catalog, store, sum, manifest, listing) && InForce(manifest, sum)
    ensures id in InstanceIds(InstancesToCreate(manifest, listing)) <==>
            id in store.instances && Churned(manifest, store.dialect, store.instances[id])
  {
    if id in InstanceIds(InstancesToCreate(manifest, listing)) {
      var i :| i in InstancesToCreate(manifest, listing) && i.id == id;
      CreatedIsChurned(catalog, store, sum, manifest, listing, i);
    } else if id in store.instances && Churned(manifest, store.dialect, store.instances[id]) {
      ChurnedIsCreated(catalog, store, sum, manifest, listing, id);
    }
  }

  /** What is planned when a manifest already in force is applied again. */
  ghost predicate Recreates(manifest: Manifest, store: Store, diff: Diff)
    requires manifest.WellFormed()
  {
    && diff.servicesToCreate == [] && diff.servicesToRemove == []
    && (forall s :: s in diff.servicesToUpdate <==> s in DesiredServices(manifest) && !Stable(store.dialect, s))
    && (forall id :: id in InstanceIds(diff.instancesToRemove) <==>
          id in store.instances && Churned(manifest, store.dialect, store.instances[id]))
    && InstanceIds(diff.instancesToCreate) == InstanceIds(diff.instancesToRemove)
  }

  lemma ForcedDiff(catalog: Catalog, store: Store, sum: Summary, manifest: Manifest, listing: Listing)
    requires Ready(catalog, store, sum, manifest, listing) && InForce(manifest, sum)
    ensures Recreates(manifest, store, DiffOf(manifest, listing))
  {
    ForcedServices(catalog, store, sum, manifest, listing);
    forall id
      ensures id in InstanceIds(InstancesToRemove(manifest, listing)) <==>
              id in store.instances && Churned(manifest, store.dialect, store.instances[id])
      ensures id in InstanceIds(InstancesToCreate(manifest, listing)) <==>
              id in store.instances && Churned(manifest, store.dialect, store.instances[id])
    {
      ForcedRemovals(catalog, store, sum, manifest, listing, id);
      ForcedCreations(catalog, store, sum, manifest, listing, id);
    }
  }

  /**
   * Re-applying. After a run of finished applies, whatever agents then report, planning the last manifest of
   * any name again creates and removes no service, and updates exactly the declared services whose row does
   * not read back as it was written: it retires all their instances and creates the same ones again.
   */
  lemma ReapplyRecreatesTheUnstable(
    catalog: Catalog, dialect: Dialect, run: seq<Attempt>, name: string, seen: Store, listing: Listing)
    requires Apart(catalog) && Run(catalog, dialect, run) && AllDone(run)
    requires LastOf(Manifests(run), name).Some?
    requires SameRows(End(dialect, run), seen) && IsListing(listing, seen)
    ensures LastOf(Manifests(run), name).value.WellFormed() && seen.dialect == dialect
    ensures Recreates(LastOf(Manifests(run), name).value, seen, DiffOf(LastOf(Manifests(run), name).value, listing))
    ensures AllTaken(run) ==>
              && DiffOf(LastOf(Manifests(run), name).value, listing).volumesToEnsure == []
              && DiffOf(LastOf(Manifests(run), name).value, listing).volumesToRemove == []
  {
    var manifest := LastOf(Manifests(run), name).value;
    var sum := RunSettles(catalog, dialect, run);
    RunAdmissible(catalog, dialect, run);
    SettledInForce(catalog, Manifests(run), sum, name);
    DriftRepresents(End(dialect, run), seen, sum);
    ForcedDiff(catalog, seen, sum, manifest, listing);
    if AllTaken(run) {
      SettledVolumesInForce(catalog, Manifests(run), sum.volumes, name);
      NoVolumesLeft(catalog, seen, sum, manifest, listing);
    }
  }

  /** A plan that touches no service and no instance. */
  predicate PlansNothing(diff: Diff) {
    && diff.servicesToCreate == [] && diff.servicesToUpdate == [] && diff.servicesToRemove == []
    && diff.instancesToCreate == [] && diff.instancesToRemove == []
  }

  lemma NoIdsNoRows(rows: seq<Instance>)
    ensures rows == [] <==> InstanceIds(rows) == {}
  {
    assert rows != [] ==> rows[0].id in InstanceIds(rows);
  }

  lemma RecreatesNothing(manifest: Manifest, store: Store, diff: Diff)
    requires manifest.WellFormed() && Recreates(manifest, store, diff)
    ensures PlansNothing(diff) <==> forall s :: s in DesiredServices(manifest) ==> Stable(store.dialect, s)
  {
    NoIdsNoRows(diff.instancesToRemove);
    NoIdsNoRows(diff.instancesToCreate);
    assert diff.servicesToUpdate != [] ==> diff.servicesToUpdate[0] in diff.servicesToUpdate;
    if InstanceIds(diff.instancesToRemove) != {} {
      var id :| id in InstanceIds(diff.instancesToRemove);
      DeclaredMember(manifest, Declared(manifest, store.instances[id].serviceId).value);
    }
  }

  /**
   * Idempotence: after a run of finished applies, re-applying the last manifest of a name plans nothing
   * exactly when every declared row reads back as it was written. That is: on SQLite, or when the manifest
   * declares no service.
   */
  lemma ReapplyPlansNothing(
    catalog: Catalog, dialect: Dialect, run: seq<Attempt>, name: string, seen: Store, listing: Listing)
    requires Apart(catalog) && Run(catalog, dialect, run) && AllDone(run)
    requires LastOf(Manifests(run), name).Some?
    requires SameRows(End(dialect, run), seen) && IsListing(listing, seen)
    ensures LastOf(Manifests(run), name).value.WellFormed()
    ensures var manifest := LastOf(Manifests(run), name).value;
            && (PlansNothing(DiffOf(manifest, listing)) <==>
                  forall s :: s in DesiredServices(manifest) ==> Stable(dialect, s))
            && (PlansNothing(DiffOf(manifest, listing)) <==> dialect == Sqlite || manifest.serviceNames == [])
  {
    var manifest := LastOf(Manifests(run), name).value;
    ReapplyRecreatesTheUnstable(catalog, dialect, run, name, seen, listing);
    RecreatesNothing(manifest, seen, DiffOf(manifest, listing));
    forall s | s in DesiredServices(manifest)
      ensures Stable(dialect, s) <==> dialect == Sqlite
    {
      StableIffSqlite(manifest, dialect, s);
    }
    if manifest.serviceNames != [] {
      assert DesiredServices(manifest)[0] in DesiredServices(manifest);
    }
  }

  // ---- replicas an abort can lose ---------------------------------------------------------

  /**
   * A finished apply brings every declared service to its full number exactly when no service whose stored
   * row already equals the desired one was short of replicas before.
   */
  lemma FullIffNoneShort(
    catalog: Catalog, store: Store, sum: Summary, manifest: Manifest, listing: Listing, place: Placement,
    kept: set<string>)
    requires Ready(catalog, store, sum, manifest, listing)
    requires ApplyDiff(store, DiffOf(manifest, listing), place, kept).1 == Done
    ensures var after := ApplyDiff(store, DiffOf(manifest, listing), place, kept).0;
            (forall s :: s in DesiredServices(manifest) ==> HoldsReplicas(after.instances, s.id, s.desiredReplicas))
            <==> forall s :: s in DesiredServices(manifest) && s.id in store.services && store.services[s.id] == s ==>
                   HoldsReplicas(store.instances, s.id, s.desiredReplicas)
  {
    var after, sum' := ApplyDiff(store, DiffOf(manifest, listing), place, kept).0,
        Reconcile(sum, manifest, place, kept).0;
    ApplyRefines(catalog, store, sum, manifest, listing, place, kept);
    FinishedApply(catalog, sum, manifest, place, kept);
    forall s | s in DesiredServices(manifest)
      ensures HoldsReplicas(after.instances, s.id, s.desiredReplicas) <==>
              (s.id in store.services && store.services[s.id] == s ==>
                 HoldsReplicas(store.instances, s.id, s.desiredReplicas))
    {
      HoldsIff(store, sum, s.id, s.desiredReplicas);
      HoldsIff(after, sum', s.id, s.desiredReplicas);
      DeclaredMember(manifest, s);
      assert At(sum', s.id) == ExpectedAt(manifest, sum, s.id);
      if s.id in sum.services {
        DeclaredRow(catalog, sum, manifest, s);
      }
    }
  }

  /** The service an apply aborts at keeps its old row and its retained replicas. */
  lemma AbortedUnserved(
    catalog: Catalog, sum: Summary, manifest: Manifest, place: Placement, kept: set<string>, s: Service)
    requires Sound(catalog, sum) && Admissible(catalog, manifest)
    requires s in DesiredServices(manifest) && Reconcile(sum, manifest, place, kept).1 == NoTarget(s.name)
    ensures At(Reconcile(sum, manifest, place, kept).0, s.id) == At(sum.(have := Retained(manifest, sum)), s.id)
  {
    var done, next := AbortedAt(sum, manifest, place, kept);
    DesiredMember(manifest, s);
    DesiredMember(manifest, next);
    ServedUnlisted(sum.(have := Retained(manifest, sum)), done, s.id);
  }

  /** What rolling back to a row already in force leaves of a service that has no replica. */
  lemma RollbackSummary(
    catalog: Catalog, mid: Summary, current: Manifest, service: Service, place: Placement, kept: set<string>)
    requires Sound(catalog, mid) && Admissible(catalog, current) && service in DesiredServices(current)
    requires At(mid, service.id) == Some((Saved(mid.dialect, service), 0))
    requires Reconcile(mid, current, place, kept).1 == Done
    ensures At(Reconcile(mid, current, place, kept).0, service.id) ==
            Some((Saved(mid.dialect, service), if mid.dialect == Sqlite then 0 else service.desiredReplicas))
  {
    FinishedApply(catalog, mid, current, place, kept);
    DeclaredMember(current, service);
    StableIffSqlite(current, mid.dialect, service);
    DeclaredRow(catalog, mid, current, service);
    assert At(Reconcile(mid, current, place, kept).0, service.id) == ExpectedAt(current, mid, service.id);
  }

  /** A service that would have been recreated is left with its row and no replica by the abort at it. */
  lemma AbortStrips(catalog: Catalog, sum: Summary, next: Manifest, place: Placement, kept: set<string>, s: Service)
    requires Sound(catalog, sum) && Admissible(catalog, next)
    requires s in DesiredServices(next) && s.id in sum.services && NeedsRecreate(next, sum.services[s.id], s)
    requires Reconcile(sum, next, place, kept).1 == NoTarget(s.name)
    ensures At(Reconcile(sum, next, place, kept).0, s.id) == Some((sum.services[s.id], 0))
    ensures Reconcile(sum, next, place, kept).0.dialect == sum.dialect
  {
    var _, _ := AbortedAt(sum, next, place, kept);
    AbortedUnserved(catalog, sum, next, place, kept, s);
    RetainedIs(catalog, sum, next, s);
  }

  /** A finished apply on the tables leaves under an id the row and the replicas its summary counts. */
  lemma FinishedHolds(
    catalog: Catalog, store: Store, sum: Summary, manifest: Manifest, listing: Listing, place: Placement,
    kept: set<string>, id: string)
    requires Ready(catalog, store, sum, manifest, listing)
    requires id in Reconcile(sum, manifest, place, kept).0.services &&
             id in Reconcile(sum, manifest, place, kept).0.have
    ensures var final, sum' := ApplyDiff(store, DiffOf(manifest, listing), place, kept).0,
                               Reconcile(sum, manifest, place, kept).0;
            && id in final.services && final.services[id] == sum'.services[id]
            && HoldsReplicas(final.instances, id, sum'.have[id])
  {
    ApplyRefines(catalog, store, sum, manifest, listing, place, kept);
    HoldsIff(ApplyDiff(store, DiffOf(manifest, listing), place, kept).0, Reconcile(sum, manifest, place, kept).0, id,
             Reconcile(sum, manifest, place, kept).0.have[id]);
  }

  lemma AbortedTables(
    catalog: Catalog, store: Store, sum: Summary, next: Manifest, listing: Listing, place: Placement, kept: set<string>,
    seen: Store, s: Service) returns (mid: Summary)
    requires Ready(catalog, store, sum, next, listing)
    requires s in DesiredServices(next) && s.id in store.services && NeedsRecreate(next, store.services[s.id], s)
    requires ApplyDiff(store, DiffOf(next, listing), place, kept).1 == NoTarget(s.name)
    requires SameRows(ApplyDiff(store, DiffOf(next, listing), place, kept).0, seen)
    ensures Sound(catalog, mid) && Represents(seen, mid) && mid.dialect == store.dialect
    ensures At(mid, s.id) == Some((store.services[s.id], 0))
  {
    mid := Reconcile(sum, next, place, kept).0;
    ApplyRefines(catalog, store, sum, next, listing, place, kept);
    DriftRepresents(ApplyDiff(store, DiffOf(next, listing), place, kept).0, seen, mid);
    AbortStrips(catalog, sum, next, place, kept, s);
  }

  lemma RolledBack(
    catalog: Catalog, mid: Summary, current: Manifest, seen: Store, listing: Listing, place: Placement,
    kept: set<string>, service: Service)
    requires Ready(catalog, seen, mid, current, listing) && service in DesiredServices(current)
    requires At(mid, service.id) == Some((Saved(mid.dialect, service), 0))
    requires ApplyDiff(seen, DiffOf(current, listing), place, kept).1 == Done
    ensures var final := ApplyDiff(seen, DiffOf(current, listing), place, kept).0;
            && service.id in final.services && final.services[service.id] == Saved(mid.dialect, service)
            && HoldsReplicas(final.instances, service.id, if mid.dialect == Sqlite then 0 else service.desiredReplicas)
  {
    ApplyRefines(catalog, seen, mid, current, listing, place, kept);
    RollbackSummary(catalog, mid, current, service, place, kept);
    FinishedHolds(catalog, seen, mid, current, listing, place, kept, service.id);
  }

  /**
   * Rolling back. An update that would recreate a service retires its replicas and then aborts at it; the old
   * manifest is then applied again and finishes. On PostgreSQL, where the old row never reads back as written,
   * that recreates every replica; on SQLite the old row equals the stored one and the service keeps none.
   */
  lemma RollbackAfterAbort(
    catalog: Catalog, store: Store, sum: Summary, next: Manifest, listing: Listing, place: Placement, kept: set<string>,
    current: Manifest, seen: Store, relisting: Listing, place': Placement, kept': set<string>,
    service: Service, replacement: Service)
    requires Ready(catalog, store, sum, next, listing) && Admissible(catalog, current)
    requires service in DesiredServices(current) && replacement in DesiredServices(next) && replacement.id == service.id
    requires service.id in store.services && store.services[service.id] == Saved(store.dialect, service)
    requires NeedsRecreate(next, store.services[service.id], replacement)
    requires ApplyDiff(store, DiffOf(next, listing), place, kept).1 == NoTarget(replacement.name)
    requires SameRows(ApplyDiff(store, DiffOf(next, listing), place, kept).0, seen) && IsListing(relisting, seen)
    requires ApplyDiff(seen, DiffOf(current, relisting), place', kept').1 == Done
    ensures var final := ApplyDiff(seen, DiffOf(current, relisting), place', kept').0;
            && service.id in final.services && final.services[service.id] == Saved(store.dialect, service)
            && HoldsReplicas(final.instances, service.id,
                             if store.dialect == Sqlite then 0 else service.desiredReplicas)
  {
    var mid := AbortedTables(catalog, store, sum, next, listing, place, kept, seen, replacement);
    RolledBack(catalog, mid, current, seen, relisting, place', kept', service);
  }

  // ---- any number of aborts ---------------------------------------------------------------

  function EndFrom(store: Store, attempts: seq<Attempt>): Store {
    if attempts == [] then store else attempts[|attempts| - 1].after
  }

  /** Attempts at one manifest, made one after another from `store`, all of which stopped early. */
  ghost predicate AbortedAttempts(catalog: Catalog, store: Store, manifest: Manifest, attempts: seq<Attempt>) {
    attempts == [] ||
    var rest, last := attempts[..|attempts| - 1], attempts[|attempts| - 1];
    && AbortedAttempts(catalog, store, manifest, rest)
    && Made(catalog, EndFrom(store, rest), last)
    && last.manifest == manifest && last.outcome != Done
  }

  lemma {:induction false} AbortsKeepGoal(
    catalog: Catalog, store: Store, sum: Summary, manifest: Manifest, attempts: seq<Attempt>) returns (mid: Summary)
    requires Sound(catalog, sum) && Represents(store, sum) && Admissible(catalog, manifest)
    requires AbortedAttempts(catalog, store, manifest, attempts)
    ensures Sound(catalog, mid) && Represents(EndFrom(store, attempts), mid)
    ensures GoalKept(manifest, sum, mid)
    decreases |attempts|
  {
    if attempts == [] {
      mid := sum;
    } else {
      var rest, last := attempts[..|attempts| - 1], attempts[|attempts| - 1];
      var before := AbortsKeepGoal(catalog, store, sum, manifest, rest);
      AttemptStep(catalog, EndFrom(store, rest), before, last);
      mid := Reconcile(before, manifest, last.place, last.kept).0;
      AbortKeepsGoal(catalog, before, manifest, last.place, last.kept);
      GoalKeptChains(manifest, sum, before, mid);
    }
  }

  /**
   * Recovery from any number of aborts: however often an apply of one manifest stops early, with agents
   * reporting whatever they like in between, applying it again where an uninterrupted apply would have
   * finished does finish, and leaves the same services, volumes, instance ids and images.
   */
  lemma RecoveryFromAnyAborts(
    catalog: Catalog, store: Store, sum: Summary, manifest: Manifest, listing: Listing, aborts: seq<Attempt>,
    seen: Store, relisting: Listing, place: Placement, kept: set<string>)
    requires Ready(catalog, store, sum, manifest, listing)
    requires AbortedAttempts(catalog, store, manifest, aborts)
    requires SameRows(EndFrom(store, aborts), seen) && IsListing(relisting, seen)
    requires ApplyDiff(store, DiffOf(manifest, listing), place, kept).1 == Done
    ensures ApplyDiff(seen, DiffOf(manifest, relisting), place, kept).1 == Done
    ensures SameRows(ApplyDiff(seen, DiffOf(manifest, relisting), place, kept).0,
                     ApplyDiff(store, DiffOf(manifest, listing), place, kept).0)
  {
    var mid := AbortsKeepGoal(catalog, store, sum, manifest, aborts);
    ApplyRefines(catalog, store, sum, manifest, listing, place, kept);
    GoalReached(catalog, sum, mid, manifest, place, kept);
    DriftRepresents(EndFrom(store, aborts), seen, mid);
    ApplyRefines(catalog, seen, mid, manifest, relisting, place, kept);
    RepresentedAlike(ApplyDiff(seen, DiffOf(manifest, relisting), place, kept).0,
                     ApplyDiff(store, DiffOf(manifest, listing), place, kept).0,
                     Reconcile(sum, manifest, place, kept).0);
  }
}
