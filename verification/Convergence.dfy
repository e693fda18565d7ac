/** What whole runs of applies, finished or aborted, leave in the store. */
module Convergence {
  import opened Sequences
  import opened Json
  import opened Cluster
  import opened Planner
  import opened Apply
  import opened Reconciliation
  import opened Refinement

  // ---- one apply, in closed form ----------------------------------------------------------

  /** The summary after taking every listed service to its desired row and count. */
  function Served(sum: Summary, rows: seq<Service>): (r: Summary)
    ensures r.volumes == sum.volumes && r.dialect == sum.dialect
    ensures forall id :: id in r.services <==> id in sum.services || exists s :: s in rows && s.id == id
    ensures forall id :: id in r.have <==> id in sum.have || exists s :: s in rows && s.id == id
    decreases |rows|
  {
    if rows == [] then sum
    else Served(WithServed(sum, rows[0]), rows[1..])
  }

  lemma {:induction false} ServedUnlisted(sum: Summary, rows: seq<Service>, id: string)
    requires forall s :: s in rows ==> s.id != id
    ensures id in Served(sum, rows).services <==> id in sum.services
    ensures id in Served(sum, rows).have <==> id in sum.have
    ensures id in sum.services ==> Served(sum, rows).services[id] == sum.services[id]
    ensures id in sum.have ==> Served(sum, rows).have[id] == sum.have[id]
    decreases |rows|
  {
    if rows != [] {
      ServedUnlisted(WithServed(sum, rows[0]), rows[1..], id);
    }
  }

  lemma {:induction false} ServedListed(sum: Summary, rows: seq<Service>, s: Service)
    requires DistinctIds(rows) && s in rows
    ensures s.id in Served(sum, rows).services && Served(sum, rows).services[s.id] == Saved(sum.dialect, s)
    ensures s.id in Served(sum, rows).have && Served(sum, rows).have[s.id] == s.desiredReplicas
    decreases |rows|
  {
    var sum' := WithServed(sum, rows[0]);
    if s == rows[0] {
      ServedUnlisted(sum', rows[1..], s.id);
    } else {
      ServedListed(sum', rows[1..], s);
    }
  }

  lemma ServedElsewhere(sum: Summary, todo: seq<Service>, place: Placement)
    requires todo != [] && DistinctIds(todo)
    ensures forall t :: t in todo[1..] ==>
              (Placeable(WithServed(sum, todo[0]).have, t, place) <==> Placeable(sum.have, t, place))
  {
    forall t | t in todo[1..]
      ensures Placeable(WithServed(sum, todo[0]).have, t, place) <==> Placeable(sum.have, t, place)
    {
      assert t.id != todo[0].id;
    }
  }

  /** The serving loop stops at the first service without a target and has served exactly those before it. */
  lemma {:induction false} ServeStops(sum: Summary, todo: seq<Service>, place: Placement) returns (k: nat)
    requires DistinctIds(todo)
    ensures k <= |todo|
    ensures forall s :: s in todo[..k] ==> Placeable(sum.have, s, place)
    ensures ServeSummary(sum, todo, place) ==
            (Served(sum, todo[..k]), if k == |todo| then Done else NoTarget(todo[k].name))
    ensures k < |todo| ==> !Placeable(sum.have, todo[k], place)
    decreases |todo|
  {
    if todo == [] || !Placeable(sum.have, todo[0], place) {
      k := 0;
    } else {
      var s := todo[0];
      ServedElsewhere(sum, todo, place);
      var j := ServeStops(WithServed(sum, s), todo[1..], place);
      k := j + 1;
      var rest, taken := todo[1..], todo[1..][..j];
      assert todo[..k] == [s] + taken && ([s] + taken)[1..] == taken;
      assert Served(sum, todo[..k]) == Served(WithServed(sum, s), taken);
      assert ServeSummary(sum, todo, place) == ServeSummary(WithServed(sum, s), rest, place);
      forall t | t in todo[..k] ensures Placeable(sum.have, t, place) {
        assert t == s || (t in taken && t in rest);
      }
      if j < |rest| {
        assert todo[k] == rest[j] && rest[j] in rest;
      }
    }
  }

  /** A desired service whose stored row is absent or differs. */
  predicate Changed(manifest: Manifest, services: map<string, Service>, s: Service) {
    s.id !in services || NeedsUpdate(manifest, services[s.id], s)
  }

  lemma TodoMember(manifest: Manifest, services: map<string, Service>, s: Service)
    requires manifest.WellFormed()
    ensures s in Todo(manifest, services) <==> s in DesiredServices(manifest) && Changed(manifest, services, s)
  {
    TodoDistinct(manifest, services);
  }

  function FindById(rows: seq<Service>, id: string): (r: Option<Service>)
    ensures r.Some? ==> r.value in rows && r.value.id == id
    ensures r.None? ==> forall s :: s in rows ==> s.id != id
  {
    if rows == [] then None
    else if rows[0].id == id then Some(rows[0])
    else FindById(rows[1..], id)
  }

  /** The service the manifest declares under an id. */
  function Declared(manifest: Manifest, id: string): Option<Service>
    requires manifest.WellFormed()
  {
    FindById(DesiredServices(manifest), id)
  }

  lemma DeclaredMember(manifest: Manifest, s: Service)
    requires manifest.WellFormed()
    ensures s in DesiredServices(manifest) <==> Declared(manifest, s.id) == Some(s)
  {
    var found := Declared(manifest, s.id);
    if s in DesiredServices(manifest) && found.Some? {
      DesiredMember(manifest, s);
      DesiredMember(manifest, found.value);
      SameIdSameName(manifest, s.name, found.value.name);
    }
  }

  /** The row stored under a desired id is one of the manifest's own. */
  lemma DeclaredRow(catalog: Catalog, sum: Summary, manifest: Manifest, s: Service)
    requires Sound(catalog, sum) && Admissible(catalog, manifest)
    requires s in DesiredServices(manifest) && s.id in sum.services
    ensures sum.services[s.id].manifestName == manifest.name && sum.services[s.id].name == s.name
    ensures s.name in manifest.services && s == DesiredService(manifest, s.name)
    ensures !NeedsUpdate(manifest, sum.services[s.id], s) <==> sum.services[s.id] == s
  {
    DesiredMember(manifest, s);
    var row := sum.services[s.id];
    OwnedIds(catalog, row.manifestName, row.name, manifest.name, s.name);
  }

  lemma DroppedIsUndeclared(catalog: Catalog, sum: Summary, manifest: Manifest, id: string)
    requires Sound(catalog, sum) && Admissible(catalog, manifest)
    requires id in sum.services
    ensures id in DroppedIds(manifest, sum.services) <==>
            sum.services[id].manifestName == manifest.name && Declared(manifest, id).None?
    ensures Declared(manifest, id).Some? ==> sum.services[id].manifestName == manifest.name
  {
    var row := sum.services[id];
    if row.manifestName == manifest.name && row.name in manifest.services {
      DesiredMember(manifest, DesiredService(manifest, row.name));
    }
    if Declared(manifest, id).Some? {
      DeclaredRow(catalog, sum, manifest, Declared(manifest, id).value);
    }
  }

  /** How many replicas a declared service has once an apply has finished. */
  function CountAfter(manifest: Manifest, sum: Summary, s: Service): nat {
    if Changed(manifest, sum.services, s) then s.desiredReplicas else HaveOf(sum.have, s.id)
  }

  function At(sum: Summary, id: string): Option<(Service, nat)> {
    if id in sum.services && id in sum.have then Some((sum.services[id], sum.have[id])) else None
  }

  /** What a finished apply leaves under an id: the desired row, or another manifest's untouched row. */
  function ExpectedAt(manifest: Manifest, before: Summary, id: string): Option<(Service, nat)>
    requires manifest.WellFormed()
  {
    var declared := Declared(manifest, id);
    if declared.Some? then Some((Saved(before.dialect, declared.value), CountAfter(manifest, before, declared.value)))
    else if id in before.services && before.services[id].manifestName != manifest.name then At(before, id)
    else None
  }

  ghost predicate Reconciled(manifest: Manifest, before: Summary, after: Summary)
    requires manifest.WellFormed()
  {
    && after.dialect == before.dialect
    && after.have.Keys == after.services.Keys
    && (forall id :: At(after, id) == ExpectedAt(manifest, before, id))
  }

  lemma SummaryByRows(a: Summary, b: Summary)
    requires a.have.Keys == a.services.Keys && b.have.Keys == b.services.Keys
    requires forall id :: At(a, id) == At(b, id)
    ensures a.services == b.services && a.have == b.have
  {
    assert forall id :: id in a.services <==> At(a, id).Some?;
    assert forall id :: id in b.services <==> At(b, id).Some?;
    forall id | id in a.services
      ensures a.services[id] == b.services[id] && a.have[id] == b.have[id]
    {
      assert At(a, id) == At(b, id);
    }
  }

  lemma ServedChanged(catalog: Catalog, sum: Summary, manifest: Manifest, id: string)
    requires Sound(catalog, sum) && Admissible(catalog, manifest)
    requires Declared(manifest, id).Some?
    ensures At(Served(sum.(have := Retained(manifest, sum)), Todo(manifest, sum.services)), id)
            == ExpectedAt(manifest, sum, id)
  {
    var todo, sum1 := Todo(manifest, sum.services), sum.(have := Retained(manifest, sum));
    var s := Declared(manifest, id).value;
    TodoDistinct(manifest, sum.services);
    TodoMember(manifest, sum.services, s);
    if s in todo {
      ServedListed(sum1, todo, s);
    } else {
      forall t | t in todo ensures t.id != id {
        TodoMember(manifest, sum.services, t);
        DeclaredMember(manifest, t);
      }
      ServedUnlisted(sum1, todo, id);
      DeclaredRow(catalog, sum, manifest, s);
    }
  }

  lemma ServedOthers(manifest: Manifest, sum: Summary, id: string)
    requires manifest.WellFormed() && sum.have.Keys == sum.services.Keys
    requires Declared(manifest, id).None?
    ensures At(Served(sum.(have := Retained(manifest, sum)), Todo(manifest, sum.services)), id)
            == At(sum.(have := Retained(manifest, sum)), id)
  {
    var todo := Todo(manifest, sum.services);
    forall t | t in todo ensures t.id != id {
      TodoMember(manifest, sum.services, t);
    }
    ServedUnlisted(sum.(have := Retained(manifest, sum)), todo, id);
  }

  lemma FinishedAt(
    catalog: Catalog, sum: Summary, manifest: Manifest, served: Summary, after: Summary, id: string)
    requires Sound(catalog, sum) && Admissible(catalog, manifest)
    requires served == Served(sum.(have := Retained(manifest, sum)), Todo(manifest, sum.services))
    requires after.services == served.services - DroppedIds(manifest, sum.services)
    requires after.have == served.have - DroppedIds(manifest, sum.services)
    ensures At(after, id) == ExpectedAt(manifest, sum, id)
  {
    if id in sum.services {
      DroppedIsUndeclared(catalog, sum, manifest, id);
    }
    assert At(after, id) == if id in DroppedIds(manifest, sum.services) then None else At(served, id);
    if Declared(manifest, id).Some? {
      ServedChanged(catalog, sum, manifest, id);
    } else {
      ServedOthers(manifest, sum, id);
    }
  }

  lemma FinishedSummary(catalog: Catalog, sum: Summary, manifest: Manifest, place: Placement, kept: set<string>)
    requires Sound(catalog, sum) && Admissible(catalog, manifest)
    requires ServeSummary(sum.(have := Retained(manifest, sum)), Todo(manifest, sum.services), place)
             == (Served(sum.(have := Retained(manifest, sum)), Todo(manifest, sum.services)), Done)
    ensures Reconciled(manifest, sum, Reconcile(sum, manifest, place, kept).0)
  {
    var served := Served(sum.(have := Retained(manifest, sum)), Todo(manifest, sum.services));
    var after := Reconcile(sum, manifest, place, kept).0;
    SameKeys(sum.(have := Retained(manifest, sum)), Todo(manifest, sum.services));
    forall id ensures At(after, id) == ExpectedAt(manifest, sum, id) {
      FinishedAt(catalog, sum, manifest, served, after, id);
    }
  }

  lemma SameKeys(sum: Summary, rows: seq<Service>)
    requires sum.have.Keys == sum.services.Keys
    ensures Served(sum, rows).have.Keys == Served(sum, rows).services.Keys
  {
    forall id ensures id in Served(sum, rows).have <==> id in Served(sum, rows).services {
    }
  }

  /** Every changed service finds nodes for the replicas it lacks after the retiring. */
  ghost predicate AllPlaceable(manifest: Manifest, sum: Summary, place: Placement)
    requires manifest.WellFormed() && sum.have.Keys == sum.services.Keys
  {
    forall s :: s in DesiredServices(manifest) && Changed(manifest, sum.services, s) ==>
      Placeable(Retained(manifest, sum), s, place)
  }

  /** A finished apply reconciles; it finishes exactly when every changed service can be placed. */
  lemma FinishedApply(catalog: Catalog, sum: Summary, manifest: Manifest, place: Placement, kept: set<string>)
    requires Sound(catalog, sum) && Admissible(catalog, manifest)
    ensures Reconcile(sum, manifest, place, kept).1 == Done <==> AllPlaceable(manifest, sum, place)
    ensures Reconcile(sum, manifest, place, kept).1 == Done ==>
              Reconciled(manifest, sum, Reconcile(sum, manifest, place, kept).0)
  {
    var todo, sum1 := Todo(manifest, sum.services), sum.(have := Retained(manifest, sum));
    TodoDistinct(manifest, sum.services);
    var k := ServeStops(sum1, todo, place);
    forall s ensures s in todo <==> s in DesiredServices(manifest) && Changed(manifest, sum.services, s) {
      TodoMember(manifest, sum.services, s);
    }
    if k < |todo| {
      assert todo[k] in todo;
    } else {
      assert todo[..k] == todo;
      FinishedSummary(catalog, sum, manifest, place, kept);
    }
  }

  // ---- aborted applies --------------------------------------------------------------------

  lemma RetainedTwice(manifest: Manifest, row: Service, count: nat)
    ensures RetainedCount(manifest, row, RetainedCount(manifest, row, count)) == RetainedCount(manifest, row, count)
  {
  }

  /** A desired row that reads back as it was written. */
  predicate Stable(dialect: Dialect, s: Service) {
    Saved(dialect, s) == s
  }

  /** A desired row that does not is recreated over any stored row: no stored row can equal it. */
  lemma UnstableRecreates(manifest: Manifest, dialect: Dialect, row: Service, s: Service)
    requires manifest.WellFormed() && s in DesiredServices(manifest)
    requires Saved(dialect, row) == row && !Stable(dialect, s)
    ensures NeedsRecreate(manifest, row, s)
  {
    DesiredMember(manifest, s);
  }

  lemma UnstableRetainsNone(manifest: Manifest, dialect: Dialect, row: Service, s: Service, count: nat)
    requires manifest.WellFormed() && s in DesiredServices(manifest)
    requires Saved(dialect, row) == row && !Stable(dialect, s)
    requires row.manifestName == manifest.name && row.name == s.name
    ensures RetainedCount(manifest, row, count) == 0
  {
    DesiredMember(manifest, s);
    UnstableRecreates(manifest, dialect, row, s);
  }

  /** A declared service the abort still served is done, unless it does not read back as written. */
  lemma PrefixDone(sum: Summary, manifest: Manifest, done: seq<Service>, mid: Summary, s: Service)
    requires manifest.WellFormed() && DistinctIds(done)
    requires mid == Served(sum, done) && s in done && s in DesiredServices(manifest)
    ensures s.id in mid.services && s.id in mid.have
    ensures mid.services[s.id] == Saved(sum.dialect, s) && mid.have[s.id] == s.desiredReplicas
    ensures Changed(manifest, mid.services, s) <==> !Stable(sum.dialect, s)
    ensures RetainedCount(manifest, mid.services[s.id], mid.have[s.id]) ==
            if Stable(sum.dialect, s) then s.desiredReplicas else 0
  {
    DesiredMember(manifest, s);
    ServedListed(sum, done, s);
    SavedTwice(sum.dialect, s);
    if !Stable(sum.dialect, s) {
      UnstableRetainsNone(manifest, sum.dialect, Saved(sum.dialect, s), s, s.desiredReplicas);
    }
  }

  /** A declared service the abort did not serve keeps its row and what it retained. */
  lemma PrefixUntouched(sum: Summary, manifest: Manifest, done: seq<Service>, mid: Summary, s: Service)
    requires manifest.WellFormed() && sum.have.Keys == sum.services.Keys
    requires mid == Served(sum, done) && s in DesiredServices(manifest) && s !in done
    requires forall t :: t in done ==> t in DesiredServices(manifest)
    ensures s.id in mid.services <==> s.id in sum.services
    ensures s.id in mid.have <==> s.id in sum.have
    ensures s.id in sum.services ==> mid.services[s.id] == sum.services[s.id] && mid.have[s.id] == sum.have[s.id]
    ensures Changed(manifest, mid.services, s) <==> Changed(manifest, sum.services, s)
  {
    forall t | t in done ensures t.id != s.id {
      DeclaredMember(manifest, s);
      DeclaredMember(manifest, t);
    }
    ServedUnlisted(sum, done, s.id);
  }

  /** A service that needs no update retains all it has, up to its desired number. */
  lemma UnchangedRetains(manifest: Manifest, row: Service, s: Service, count: nat)
    requires manifest.WellFormed() && s in DesiredServices(manifest)
    requires row.manifestName == manifest.name && row.name == s.name && count <= row.desiredReplicas
    requires !NeedsUpdate(manifest, row, s)
    ensures RetainedCount(manifest, row, count) == count
  {
    DesiredMember(manifest, s);
  }

  /** What is still to do for a service whose row and retained number are as they were. */
  lemma StillPending(catalog: Catalog, sum: Summary, manifest: Manifest, mid: Summary, s: Service)
    requires Sound(catalog, sum) && Admissible(catalog, manifest)
    requires mid.have.Keys == mid.services.Keys && s in DesiredServices(manifest)
    requires s.id in mid.services <==> s.id in sum.services
    requires s.id in sum.services ==>
               && mid.services[s.id] == sum.services[s.id]
               && mid.have[s.id] == RetainedCount(manifest, sum.services[s.id], sum.have[s.id])
    ensures HaveOf(Retained(manifest, mid), s.id) == HaveOf(Retained(manifest, sum), s.id)
    ensures CountAfter(manifest, mid, s) == CountAfter(manifest, sum, s)
  {
    if s.id in sum.services {
      DeclaredRow(catalog, sum, manifest, s);
      RetainedTwice(manifest, sum.services[s.id], sum.have[s.id]);
      if !NeedsUpdate(manifest, sum.services[s.id], s) {
        UnchangedRetains(manifest, sum.services[s.id], s, sum.have[s.id]);
      }
    }
  }

  /** Services an apply may have served before it stopped. */
  ghost predicate Attempted(manifest: Manifest, sum: Summary, done: seq<Service>)
    requires manifest.WellFormed()
  {
    && DistinctIds(done)
    && (forall t :: t in done ==> t in DesiredServices(manifest) && Changed(manifest, sum.services, t))
  }

  /** The summary after those, behind the retiring. */
  function Midway(manifest: Manifest, sum: Summary, done: seq<Service>): (mid: Summary)
    requires sum.have.Keys == sum.services.Keys
    ensures mid.have.Keys == mid.services.Keys && mid.dialect == sum.dialect
  {
    SameKeys(sum.(have := Retained(manifest, sum)), done);
    Served(sum.(have := Retained(manifest, sum)), done)
  }

  lemma TodoIsAttempted(sum: Summary, manifest: Manifest, k: nat)
    requires manifest.WellFormed() && k <= |Todo(manifest, sum.services)|
    ensures Attempted(manifest, sum, Todo(manifest, sum.services)[..k])
  {
    TodoDistinct(manifest, sum.services);
    forall t | t in Todo(manifest, sum.services)[..k]
      ensures t in DesiredServices(manifest) && Changed(manifest, sum.services, t)
    {
      TodoMember(manifest, sum.services, t);
    }
  }

  /** After an abort behind any served services, what the manifest still has to do is unchanged. */
  lemma PrefixServed(catalog: Catalog, sum: Summary, manifest: Manifest, done: seq<Service>, s: Service)
    requires Sound(catalog, sum) && Admissible(catalog, manifest)
    requires Attempted(manifest, sum, done) && s in DesiredServices(manifest)
    ensures var mid := Midway(manifest, sum, done);
            && CountAfter(manifest, mid, s) == CountAfter(manifest, sum, s)
            && (Changed(manifest, mid.services, s) ==>
                  && Changed(manifest, sum.services, s)
                  && HaveOf(Retained(manifest, mid), s.id) == HaveOf(Retained(manifest, sum), s.id))
  {
    var sum1, mid := sum.(have := Retained(manifest, sum)), Midway(manifest, sum, done);
    if s in done {
      PrefixDone(sum1, manifest, done, mid, s);
      if !Stable(sum.dialect, s) && s.id in sum.services {
        DeclaredRow(catalog, sum, manifest, s);
        UnstableRetainsNone(manifest, sum.dialect, sum.services[s.id], s, sum.have[s.id]);
      }
    } else {
      PrefixUntouched(sum1, manifest, done, mid, s);
      StillPending(catalog, sum, manifest, mid, s);
    }
  }

  lemma PrefixOthers(sum: Summary, manifest: Manifest, done: seq<Service>, id: string)
    requires sum.have.Keys == sum.services.Keys && manifest.WellFormed()
    requires Attempted(manifest, sum, done) && Declared(manifest, id).None?
    ensures At(Midway(manifest, sum, done), id) == At(sum.(have := Retained(manifest, sum)), id)
  {
    ServedUnlisted(sum.(have := Retained(manifest, sum)), done, id);
  }

  /** Every service still changed at `mid` was changed at `sum` and lacks the same replicas. */
  ghost predicate NoMoreWork(manifest: Manifest, sum: Summary, mid: Summary)
    requires manifest.WellFormed() && sum.have.Keys == sum.services.Keys && mid.have.Keys == mid.services.Keys
  {
    forall s :: s in DesiredServices(manifest) && Changed(manifest, mid.services, s) ==>
      && Changed(manifest, sum.services, s)
      && HaveOf(Retained(manifest, mid), s.id) == HaveOf(Retained(manifest, sum), s.id)
  }

  /** What an abort leaves unchanged of the way to the manifest's goal. */
  ghost predicate GoalKept(manifest: Manifest, sum: Summary, mid: Summary)
    requires manifest.WellFormed() && sum.have.Keys == sum.services.Keys
  {
    && mid.have.Keys == mid.services.Keys
    && mid.volumes == sum.volumes && mid.dialect == sum.dialect
    && NoMoreWork(manifest, sum, mid)
    && SameExpectation(manifest, mid, sum)
  }

  lemma GoalKeptChains(manifest: Manifest, a: Summary, b: Summary, c: Summary)
    requires manifest.WellFormed() && a.have.Keys == a.services.Keys
    requires GoalKept(manifest, a, b) && GoalKept(manifest, b, c)
    ensures GoalKept(manifest, a, c)
  {
    forall id ensures ExpectedAt(manifest, c, id) == ExpectedAt(manifest, a, id) {
      assert ExpectedAt(manifest, c, id) == ExpectedAt(manifest, b, id);
    }
  }

  ghost predicate SameExpectation(manifest: Manifest, a: Summary, b: Summary)
    requires manifest.WellFormed()
  {
    forall id :: ExpectedAt(manifest, a, id) == ExpectedAt(manifest, b, id)
  }

  lemma SamePlaceable(a: map<string, nat>, b: map<string, nat>, s: Service, place: Placement)
    requires HaveOf(a, s.id) == HaveOf(b, s.id) && Placeable(a, s, place)
    ensures Placeable(b, s, place)
  {
  }

  lemma SameGoalPlaceable(manifest: Manifest, sum: Summary, mid: Summary, place: Placement)
    requires manifest.WellFormed() && sum.have.Keys == sum.services.Keys && mid.have.Keys == mid.services.Keys
    requires NoMoreWork(manifest, sum, mid) && AllPlaceable(manifest, sum, place)
    ensures AllPlaceable(manifest, mid, place)
  {
    forall s | s in DesiredServices(manifest) && Changed(manifest, mid.services, s)
      ensures Placeable(Retained(manifest, mid), s, place)
    {
      SamePlaceable(Retained(manifest, sum), Retained(manifest, mid), s, place);
    }
  }

  /** An aborted apply has served a part of its work list, stopped at the next service and changed no volume. */
  lemma AbortedAt(sum: Summary, manifest: Manifest, place: Placement, kept: set<string>)
    returns (done: seq<Service>, next: Service)
    requires manifest.WellFormed() && sum.have.Keys == sum.services.Keys
    requires Reconcile(sum, manifest, place, kept).1 != Done
    ensures Attempted(manifest, sum, done)
    ensures Reconcile(sum, manifest, place, kept) == (Midway(manifest, sum, done), NoTarget(next.name))
    ensures next in DesiredServices(manifest) && forall t :: t in done ==> t.id != next.id
    ensures Reconcile(sum, manifest, place, kept).0.volumes == sum.volumes
    ensures Reconcile(sum, manifest, place, kept).0.dialect == sum.dialect
  {
    var todo := Todo(manifest, sum.services);
    TodoDistinct(manifest, sum.services);
    var k := ServeStops(sum.(have := Retained(manifest, sum)), todo, place);
    TodoIsAttempted(sum, manifest, k);
    done, next := todo[..k], todo[k];
    TodoMember(manifest, sum.services, next);
  }

  lemma PrefixKeepsGoal(catalog: Catalog, sum: Summary, manifest: Manifest, done: seq<Service>)
    requires Sound(catalog, sum) && Admissible(catalog, manifest) && Attempted(manifest, sum, done)
    ensures NoMoreWork(manifest, sum, Midway(manifest, sum, done))
  {
    var mid := Midway(manifest, sum, done);
    forall s | s in DesiredServices(manifest)
      ensures Changed(manifest, mid.services, s) ==>
                && Changed(manifest, sum.services, s)
                && HaveOf(Retained(manifest, mid), s.id) == HaveOf(Retained(manifest, sum), s.id)
    {
      PrefixServed(catalog, sum, manifest, done, s);
    }
  }

  lemma PrefixExpects(catalog: Catalog, sum: Summary, manifest: Manifest, done: seq<Service>, id: string)
    requires Sound(catalog, sum) && Admissible(catalog, manifest) && Attempted(manifest, sum, done)
    ensures ExpectedAt(manifest, Midway(manifest, sum, done), id) == ExpectedAt(manifest, sum, id)
  {
    if Declared(manifest, id).None? {
      PrefixOthers(sum, manifest, done, id);
      OthersExpected(manifest, sum, Midway(manifest, sum, done), id);
    } else {
      PrefixServed(catalog, sum, manifest, done, Declared(manifest, id).value);
    }
  }

  lemma OthersExpected(manifest: Manifest, sum: Summary, mid: Summary, id: string)
    requires manifest.WellFormed() && sum.have.Keys == sum.services.Keys && mid.have.Keys == mid.services.Keys
    requires mid.dialect == sum.dialect
    requires Declared(manifest, id).None? && At(mid, id) == At(sum.(have := Retained(manifest, sum)), id)
    ensures ExpectedAt(manifest, mid, id) == ExpectedAt(manifest, sum, id)
  {
  }

  /** An aborted apply leaves a state from which the same manifest expects the same result. */
  lemma AbortKeepsGoal(catalog: Catalog, sum: Summary, manifest: Manifest, place: Placement, kept: set<string>)
    requires Sound(catalog, sum) && Admissible(catalog, manifest)
    requires Reconcile(sum, manifest, place, kept).1 != Done
    ensures GoalKept(manifest, sum, Reconcile(sum, manifest, place, kept).0)
  {
    var mid := Reconcile(sum, manifest, place, kept).0;
    var done, _ := AbortedAt(sum, manifest, place, kept);
    PrefixKeepsGoal(catalog, sum, manifest, done);
    forall id ensures ExpectedAt(manifest, mid, id) == ExpectedAt(manifest, sum, id) {
      PrefixExpects(catalog, sum, manifest, done, id);
    }
  }

  /** Instance rows equal up to the node and status an agent may change. */
  ghost predicate SameInstances(a: map<string, Instance>, b: map<string, Instance>) {
    && a.Keys == b.Keys
    && (forall id :: id in a ==> a[id] == b[id].(nodeId := a[id].nodeId, status := a[id].status))
  }

  /** The same services, volumes and instance rows. */
  ghost predicate SameRows(a: Store, b: Store) {
    && a.dialect == b.dialect
    && a.services == b.services
    && a.volumes == b.volumes
    && SameInstances(a.instances, b.instances)
  }

  /** Two sets of tables whose summaries count the same replicas have the same instances. */
  lemma SameCountsSameInstances(a: Store, sa: Summary, b: Store, sb: Summary)
    requires Represents(a, sa) && Represents(b, sb)
    requires sa.services == sb.services && sa.have == sb.have
    ensures SameInstances(a.instances, b.instances)
  {
    forall id | id in a.instances
      ensures id in b.instances && b.instances[id].serviceId == a.instances[id].serviceId
    {
      assert InstanceRowOk(sa, id, a.instances[id]);
    }
    forall id | id in b.instances
      ensures id in a.instances
    {
      assert InstanceRowOk(sb, id, b.instances[id]);
    }
  }

  lemma RepresentedAlike(a: Store, b: Store, sum: Summary)
    requires Represents(a, sum) && Represents(b, sum)
    ensures SameRows(a, b)
  {
    SameCountsSameInstances(a, sum, b, sum);
  }

  lemma DriftRepresents(store: Store, seen: Store, sum: Summary)
    requires Represents(store, sum) && SameRows(store, seen)
    ensures Represents(seen, sum)
  {
    forall id | id in seen.instances
      ensures InstanceRowOk(sum, id, seen.instances[id])
    {
      assert InstanceRowOk(sum, id, store.instances[id]);
    }
  }

  lemma FinishedAlike(catalog: Catalog, a: Summary, b: Summary, manifest: Manifest, place: Placement, kept: set<string>)
    requires Sound(catalog, a) && Sound(catalog, b) && Admissible(catalog, manifest)
    requires Reconcile(a, manifest, place, kept).1 == Done && Reconcile(b, manifest, place, kept).1 == Done
    requires SameExpectation(manifest, a, b)
    requires a.volumes == b.volumes && a.dialect == b.dialect
    ensures Reconcile(a, manifest, place, kept) == Reconcile(b, manifest, place, kept)
  {
    var a', b' := Reconcile(a, manifest, place, kept).0, Reconcile(b, manifest, place, kept).0;
    FinishedApply(catalog, a, manifest, place, kept);
    FinishedApply(catalog, b, manifest, place, kept);
    forall id ensures At(a', id) == At(b', id) {
      assert At(a', id) == ExpectedAt(manifest, a, id);
      assert At(b', id) == ExpectedAt(manifest, b, id);
    }
    SummaryByRows(a', b');
  }

  /** Where the goal is kept, an apply that would have finished finishes alike. */
  lemma GoalReached(
    catalog: Catalog, sum: Summary, mid: Summary, manifest: Manifest, place: Placement, kept: set<string>)
    requires Sound(catalog, sum) && Sound(catalog, mid) && Admissible(catalog, manifest)
    requires GoalKept(manifest, sum, mid)
    requires Reconcile(sum, manifest, place, kept).1 == Done
    ensures Reconcile(mid, manifest, place, kept) == Reconcile(sum, manifest, place, kept)
  {
    FinishedApply(catalog, sum, manifest, place, kept);
    SameGoalPlaceable(manifest, sum, mid, place);
    FinishedApply(catalog, mid, manifest, place, kept);
    FinishedAlike(catalog, mid, sum, manifest, place, kept);
  }

  /**
   * Recovery. If an apply stops for want of a target, agents then report whatever they like, and the
   * same manifest is applied again where an uninterrupted apply would have finished, the retry finishes
   * and leaves the same services, volumes, instance ids and images as the uninterrupted apply.
   */
  lemma Recovery(
    catalog: Catalog, store: Store, sum: Summary, manifest: Manifest, listing: Listing,
    place: Placement, kept: set<string>,
    seen: Store, relisting: Listing, place': Placement, kept': set<string>)
    requires Ready(catalog, store, sum, manifest, listing)
    requires ApplyDiff(store, DiffOf(manifest, listing), place, kept).1 != Done
    requires SameRows(ApplyDiff(store, DiffOf(manifest, listing), place, kept).0, seen)
    requires IsListing(relisting, seen)
    requires ApplyDiff(store, DiffOf(manifest, listing), place', kept').1 == Done
    ensures ApplyDiff(seen, DiffOf(manifest, relisting), place', kept').1 == Done
    ensures SameRows(ApplyDiff(seen, DiffOf(manifest, relisting), place', kept').0,
                     ApplyDiff(store, DiffOf(manifest, listing), place', kept').0)
  {
    var mid := Reconcile(sum, manifest, place, kept).0;
    var done := Reconcile(sum, manifest, place', kept').0;
    ApplyRefines(catalog, store, sum, manifest, listing, place, kept);
    ApplyRefines(catalog, store, sum, manifest, listing, place', kept');
    AbortKeepsGoal(catalog, sum, manifest, place, kept);
    GoalReached(catalog, sum, mid, manifest, place', kept');
    DriftRepresents(ApplyDiff(store, DiffOf(manifest, listing), place, kept).0, seen, mid);
    ApplyRefines(catalog, seen, mid, manifest, relisting, place', kept');
    RepresentedAlike(ApplyDiff(seen, DiffOf(manifest, relisting), place', kept').0,
                     ApplyDiff(store, DiffOf(manifest, listing), place', kept').0, done);
  }
}
