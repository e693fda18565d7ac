/** Small clusters in which an aborted apply has the lasting effects the general results allow. */
module Witness {
  import opened Sequences
  import opened Naming
  import opened Json
  import opened Cluster
  import opened Planner
  import opened Apply
  import opened Reconciliation
  import opened Refinement
  import opened Convergence
  import opened Runs
  import opened Replay
  import opened Aborted

  // ---- listings and placements always exist --------------------------------------------------

  lemma {:induction false} Listed<R(!new)>(table: map<string, R>, key: R -> string) returns (rows: seq<R>)
    requires forall id :: id in table ==> key(table[id]) == id
    ensures Lists(rows, table, key)
    decreases |table|
  {
    if table == map[] {
      rows := [];
    } else {
      var k :| k in table;
      var rest := Listed(table - {k}, key);
      ListsSnoc(rest, table - {k}, key, table[k]);
      assert (table - {k})[k := table[k]] == table;
      rows := rest + [table[k]];
    }
  }

  lemma ListingOf(catalog: Catalog, store: Store, sum: Summary) returns (listing: Listing)
    requires Sound(catalog, sum) && Represents(store, sum)
    ensures IsListing(listing, store)
  {
    var services := Listed(store.services, (s: Service) => s.id);
    var instances := Listed(store.instances, (i: Instance) => i.id);
    var volumes := Listed(store.volumes, (v: Volume) => v.id);
    listing := Listing(services, instances, volumes);
  }

  /** Every replica finds a node. */
  function Anywhere(): Placement {
    (serviceId: string, count: nat) => seq(count, _ => "node")
  }

  /** No replica finds one. */
  function Nowhere(): Placement {
    (serviceId: string, count: nat) => []
  }

  lemma AnywhereFinishes(catalog: Catalog, sum: Summary, manifest: Manifest)
    requires Sound(catalog, sum) && Admissible(catalog, manifest)
    ensures Reconcile(sum, manifest, Anywhere(), {}).1 == Done
  {
    FinishedApply(catalog, sum, manifest, Anywhere(), {});
  }

  lemma SameRowsReflexive(store: Store)
    ensures SameRows(store, store)
  {
  }

  lemma FinishesAnywhere(catalog: Catalog, store: Store, sum: Summary, manifest: Manifest, listing: Listing)
    returns (final: Store)
    requires Ready(catalog, store, sum, manifest, listing)
    ensures (final, Done) == ApplyDiff(store, DiffOf(manifest, listing), Anywhere(), {})
  {
    final := ApplyDiff(store, DiffOf(manifest, listing), Anywhere(), {}).0;
    AnywhereFinishes(catalog, sum, manifest);
    ApplyRefines(catalog, store, sum, manifest, listing, Anywhere(), {});
  }

  lemma FinalService(
    catalog: Catalog, store: Store, sum: Summary, manifest: Manifest, listing: Listing, final: Store, s: Service)
    requires Ready(catalog, store, sum, manifest, listing)
    requires (final, Done) == ApplyDiff(store, DiffOf(manifest, listing), Anywhere(), {})
    requires Declared(manifest, s.id) == Some(s) && Stable(store.dialect, s)
    ensures s.id in final.services && final.services[s.id] == s
  {
    ApplyRefines(catalog, store, sum, manifest, listing, Anywhere(), {});
    FinishedApply(catalog, sum, manifest, Anywhere(), {});
    assert At(Reconcile(sum, manifest, Anywhere(), {}).0, s.id) == ExpectedAt(manifest, sum, s.id);
  }

  /** An apply stopped at a service it would have recreated, of which one replica was wanted and there. */
  ghost predicate StoppedAtRecreate(
    catalog: Catalog, store: Store, sum: Summary, next: Manifest, listing: Listing, seen: Store, s: Service,
    replacement: Service)
  {
    && Ready(catalog, store, sum, next, listing) && store.dialect == Sqlite
    && ApplyDiff(store, DiffOf(next, listing), Nowhere(), {}) == (seen, NoTarget(replacement.name))
    && replacement in DesiredServices(next) && replacement.id == s.id && NeedsRecreate(next, s, replacement)
    && s.id in store.services && store.services[s.id] == s
    && s.desiredReplicas == 1 && HoldsReplicas(store.instances, s.id, 1)
  }

  lemma Stripped(
    catalog: Catalog, store: Store, sum: Summary, next: Manifest, listing: Listing, seen: Store, s: Service,
    replacement: Service) returns (mid: Summary)
    requires StoppedAtRecreate(catalog, store, sum, next, listing, seen, s, replacement)
    ensures Sound(catalog, mid) && Represents(seen, mid) && mid.dialect == Sqlite && At(mid, s.id) == Some((s, 0))
  {
    SameRowsReflexive(seen);
    mid := AbortedTables(catalog, store, sum, next, listing, Nowhere(), {}, seen, replacement);
  }

  /** Applying the manifest that declares the stored row again finishes and does not bring the replica back. */
  ghost predicate LeftWithout(seen: Store, current: Manifest, relisting: Listing, final: Store, s: Service)
    requires current.WellFormed()
  {
    && s in DesiredServices(current) && IsListing(relisting, seen)
    && (final, Done) == ApplyDiff(seen, DiffOf(current, relisting), Anywhere(), {})
    && s.id in final.services && final.services[s.id] == s && HoldsReplicas(final.instances, s.id, 0)
  }

  lemma RollsBack(catalog: Catalog, seen: Store, mid: Summary, current: Manifest, s: Service)
    returns (relisting: Listing, final: Store)
    requires Sound(catalog, mid) && Represents(seen, mid) && mid.dialect == Sqlite && At(mid, s.id) == Some((s, 0))
    requires Admissible(catalog, current) && s in DesiredServices(current)
    ensures LeftWithout(seen, current, relisting, final, s)
  {
    relisting := ListingOf(catalog, seen, mid);
    final := FinishesAnywhere(catalog, seen, mid, current, relisting);
    RolledBack(catalog, mid, current, seen, relisting, Anywhere(), {}, s);
  }

  lemma ServedRow(
    catalog: Catalog, store: Store, sum: Summary, manifest: Manifest, listing: Listing, done: seq<Service>,
    seen: Store, relisting: Listing, s: Service)
    requires Interrupted(catalog, store, sum, manifest, listing, done, seen, relisting)
    requires s in done && Declared(manifest, s.id) == Some(s) && Stable(sum.dialect, s)
    ensures !Changed(manifest, seen.services, s)
  {
    DeclaredMember(manifest, s);
    PrefixDone(sum.(have := Retained(manifest, sum)), manifest, done, Midway(manifest, sum, done), s);
  }

  /** A running instance whose service the abort served in place, with other networks, keeps the old ones. */
  lemma KeepsNetworks(
    catalog: Catalog, store: Store, sum: Summary, manifest: Manifest, listing: Listing, done: seq<Service>,
    seen: Store, relisting: Listing, id: string, previous: Service, s: Service)
    requires Interrupted(catalog, store, sum, manifest, listing, done, seen, relisting)
    requires Declared(manifest, s.id) == Some(s) && !Changed(manifest, seen.services, s)
    requires id in seen.instances && seen.instances[id].serviceId == s.id && !Retriable(seen.instances[id])
    requires Wanted(id, store.instances, store.services) == Some(ContainerOf(previous))
    requires Elements(previous.networks) != Elements(s.networks)
    requires ApplyDiff(seen, DiffOf(manifest, relisting), Anywhere(), {}).1 == Done
    ensures ReplayedAt(id, Some(ContainerOf(previous)), DiffOf(manifest, relisting).operations) ==
            Some(ContainerOf(previous))
    ensures !EndsAsWanted(store, seen, manifest, relisting, Anywhere(), {}, id)
  {
    NetworksStayAt(catalog, store, sum, manifest, listing, done, seen, relisting, Anywhere(), {}, id, previous, s);
  }

  /** The retry has finished, its tables have the new row, and the container under the id is the old one. */
  ghost predicate KeptContainer(
    store: Store, seen: Store, manifest: Manifest, relisting: Listing, final: Store, id: string, previous: Service,
    s: Service)
    requires manifest.WellFormed()
  {
    && (final, Done) == ApplyDiff(seen, DiffOf(manifest, relisting), Anywhere(), {})
    && s.id in final.services && final.services[s.id] == s
    && Wanted(id, store.instances, store.services) == Some(ContainerOf(previous))
    && ReplayedAt(id, Some(ContainerOf(previous)), DiffOf(manifest, relisting).operations) ==
       Some(ContainerOf(previous))
    && !EndsAsWanted(store, seen, manifest, relisting, Anywhere(), {}, id)
  }

  lemma AgainAt(
    catalog: Catalog, store: Store, sum: Summary, manifest: Manifest, listing: Listing, done: seq<Service>,
    seen: Store, relisting: Listing, id: string, previous: Service, s: Service)
    requires Interrupted(catalog, store, sum, manifest, listing, done, seen, relisting)
    requires s in done && Declared(manifest, s.id) == Some(s) && Stable(sum.dialect, s)
    requires id in seen.instances && seen.instances[id].serviceId == s.id && !Retriable(seen.instances[id])
    requires Wanted(id, store.instances, store.services) == Some(ContainerOf(previous))
    requires Elements(previous.networks) != Elements(s.networks)
    requires ApplyDiff(seen, DiffOf(manifest, relisting), Anywhere(), {}).1 == Done
    ensures ReplayedAt(id, Some(ContainerOf(previous)), DiffOf(manifest, relisting).operations) ==
            Some(ContainerOf(previous))
    ensures !EndsAsWanted(store, seen, manifest, relisting, Anywhere(), {}, id)
  {
    ServedRow(catalog, store, sum, manifest, listing, done, seen, relisting, s);
    KeepsNetworks(catalog, store, sum, manifest, listing, done, seen, relisting, id, previous, s);
  }

  lemma FinalAgain(catalog: Catalog, seen: Store, mid: Summary, manifest: Manifest, relisting: Listing, s: Service)
    returns (final: Store)
    requires Ready(catalog, seen, mid, manifest, relisting)
    requires Declared(manifest, s.id) == Some(s) && Stable(mid.dialect, s)
    ensures (final, Done) == ApplyDiff(seen, DiffOf(manifest, relisting), Anywhere(), {})
    ensures s.id in final.services && final.services[s.id] == s
  {
    final := FinishesAnywhere(catalog, seen, mid, manifest, relisting);
    FinalService(catalog, seen, mid, manifest, relisting, final, s);
  }

  lemma Again(
    catalog: Catalog, store: Store, sum: Summary, manifest: Manifest, listing: Listing, done: seq<Service>,
    seen: Store, relisting: Listing, id: string, previous: Service, s: Service) returns (final: Store)
    requires Interrupted(catalog, store, sum, manifest, listing, done, seen, relisting)
    requires s in done && Declared(manifest, s.id) == Some(s) && Stable(sum.dialect, s)
    requires id in seen.instances && seen.instances[id].serviceId == s.id && !Retriable(seen.instances[id])
    requires Wanted(id, store.instances, store.services) == Some(ContainerOf(previous))
    requires Elements(previous.networks) != Elements(s.networks)
    ensures KeptContainer(store, seen, manifest, relisting, final, id, previous, s)
  {
    final := FinalAgain(catalog, seen, Midway(manifest, sum, done), manifest, relisting, s);
    AgainAt(catalog, store, sum, manifest, listing, done, seen, relisting, id, previous, s);
  }

  lemma KeptRow(store: Store, manifest: Manifest, listing: Listing, seen: Store, id: string, stop: string)
    requires manifest.WellFormed() && id in RetiredTable(store, manifest, listing)
    requires ApplyDiff(store, DiffOf(manifest, listing), Nowhere(), {}) == (seen, NoTarget(stop))
    ensures id in seen.instances && seen.instances[id] == store.instances[id]
  {
    AfterFrame(store, manifest, listing, Nowhere(), {}, id);
  }

  lemma AllKept(store: Store, manifest: Manifest, listing: Listing, seen: Store, stop: string)
    requires manifest.WellFormed()
    requires ApplyDiff(store, DiffOf(manifest, listing), Nowhere(), {}) == (seen, NoTarget(stop))
    ensures forall id :: id in RetiredTable(store, manifest, listing) ==> id in seen.instances
  {
    forall id | id in RetiredTable(store, manifest, listing) ensures id in seen.instances {
      KeptRow(store, manifest, listing, seen, id, stop);
    }
  }

  lemma InterruptedBy(
    catalog: Catalog, store: Store, sum: Summary, manifest: Manifest, listing: Listing, done: seq<Service>, seen: Store,
    stop: string) returns (relisting: Listing)
    requires Ready(catalog, store, sum, manifest, listing) && Attempted(manifest, sum, done)
    requires ApplyDiff(store, DiffOf(manifest, listing), Nowhere(), {}) == (seen, NoTarget(stop))
    requires Sound(catalog, Midway(manifest, sum, done)) && Represents(seen, Midway(manifest, sum, done))
    ensures Interrupted(catalog, store, sum, manifest, listing, done, seen, relisting)
  {
    relisting := ListingOf(catalog, seen, Midway(manifest, sum, done));
    AllKept(store, manifest, listing, seen, stop);
  }

  // ---- one manifest with two services, on SQLite ---------------------------------------------

  function Entry(image: string, networks: seq<string>): ManifestService {
    ManifestService(image, NoBuild, false, None, None, networks, Null, Null, NO_PARTS)
  }

  /** Services `a` and `b` with one replica each. */
  function Of(networks: seq<string>, image: string): Manifest {
    Manifest("m", ["a", "b"], map["a" := Entry("x", networks), "b" := Entry(image, [])], [])
  }

  /** The manifest in force, and one that changes the networks of `a` and the image of `b`. */
  const OLD: Manifest := Of([], "x")
  const NEW: Manifest := Of(["n"], "y")

  const CATALOG: Catalog := Catalog(map["a" := "m", "b" := "m"], map[])

  function IdOf(name: string): string {
    ServiceId("m", name)
  }

  function FirstOf(name: string): string {
    InstanceId(IdOf(name), 1)
  }

  function RowOf(m: Manifest, name: string): Service
    requires name in m.services
  {
    DesiredService(m, name)
  }

  function RunningRow(name: string): Instance {
    Instance(FirstOf(name), IdOf(name), name, "node", Running, "x")
  }

  function Tables(): Store {
    Store(Sqlite, map[IdOf("a") := RowOf(OLD, "a"), IdOf("b") := RowOf(OLD, "b")],
          map[FirstOf("a") := RunningRow("a"), FirstOf("b") := RunningRow("b")], map[])
  }

  function Counts(): Summary {
    Summary(Sqlite, Tables().services, map[IdOf("a") := 1, IdOf("b") := 1], map[])
  }

  lemma DifferentIds()
    ensures IdOf("a") != IdOf("b") && FirstOf("a") != FirstOf("b")
    ensures ReplicaIndex(IdOf("a"), FirstOf("a")) == 1 && ReplicaIndex(IdOf("b"), FirstOf("b")) == 1
  {
    if IdOf("a") == IdOf("b") {
      SameIdSameName(OLD, "a", "b");
    }
    if FirstOf("a") == FirstOf("b") {
      InstanceIdInjective(IdOf("a"), 1, IdOf("b"), 1);
    }
    ReplicaIndexOfInstanceId(IdOf("a"), 1);
    ReplicaIndexOfInstanceId(IdOf("b"), 1);
  }

  lemma OneOwner()
    ensures Apart(CATALOG)
  {
    forall o | o in Owners(CATALOG) ensures o == "m" {
    }
  }

  lemma ManifestOk(m: Manifest)
    requires exists networks, image :: m == Of(networks, image)
    ensures Admissible(CATALOG, m)
  {
    OneOwner();
    assert m.serviceNames[0] == "a" && m.serviceNames[1] == "b";
    assert Elements(m.serviceNames) == {"a", "b"};
  }

  lemma CountsOk()
    ensures Sound(CATALOG, Counts())
  {
    DifferentIds();
    OneOwner();
  }

  lemma RowsOk()
    ensures forall id :: id in Tables().instances ==> InstanceRowOk(Counts(), id, Tables().instances[id])
  {
    DifferentIds();
    assert InstanceRowOk(Counts(), FirstOf("a"), RunningRow("a"));
    assert InstanceRowOk(Counts(), FirstOf("b"), RunningRow("b"));
  }

  lemma ReplicaThere(sid: string, k: nat)
    requires sid in Counts().have && 1 <= k <= Counts().have[sid]
    ensures InstanceId(sid, k) in Tables().instances && Tables().instances[InstanceId(sid, k)].serviceId == sid
  {
    DifferentIds();
    assert k == 1;
  }

  lemma TablesOk()
    ensures Represents(Tables(), Counts())
  {
    RowsOk();
    forall sid, k | sid in Counts().have && 1 <= k <= Counts().have[sid]
      ensures InstanceId(sid, k) in Tables().instances && Tables().instances[InstanceId(sid, k)].serviceId == sid
    {
      ReplicaThere(sid, k);
    }
  }

  lemma DesiredTwo(m: Manifest)
    requires exists networks, image :: m == Of(networks, image)
    ensures m.WellFormed() && DesiredServices(m) == [RowOf(m, "a"), RowOf(m, "b")]
  {
    ManifestOk(m);
    assert m.serviceNames[0] == "a" && m.serviceNames[1] == "b";
  }

  lemma NewChanges()
    ensures NEW.WellFormed() && Todo(NEW, Tables().services) == [RowOf(NEW, "a"), RowOf(NEW, "b")]
    ensures !NeedsRecreate(NEW, RowOf(OLD, "a"), RowOf(NEW, "a")) &&
            NeedsRecreate(NEW, RowOf(OLD, "b"), RowOf(NEW, "b"))
  {
    assert NEW == Of(["n"], "y");
    DesiredTwo(NEW);
    DifferentIds();
    var desired := DesiredServices(NEW);
    FilterNone(desired, IsAbsent(Tables().services));
    assert RowOf(OLD, "a").networks == [] && RowOf(NEW, "a").networks == ["n"];
    assert RowOf(OLD, "b").image == "x" && RowOf(NEW, "b").image == "y";
    FilterAll(desired, IsOutdated(NEW, Tables().services));
  }

  lemma DeclaredRows()
    ensures OLD.WellFormed() && NEW.WellFormed() && Admissible(CATALOG, OLD) && Admissible(CATALOG, NEW)
    ensures RowOf(OLD, "b") in DesiredServices(OLD) && RowOf(OLD, "b").id == IdOf("b")
    ensures RowOf(NEW, "a") in DesiredServices(NEW) && RowOf(NEW, "a").id == IdOf("a")
    ensures RowOf(NEW, "b") in DesiredServices(NEW) && RowOf(NEW, "b").id == IdOf("b")
    ensures Declared(NEW, IdOf("a")) == Some(RowOf(NEW, "a"))
  {
    assert OLD == Of([], "x");
    assert NEW == Of(["n"], "y");
    ManifestOk(OLD);
    ManifestOk(NEW);
    DesiredTwo(OLD);
    DesiredTwo(NEW);
    assert RowOf(NEW, "a") in DesiredServices(NEW);
    DeclaredMember(NEW, RowOf(NEW, "a"));
  }

  lemma ServesOneOfTwo(sum: Summary, a: Service, b: Service, place: Placement)
    requires Placeable(sum.have, a, place) && !Placeable(WithServed(sum, a).have, b, place)
    ensures ServeSummary(sum, [a, b], place) == (Served(sum, [a]), NoTarget(b.name))
  {
    assert [a, b][1..] == [b] && [a][1..] == [];
    assert Served(sum, [a]) == Served(WithServed(sum, a), []);
  }

  lemma RetainedTwo()
    ensures var have := Retained(NEW, Counts());
            IdOf("a") in have && IdOf("b") in have && have[IdOf("a")] == 1 && have[IdOf("b")] == 0
  {
    CountsOk();
    DeclaredRows();
    DifferentIds();
    NewChanges();
    RetainedIs(CATALOG, Counts(), NEW, RowOf(NEW, "a"));
    RetainedIs(CATALOG, Counts(), NEW, RowOf(NEW, "b"));
  }

  lemma OnlyAPlaceable()
    ensures Placeable(Retained(NEW, Counts()), RowOf(NEW, "a"), Nowhere())
    ensures !Placeable(Retained(NEW, Counts())[RowOf(NEW, "a").id := RowOf(NEW, "a").desiredReplicas],
                       RowOf(NEW, "b"), Nowhere())
  {
    RetainedTwo();
    DifferentIds();
  }

  lemma StopsAtSecond(sum: Summary, manifest: Manifest, a: Service, b: Service, place: Placement)
    requires sum.have.Keys == sum.services.Keys && manifest.WellFormed() && Todo(manifest, sum.services) == [a, b]
    requires Placeable(Retained(manifest, sum), a, place)
    requires !Placeable(Retained(manifest, sum)[a.id := a.desiredReplicas], b, place)
    ensures Reconcile(sum, manifest, place, {}) == (Midway(manifest, sum, [a]), NoTarget(b.name))
  {
    ServesOneOfTwo(sum.(have := Retained(manifest, sum)), a, b, place);
  }

  lemma AttemptsA()
    ensures NEW.WellFormed() && Attempted(NEW, Counts(), [RowOf(NEW, "a")])
  {
    NewChanges();
    TodoIsAttempted(Counts(), NEW, 1);
    assert [RowOf(NEW, "a"), RowOf(NEW, "b")][..1] == [RowOf(NEW, "a")];
  }

  /** Where no replica finds a node, the new manifest is served up to `b`: only `a` gets its new row. */
  lemma StopsAtB()
    ensures NEW.WellFormed() && Attempted(NEW, Counts(), [RowOf(NEW, "a")])
    ensures Reconcile(Counts(), NEW, Nowhere(), {}) == (Midway(NEW, Counts(), [RowOf(NEW, "a")]), NoTarget("b"))
  {
    AttemptsA();
    NewChanges();
    OnlyAPlaceable();
    StopsAtSecond(Counts(), NEW, RowOf(NEW, "a"), RowOf(NEW, "b"), Nowhere());
  }

  /** The tables once the new manifest has stopped at `b`. */
  lemma StoppedTables() returns (listing: Listing, seen: Store)
    ensures Ready(CATALOG, Tables(), Counts(), NEW, listing)
    ensures (seen, NoTarget("b")) == ApplyDiff(Tables(), DiffOf(NEW, listing), Nowhere(), {})
    ensures Attempted(NEW, Counts(), [RowOf(NEW, "a")])
    ensures Sound(CATALOG, Midway(NEW, Counts(), [RowOf(NEW, "a")]))
    ensures Represents(seen, Midway(NEW, Counts(), [RowOf(NEW, "a")]))
  {
    CountsOk();
    TablesOk();
    StopsAtB();
    DeclaredRows();
    listing := ListingOf(CATALOG, Tables(), Counts());
    ApplyRefines(CATALOG, Tables(), Counts(), NEW, listing, Nowhere(), {});
    seen := ApplyDiff(Tables(), DiffOf(NEW, listing), Nowhere(), {}).0;
  }

  lemma Stopped() returns (listing: Listing, seen: Store, relisting: Listing)
    ensures Interrupted(CATALOG, Tables(), Counts(), NEW, listing, [RowOf(NEW, "a")], seen, relisting)
    ensures (seen, NoTarget("b")) == ApplyDiff(Tables(), DiffOf(NEW, listing), Nowhere(), {})
    ensures FirstOf("a") in RetiredTable(Tables(), NEW, listing)
  {
    listing, seen := StoppedTables();
    relisting := InterruptedBy(CATALOG, Tables(), Counts(), NEW, listing, [RowOf(NEW, "a")], seen, "b");
    SurvivorOfA(listing);
  }

  lemma InstanceOfA()
    ensures FirstOf("a") in Tables().instances
    ensures Tables().instances[FirstOf("a")].serviceId == RowOf(NEW, "a").id &&
            !Retriable(Tables().instances[FirstOf("a")])
  {
    DifferentIds();
  }

  lemma KeptA(listing: Listing, seen: Store)
    requires NEW.WellFormed() && FirstOf("a") in RetiredTable(Tables(), NEW, listing)
    requires (seen, NoTarget("b")) == ApplyDiff(Tables(), DiffOf(NEW, listing), Nowhere(), {})
    ensures FirstOf("a") in seen.instances
    ensures seen.instances[FirstOf("a")].serviceId == RowOf(NEW, "a").id && !Retriable(seen.instances[FirstOf("a")])
  {
    InstanceOfA();
    KeptRow(Tables(), NEW, listing, seen, FirstOf("a"), "b");
  }

  lemma SurvivorOfA(listing: Listing)
    requires Ready(CATALOG, Tables(), Counts(), NEW, listing)
    ensures FirstOf("a") in RetiredTable(Tables(), NEW, listing)
  {
    RetainedTwo();
    RetainedIsStored(CATALOG, Tables(), Counts(), NEW, listing, IdOf("a"), 1);
  }

  lemma BeforeB()
    ensures HoldsReplicas(Tables().instances, IdOf("b"), 1)
    ensures IdOf("b") in Tables().services && Tables().services[IdOf("b")] == RowOf(OLD, "b")
    ensures NeedsRecreate(NEW, RowOf(OLD, "b"), RowOf(NEW, "b")) && RowOf(OLD, "b").desiredReplicas == 1
  {
    DifferentIds();
    TablesOk();
    NewChanges();
    HoldsIff(Tables(), Counts(), IdOf("b"), 1);
  }

  lemma SomeStoppedAtRecreate()
    returns (catalog: Catalog, store: Store, sum: Summary, next: Manifest, listing: Listing, seen: Store,
             current: Manifest, s: Service, replacement: Service)
    ensures StoppedAtRecreate(catalog, store, sum, next, listing, seen, s, replacement)
    ensures Admissible(catalog, current) && s in DesiredServices(current)
  {
    listing, seen := StoppedTables();
    catalog, store, sum, next, current, s, replacement :=
      CATALOG, Tables(), Counts(), NEW, OLD, RowOf(OLD, "b"), RowOf(NEW, "b");
    BeforeB();
    DeclaredRows();
  }

  /**
   * Rolling back can lose a running replica: an apply stops at a service it would recreate, the manifest that
   * declares the stored row is applied again and finishes, and that service, of which one replica is wanted and was
   * there before, has none.
   */
  lemma RollbackLosesReplicas()
    returns (catalog: Catalog, store: Store, sum: Summary, next: Manifest, listing: Listing, seen: Store,
             current: Manifest, relisting: Listing, final: Store, s: Service, replacement: Service)
    ensures StoppedAtRecreate(catalog, store, sum, next, listing, seen, s, replacement)
    ensures Admissible(catalog, current) && LeftWithout(seen, current, relisting, final, s)
  {
    catalog, store, sum, next, listing, seen, current, s, replacement := SomeStoppedAtRecreate();
    var mid := Stripped(catalog, store, sum, next, listing, seen, s, replacement);
    relisting, final := RollsBack(catalog, seen, mid, current, s);
  }

  lemma NetworksOfA()
    ensures IdOf("a") in Tables().services && Tables().services[IdOf("a")] == RowOf(OLD, "a")
    ensures RowOf(OLD, "a").networks == [] && RowOf(NEW, "a").networks == ["n"]
    ensures FirstOf("a") in Tables().instances && Tables().instances[FirstOf("a")] == RunningRow("a")
    ensures Elements(RowOf(OLD, "a").networks) == {} && Elements(RowOf(NEW, "a").networks) != {}
  {
    DifferentIds();
    assert "n" in Elements(["n"]);
  }

  /** An apply has served one service in place, with other networks, and stopped at the next. */
  ghost predicate ServedInPlace(
    catalog: Catalog, store: Store, sum: Summary, manifest: Manifest, listing: Listing, done: seq<Service>,
    seen: Store, relisting: Listing, id: string, previous: Service, s: Service)
  {
    && Interrupted(catalog, store, sum, manifest, listing, done, seen, relisting)
    && s in done && Declared(manifest, s.id) == Some(s) && Stable(sum.dialect, s)
    && id in seen.instances && seen.instances[id].serviceId == s.id && !Retriable(seen.instances[id])
    && Wanted(id, store.instances, store.services) == Some(ContainerOf(previous))
    && Elements(previous.networks) != Elements(s.networks)
  }

  lemma StoppedWithA() returns (listing: Listing, seen: Store, relisting: Listing)
    ensures Interrupted(CATALOG, Tables(), Counts(), NEW, listing, [RowOf(NEW, "a")], seen, relisting)
    ensures (seen, NoTarget("b")) == ApplyDiff(Tables(), DiffOf(NEW, listing), Nowhere(), {})
    ensures FirstOf("a") in seen.instances
    ensures seen.instances[FirstOf("a")].serviceId == RowOf(NEW, "a").id && !Retriable(seen.instances[FirstOf("a")])
  {
    listing, seen, relisting := Stopped();
    KeptA(listing, seen);
  }

  lemma SomeServedInPlace()
    returns (catalog: Catalog, store: Store, sum: Summary, manifest: Manifest, listing: Listing, done: seq<Service>,
             seen: Store, relisting: Listing, id: string, previous: Service, s: Service)
    ensures ServedInPlace(catalog, store, sum, manifest, listing, done, seen, relisting, id, previous, s)
    ensures (seen, NoTarget("b")) == ApplyDiff(store, DiffOf(manifest, listing), Nowhere(), {})
  {
    listing, seen, relisting := StoppedWithA();
    catalog, store, sum, manifest, done := CATALOG, Tables(), Counts(), NEW, [RowOf(NEW, "a")];
    id, previous, s := FirstOf("a"), RowOf(OLD, "a"), RowOf(NEW, "a");
    AServedInPlace(listing, seen, relisting);
  }

  lemma AServedInPlace(listing: Listing, seen: Store, relisting: Listing)
    requires Interrupted(CATALOG, Tables(), Counts(), NEW, listing, [RowOf(NEW, "a")], seen, relisting)
    requires FirstOf("a") in seen.instances
    requires seen.instances[FirstOf("a")].serviceId == RowOf(NEW, "a").id && !Retriable(seen.instances[FirstOf("a")])
    ensures ServedInPlace(CATALOG, Tables(), Counts(), NEW, listing, [RowOf(NEW, "a")], seen, relisting, FirstOf("a"),
                          RowOf(OLD, "a"), RowOf(NEW, "a"))
  {
    AInPlace();
  }

  lemma AInPlace()
    ensures NEW.WellFormed() && Declared(NEW, IdOf("a")) == Some(RowOf(NEW, "a")) && RowOf(NEW, "a").id == IdOf("a")
    ensures RowOf(NEW, "a") in [RowOf(NEW, "a")] && Stable(Counts().dialect, RowOf(NEW, "a"))
    ensures Wanted(FirstOf("a"), Tables().instances, Tables().services) == Some(ContainerOf(RowOf(OLD, "a")))
    ensures Elements(RowOf(OLD, "a").networks) != Elements(RowOf(NEW, "a").networks)
  {
    DeclaredRows();
    NetworksOfA();
  }

  /** The runtime that runs what the tables say. */
  function RuntimeOf(instances: map<string, Instance>, services: map<string, Service>): Runtime {
    map id | id in instances && instances[id].serviceId in services :: ContainerOf(services[instances[id].serviceId])
  }

  lemma RuntimeMirrors(instances: map<string, Instance>, services: map<string, Service>)
    ensures Mirrors(RuntimeOf(instances, services), instances, services)
  {
  }

  /** The retry has finished, its tables have the new row, and the runtime kept the old networks under the id. */
  ghost predicate Unmended(
    store: Store, seen: Store, manifest: Manifest, relisting: Listing, final: Store, id: string, previous: Service,
    s: Service)
    requires manifest.WellFormed()
  {
    var rt' := Replayed(RuntimeOf(store.instances, store.services), DiffOf(manifest, relisting).operations);
    && (final, Done) == ApplyDiff(seen, DiffOf(manifest, relisting), Anywhere(), {})
    && s.id in final.services && final.services[s.id] == s
    && Get(rt', id) == Some(ContainerOf(previous))
    && !Mirrors(rt', final.instances, final.services)
  }

  lemma UnmendedAt(
    store: Store, seen: Store, manifest: Manifest, relisting: Listing, final: Store, id: string, previous: Service,
    s: Service)
    requires manifest.WellFormed()
    requires KeptContainer(store, seen, manifest, relisting, final, id, previous, s)
    ensures Unmended(store, seen, manifest, relisting, final, id, previous, s)
  {
    RuntimeMirrors(store.instances, store.services);
    LeftBehind(store, seen, manifest, relisting, Anywhere(), {}, RuntimeOf(store.instances, store.services), id);
  }

  /** Wherever that has happened, the retry leaves the old networks. */
  lemma RetriedInPlace(
    catalog: Catalog, store: Store, sum: Summary, manifest: Manifest, listing: Listing, done: seq<Service>,
    seen: Store, relisting: Listing, id: string, previous: Service, s: Service) returns (final: Store)
    requires ServedInPlace(catalog, store, sum, manifest, listing, done, seen, relisting, id, previous, s)
    ensures manifest.WellFormed() && KeptContainer(store, seen, manifest, relisting, final, id, previous, s)
  {
    final := Again(catalog, store, sum, manifest, listing, done, seen, relisting, id, previous, s);
  }

  /**
   * Retrying can leave old networks for good: an apply stops behind a service it has served in place, is made again
   * and finishes, and a running container of that service keeps the networks of the old row, which the new row differs
   * from. Before the first apply the runtime ran what the tables said.
   */
  lemma RetryKeepsOldNetworks()
    returns (catalog: Catalog, store: Store, sum: Summary, manifest: Manifest, listing: Listing, done: seq<Service>,
             seen: Store, relisting: Listing, final: Store, id: string, previous: Service, s: Service)
    ensures ServedInPlace(catalog, store, sum, manifest, listing, done, seen, relisting, id, previous, s)
    ensures (seen, NoTarget("b")) == ApplyDiff(store, DiffOf(manifest, listing), Nowhere(), {})
    ensures Unmended(store, seen, manifest, relisting, final, id, previous, s)
  {
    catalog, store, sum, manifest, listing, done, seen, relisting, id, previous, s := SomeServedInPlace();
    final := RetriedInPlace(catalog, store, sum, manifest, listing, done, seen, relisting, id, previous, s);
    UnmendedAt(store, seen, manifest, relisting, final, id, previous, s);
  }
}
