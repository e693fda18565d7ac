/** What an aborted apply and its retry leave running: the exact condition, and the containers left over. */
module Aborted {
  import opened Sequences
  import opened Naming
  import opened Json
  import opened Cluster
  import opened Planner
  import opened Apply
  import opened Reconciliation
  import opened Refinement
  import opened Convergence
  import opened Replay

  // ---- the tables behind an abort -----------------------------------------------------------

  /** The apply reached the service under an id before it stopped. */
  predicate Taken(manifest: Manifest, done: seq<Service>, sid: string)
    requires manifest.WellFormed()
  {
    Declared(manifest, sid).Some? && Declared(manifest, sid).value in done
  }

  /** A served service has its new row and number; any other keeps its row and what it retained. */
  lemma MidRow(sum: Summary, manifest: Manifest, done: seq<Service>, sid: string)
    requires sum.have.Keys == sum.services.Keys && manifest.WellFormed() && Attempted(manifest, sum, done)
    ensures At(Midway(manifest, sum, done), sid) ==
            if Taken(manifest, done, sid) then
              Some((Saved(sum.dialect, Declared(manifest, sid).value), Declared(manifest, sid).value.desiredReplicas))
            else At(sum.(have := Retained(manifest, sum)), sid)
  {
    var sum1 := sum.(have := Retained(manifest, sum));
    if Taken(manifest, done, sid) {
      ServedListed(sum1, done, Declared(manifest, sid).value);
    } else {
      forall t | t in done ensures t.id != sid {
        DeclaredMember(manifest, t);
      }
      ServedUnlisted(sum1, done, sid);
    }
  }

  lemma TakenRetains(manifest: Manifest, dialect: Dialect, s: Service)
    requires manifest.WellFormed() && s in DesiredServices(manifest)
    ensures RetainedCount(manifest, Saved(dialect, s), s.desiredReplicas) ==
            if Stable(dialect, s) then s.desiredReplicas else 0
  {
    DesiredMember(manifest, s);
    SavedTwice(dialect, s);
    if !Stable(dialect, s) {
      UnstableRetainsNone(manifest, dialect, Saved(dialect, s), s, s.desiredReplicas);
    }
  }

  lemma UntakenRetains(catalog: Catalog, sum: Summary, manifest: Manifest, sid: string)
    requires Sound(catalog, sum) && Admissible(catalog, manifest) && sid in sum.have
    ensures RetainedCount(manifest, sum.services[sid], Retained(manifest, sum)[sid]) == Retained(manifest, sum)[sid]
    ensures Declared(manifest, sid).Some? && !Stable(sum.dialect, Declared(manifest, sid).value) ==>
              Retained(manifest, sum)[sid] == 0
  {
    RetainedTwice(manifest, sum.services[sid], sum.have[sid]);
    if Declared(manifest, sid).Some? && !Stable(sum.dialect, Declared(manifest, sid).value) {
      DeclaredRow(catalog, sum, manifest, Declared(manifest, sid).value);
      UnstableRetainsNone(manifest, sum.dialect, sum.services[sid], Declared(manifest, sid).value, sum.have[sid]);
    }
  }

  lemma MidRetains(catalog: Catalog, sum: Summary, manifest: Manifest, done: seq<Service>, sid: string)
    requires Sound(catalog, sum) && Admissible(catalog, manifest) && Attempted(manifest, sum, done)
    requires sid in Midway(manifest, sum, done).have
    ensures var mid := Midway(manifest, sum, done);
            RetainedCount(manifest, mid.services[sid], mid.have[sid]) ==
            if Declared(manifest, sid).Some? && !Stable(sum.dialect, Declared(manifest, sid).value) then 0
            else mid.have[sid]
  {
    MidRow(sum, manifest, done, sid);
    if Taken(manifest, done, sid) {
      TakenRetains(manifest, sum.dialect, Declared(manifest, sid).value);
    } else {
      UntakenRetains(catalog, sum, manifest, sid);
    }
  }

  /**
   * After an abort nothing is left to retire, except under services whose new row does not read back as it was
   * written: they are recreated once more.
   */
  lemma AbortRetainsAll(
    catalog: Catalog, sum: Summary, manifest: Manifest, place: Placement, kept: set<string>, sid: string)
    requires Sound(catalog, sum) && Admissible(catalog, manifest)
    requires Reconcile(sum, manifest, place, kept).1 != Done
    requires sid in Reconcile(sum, manifest, place, kept).0.have
    ensures var mid := Reconcile(sum, manifest, place, kept).0;
            && mid.have.Keys == mid.services.Keys
            && Retained(manifest, mid)[sid] ==
               if Declared(manifest, sid).Some? && !Stable(sum.dialect, Declared(manifest, sid).value) then 0
               else mid.have[sid]
  {
    var done, _ := AbortedAt(sum, manifest, place, kept);
    MidRetains(catalog, sum, manifest, done, sid);
  }

  /** A run of apply, abort and listing for the retry, with the summaries on both sides. */
  ghost predicate Interrupted(
    catalog: Catalog, store: Store, sum: Summary, manifest: Manifest, listing: Listing, done: seq<Service>,
    seen: Store, relisting: Listing)
  {
    && Ready(catalog, store, sum, manifest, listing)
    && Attempted(manifest, sum, done)
    && Ready(catalog, seen, Midway(manifest, sum, done), manifest, relisting)
    && (forall id :: id in RetiredTable(store, manifest, listing) ==> id in seen.instances)
  }

  lemma AbortInterrupts(
    catalog: Catalog, store: Store, sum: Summary, manifest: Manifest, listing: Listing, place: Placement,
    kept: set<string>, seen: Store, relisting: Listing) returns (done: seq<Service>)
    requires Ready(catalog, store, sum, manifest, listing)
    requires ApplyDiff(store, DiffOf(manifest, listing), place, kept).1 != Done
    requires SameRows(ApplyDiff(store, DiffOf(manifest, listing), place, kept).0, seen)
    requires IsListing(relisting, seen)
    ensures Interrupted(catalog, store, sum, manifest, listing, done, seen, relisting)
  {
    var next;
    ApplyRefines(catalog, store, sum, manifest, listing, place, kept);
    done, next := AbortedAt(sum, manifest, place, kept);
    DriftRepresents(ApplyDiff(store, DiffOf(manifest, listing), place, kept).0, seen, Midway(manifest, sum, done));
    forall id | id in RetiredTable(store, manifest, listing) ensures id in seen.instances {
      AfterFrame(store, manifest, listing, place, kept, id);
    }
  }

  /** A row the abort left under a service it did not reach was there before, under the same service row. */
  lemma UntakenRow(
    catalog: Catalog, store: Store, sum: Summary, manifest: Manifest, listing: Listing, done: seq<Service>,
    seen: Store, relisting: Listing, id: string)
    requires Interrupted(catalog, store, sum, manifest, listing, done, seen, relisting)
    requires id in seen.instances && !Taken(manifest, done, seen.instances[id].serviceId)
    ensures id in RetiredTable(store, manifest, listing)
    ensures Wanted(id, seen.instances, seen.services) == Wanted(id, store.instances, store.services)
  {
    var sid := seen.instances[id].serviceId;
    StoredRow(seen, Midway(manifest, sum, done), id);
    MidRow(sum, manifest, done, sid);
    RetainedIsStored(catalog, store, sum, manifest, listing, sid, ReplicaIndex(sid, id));
    SameService(store, sum, id, sid);
  }

  lemma SameService(store: Store, sum: Summary, id: string, sid: string)
    requires Represents(store, sum) && id in store.instances && id == InstanceId(sid, ReplicaIndex(sid, id))
    ensures store.instances[id].serviceId == sid && sid in store.services
  {
    StoredRow(store, sum, id);
    var own := store.instances[id].serviceId;
    InstanceIdInjective(own, ReplicaIndex(own, id), sid, ReplicaIndex(sid, id));
  }

  /** Where the row already is the desired one, no replica up to the desired number has gone. */
  lemma UnchangedKeeps(catalog: Catalog, sum: Summary, manifest: Manifest, done: seq<Service>, s: Service, k: nat)
    requires Sound(catalog, sum) && Admissible(catalog, manifest) && Attempted(manifest, sum, done)
    requires s in DesiredServices(manifest) && !Changed(manifest, Midway(manifest, sum, done).services, s)
    requires k <= HaveOf(sum.have, s.id) && k <= s.desiredReplicas
    ensures k <= HaveOf(Midway(manifest, sum, done).have, s.id)
  {
    MidRow(sum, manifest, done, s.id);
    DeclaredMember(manifest, s);
    if s !in done && s.id in sum.services {
      DeclaredRow(catalog, sum, manifest, s);
      RetainedIs(catalog, sum, manifest, s);
    }
  }

  lemma LackedIff(catalog: Catalog, mid: Summary, manifest: Manifest, s: Service, k: nat)
    requires Sound(catalog, mid) && Admissible(catalog, manifest) && s in DesiredServices(manifest)
    requires k > HaveOf(mid.have, s.id)
    ensures Lacks(manifest, mid, InstanceId(s.id, k)) <==> Changed(manifest, mid.services, s) && k <= s.desiredReplicas
  {
    OwnerIs(manifest, s, k);
    ReplicaIndexOfInstanceId(s.id, k);
    if s.id in mid.services {
      RetainedIs(catalog, mid, manifest, s);
    }
  }

  lemma MissingIsAbove(store: Store, sum: Summary, sid: string, k: nat)
    requires Represents(store, sum) && k >= 1 && InstanceId(sid, k) !in store.instances
    ensures k > HaveOf(sum.have, sid)
  {
  }

  predicate IsDeclared(manifest: Manifest, store: Store, id: string)
    requires manifest.WellFormed() && id in store.instances
  {
    var sid := store.instances[id].serviceId;
    Declared(manifest, sid).Some? && ReplicaIndex(sid, id) <= Declared(manifest, sid).value.desiredReplicas
  }

  /** What the retry lacks of what was stored before: the declared replicas that are gone. */
  lemma GoneIsLacked(
    catalog: Catalog, store: Store, sum: Summary, manifest: Manifest, listing: Listing, done: seq<Service>,
    seen: Store, relisting: Listing, id: string)
    requires Interrupted(catalog, store, sum, manifest, listing, done, seen, relisting)
    requires id in store.instances && id !in seen.instances
    ensures OwnerOf(manifest, id) == Declared(manifest, store.instances[id].serviceId)
    ensures Lacks(manifest, Midway(manifest, sum, done), id) <==> IsDeclared(manifest, store, id)
  {
    var sid, mid := store.instances[id].serviceId, Midway(manifest, sum, done);
    StoredRow(store, sum, id);
    RowOwner(sum, manifest, id, store.instances[id]);
    MissingIsAbove(seen, mid, sid, ReplicaIndex(sid, id));
    if Declared(manifest, sid).Some? {
      var s := Declared(manifest, sid).value;
      LackedIff(catalog, mid, manifest, s, ReplicaIndex(sid, id));
      if !Changed(manifest, mid.services, s) && ReplicaIndex(sid, id) <= s.desiredReplicas {
        UnchangedKeeps(catalog, sum, manifest, done, s, ReplicaIndex(sid, id));
      }
    }
  }

  // ---- the retry, under one id -------------------------------------------------------------

  /**
   * Under one id the retry ends with the container its final tables ask for. `ran` is the container that ran
   * before the abort, `declared` the service the manifest declares for it.
   *
   * If the instance is gone: nothing ran, or what ran can be completed to a declared replica. If it is there
   * and its service row is the declared one already: it is retried and what ran, if anything, can be completed;
   * or what ran is as declared. In every other case it holds without more.
   */
  predicate MendedAt(manifest: Manifest, store: Store, seen: Store, id: string)
    requires manifest.WellFormed()
  {
    var ran := Wanted(id, store.instances, store.services);
    if id !in seen.instances then
      id in store.instances ==>
        && IsDeclared(manifest, store, id)
        && (ran.Some? ==> Completable(ran.value, Declared(manifest, store.instances[id].serviceId).value))
    else
      var declared := Declared(manifest, seen.instances[id].serviceId);
      declared.Some? && !Changed(manifest, seen.services, declared.value) ==>
        if Retriable(seen.instances[id]) then ran.Some? ==> Completable(ran.value, declared.value)
        else ran == Some(ContainerOf(declared.value))
  }

  lemma DeployCompletesIff(c: Option<Container>, s: Service)
    ensures Act(DeployEffect(s), c) == Some(ContainerOf(s)) <==> (c.Some? ==> Completable(c.value, s))
  {
    if c.Some? {
      var n := Elements(s.networks);
      assert c.value.networks + n == n <==> c.value.networks <= n;
    }
  }

  /** The retry's list turns the container that ran before the abort into the one its final tables ask for. */
  predicate EndsAsWanted(
    store: Store, seen: Store, manifest: Manifest, relisting: Listing, place: Placement, kept: set<string>, id: string)
    requires manifest.WellFormed()
  {
    var final := ApplyDiff(seen, DiffOf(manifest, relisting), place, kept).0;
    ReplayedAt(id, Wanted(id, store.instances, store.services), DiffOf(manifest, relisting).operations)
    == Wanted(id, final.instances, final.services)
  }

  /** What the retry makes of a container whose row is gone, and what its final tables want there. */
  lemma GoneEnds(
    catalog: Catalog, store: Store, seen: Store, mid: Summary, manifest: Manifest, relisting: Listing, place: Placement,
    kept: set<string>, id: string)
    requires Ready(catalog, seen, mid, manifest, relisting)
    requires ApplyDiff(seen, DiffOf(manifest, relisting), place, kept).1 == Done
    requires id !in seen.instances
    ensures Lacks(manifest, mid, id) ==> OwnerOf(manifest, id).Some?
    ensures var ran := Wanted(id, store.instances, store.services);
            EndsAsWanted(store, seen, manifest, relisting, place, kept, id)
            <==> if Lacks(manifest, mid, id) then ran.Some? ==> Completable(ran.value, OwnerOf(manifest, id).value)
                 else ran.None?
  {
    var ran := Wanted(id, store.instances, store.services);
    var final := ApplyDiff(seen, DiffOf(manifest, relisting), place, kept).0;
    OtherReplayed(catalog, seen, mid, manifest, relisting, id, ran);
    AddedRows(catalog, seen, mid, manifest, relisting, place, kept, id);
    if id in final.instances {
      FinalRow(catalog, seen, mid, manifest, relisting, place, kept, id);
      WantedAfter(manifest, seen, final, id);
      DeployCompletesIff(ran, OwnerOf(manifest, id).value);
    }
  }

  lemma MendedGone(
    catalog: Catalog, store: Store, sum: Summary, manifest: Manifest, listing: Listing, done: seq<Service>,
    seen: Store, relisting: Listing, place: Placement, kept: set<string>, id: string)
    requires Interrupted(catalog, store, sum, manifest, listing, done, seen, relisting)
    requires ApplyDiff(seen, DiffOf(manifest, relisting), place, kept).1 == Done
    requires id !in seen.instances
    ensures EndsAsWanted(store, seen, manifest, relisting, place, kept, id) <==> MendedAt(manifest, store, seen, id)
  {
    GoneEnds(catalog, store, seen, Midway(manifest, sum, done), manifest, relisting, place, kept, id);
    MendedGoneIff(catalog, store, sum, manifest, listing, done, seen, relisting, id);
  }

  lemma MendedGoneIff(
    catalog: Catalog, store: Store, sum: Summary, manifest: Manifest, listing: Listing, done: seq<Service>,
    seen: Store, relisting: Listing, id: string)
    requires Interrupted(catalog, store, sum, manifest, listing, done, seen, relisting)
    requires id !in seen.instances
    requires Lacks(manifest, Midway(manifest, sum, done), id) ==> OwnerOf(manifest, id).Some?
    ensures var ran := Wanted(id, store.instances, store.services);
            MendedAt(manifest, store, seen, id) <==>
            if Lacks(manifest, Midway(manifest, sum, done), id)
            then ran.Some? ==> Completable(ran.value, OwnerOf(manifest, id).value)
            else ran.None?
  {
    if id in store.instances {
      GoneIsLacked(catalog, store, sum, manifest, listing, done, seen, relisting, id);
      RowWanted(store, sum, id);
    }
  }

  /** An instance the abort did not reach is retried like one that was never interrupted. */
  lemma MendedUntaken(
    catalog: Catalog, store: Store, sum: Summary, manifest: Manifest, listing: Listing, done: seq<Service>,
    seen: Store, relisting: Listing, place: Placement, kept: set<string>, id: string)
    requires Interrupted(catalog, store, sum, manifest, listing, done, seen, relisting)
    requires ApplyDiff(seen, DiffOf(manifest, relisting), place, kept).1 == Done
    requires id in seen.instances && !Taken(manifest, done, seen.instances[id].serviceId)
    ensures EndsAsWanted(store, seen, manifest, relisting, place, kept, id) && MendedAt(manifest, store, seen, id)
  {
    var mid, sid := Midway(manifest, sum, done), seen.instances[id].serviceId;
    UntakenRow(catalog, store, sum, manifest, listing, done, seen, relisting, id);
    RealisedAt(catalog, seen, mid, manifest, relisting, place, kept, id, Wanted(id, store.instances, store.services));
    StoredRow(seen, mid, id);
    if Declared(manifest, sid).Some? && !Changed(manifest, seen.services, Declared(manifest, sid).value) {
      DeclaredRow(catalog, mid, manifest, Declared(manifest, sid).value);
      ContainerCompletable(Declared(manifest, sid).value);
    }
  }

  lemma TakenStored(
    catalog: Catalog, store: Store, sum: Summary, manifest: Manifest, listing: Listing, done: seq<Service>,
    seen: Store, relisting: Listing, id: string)
    requires Interrupted(catalog, store, sum, manifest, listing, done, seen, relisting)
    requires id in seen.instances && Taken(manifest, done, seen.instances[id].serviceId)
    ensures var s := Declared(manifest, seen.instances[id].serviceId).value;
            && seen.services[s.id] == Saved(seen.dialect, s) && s.id == seen.instances[id].serviceId
            && OwnerOf(manifest, id) == Some(s)
            && (Changed(manifest, seen.services, s) <==> !Stable(seen.dialect, s))
            && (id in RetiredTable(seen, manifest, relisting) <==> Stable(seen.dialect, s))
            && (!Stable(seen.dialect, s) ==> Lacks(manifest, Midway(manifest, sum, done), id))
  {
    var mid, sid := Midway(manifest, sum, done), seen.instances[id].serviceId;
    var s := Declared(manifest, sid).value;
    StoredRow(seen, mid, id);
    RowOwner(mid, manifest, id, seen.instances[id]);
    MidRow(sum, manifest, done, sid);
    MidRetains(catalog, sum, manifest, done, sid);
    GoneIff(catalog, seen, mid, manifest, relisting, id);
    PrefixDone(sum.(have := Retained(manifest, sum)), manifest, done, mid, s);
  }

  /** An instance of a service the abort had served is retried against what ran before. */
  lemma MendedTaken(
    catalog: Catalog, store: Store, sum: Summary, manifest: Manifest, listing: Listing, done: seq<Service>,
    seen: Store, relisting: Listing, place: Placement, kept: set<string>, id: string)
    requires Interrupted(catalog, store, sum, manifest, listing, done, seen, relisting)
    requires ApplyDiff(seen, DiffOf(manifest, relisting), place, kept).1 == Done
    requires id in seen.instances && Taken(manifest, done, seen.instances[id].serviceId)
    ensures EndsAsWanted(store, seen, manifest, relisting, place, kept, id) <==> MendedAt(manifest, store, seen, id)
  {
    var mid, ran := Midway(manifest, sum, done), Wanted(id, store.instances, store.services);
    var s := Declared(manifest, seen.instances[id].serviceId).value;
    TakenStored(catalog, store, sum, manifest, listing, done, seen, relisting, id);
    AddedRows(catalog, seen, mid, manifest, relisting, place, kept, id);
    FinalRow(catalog, seen, mid, manifest, relisting, place, kept, id);
    SavedAlike(seen.dialect, s);
    if Stable(seen.dialect, s) {
      SurvivorReplayed(catalog, seen, mid, manifest, relisting, id, ran);
      NoRewiring(ran, s.networks);
      DeployCompletesIff(ran, s);
    } else {
      OtherReplayed(catalog, seen, mid, manifest, relisting, id, ran);
      DeployCompletesIff(None, s);
    }
  }

  lemma MendedIff(
    catalog: Catalog, store: Store, sum: Summary, manifest: Manifest, listing: Listing, done: seq<Service>,
    seen: Store, relisting: Listing, place: Placement, kept: set<string>, id: string)
    requires Interrupted(catalog, store, sum, manifest, listing, done, seen, relisting)
    requires ApplyDiff(seen, DiffOf(manifest, relisting), place, kept).1 == Done
    ensures EndsAsWanted(store, seen, manifest, relisting, place, kept, id) <==> MendedAt(manifest, store, seen, id)
  {
    if id !in seen.instances {
      MendedGone(catalog, store, sum, manifest, listing, done, seen, relisting, place, kept, id);
    } else if Taken(manifest, done, seen.instances[id].serviceId) {
      MendedTaken(catalog, store, sum, manifest, listing, done, seen, relisting, place, kept, id);
    } else {
      MendedUntaken(catalog, store, sum, manifest, listing, done, seen, relisting, place, kept, id);
    }
  }

  lemma MirrorsIffAllEnd(
    store: Store, seen: Store, manifest: Manifest, relisting: Listing, place: Placement, kept: set<string>, rt: Runtime)
    requires manifest.WellFormed() && Mirrors(rt, store.instances, store.services)
    ensures var final := ApplyDiff(seen, DiffOf(manifest, relisting), place, kept).0;
            Mirrors(Replayed(rt, DiffOf(manifest, relisting).operations), final.instances, final.services)
            <==> forall id :: EndsAsWanted(store, seen, manifest, relisting, place, kept, id)
  {
    var rt' := Replayed(rt, DiffOf(manifest, relisting).operations);
    var final := ApplyDiff(seen, DiffOf(manifest, relisting), place, kept).0;
    forall id
      ensures Get(rt', id) == Wanted(id, final.instances, final.services) <==>
              EndsAsWanted(store, seen, manifest, relisting, place, kept, id)
    {
      ReplayedGet(rt, DiffOf(manifest, relisting).operations, id);
      assert Get(rt, id) == Wanted(id, store.instances, store.services);
    }
  }

  lemma AllMendedIff(
    catalog: Catalog, store: Store, sum: Summary, manifest: Manifest, listing: Listing, done: seq<Service>,
    seen: Store, relisting: Listing, place: Placement, kept: set<string>)
    requires Interrupted(catalog, store, sum, manifest, listing, done, seen, relisting)
    requires ApplyDiff(seen, DiffOf(manifest, relisting), place, kept).1 == Done
    ensures forall id :: EndsAsWanted(store, seen, manifest, relisting, place, kept, id)
                         <==> MendedAt(manifest, store, seen, id)
  {
    forall id
      ensures EndsAsWanted(store, seen, manifest, relisting, place, kept, id) <==> MendedAt(manifest, store, seen, id)
    {
      MendedIff(catalog, store, sum, manifest, listing, done, seen, relisting, place, kept, id);
    }
  }

  /**
   * Abort and retry. If the runtime ran what the tables said, an apply stopped for want of a target, agents
   * reported whatever they like and the retry of the manifest finishes, then the runtime runs what the final
   * tables say exactly when `MendedAt` holds under every id.
   */
  lemma MirrorsAfterRetryIff(
    catalog: Catalog, store: Store, sum: Summary, manifest: Manifest, listing: Listing, place: Placement,
    kept: set<string>, rt: Runtime, seen: Store, relisting: Listing, place': Placement, kept': set<string>)
    requires Ready(catalog, store, sum, manifest, listing)
    requires Mirrors(rt, store.instances, store.services)
    requires ApplyDiff(store, DiffOf(manifest, listing), place, kept).1 != Done
    requires SameRows(ApplyDiff(store, DiffOf(manifest, listing), place, kept).0, seen)
    requires IsListing(relisting, seen)
    requires ApplyDiff(seen, DiffOf(manifest, relisting), place', kept').1 == Done
    ensures var final := ApplyDiff(seen, DiffOf(manifest, relisting), place', kept').0;
            Mirrors(Replayed(rt, DiffOf(manifest, relisting).operations), final.instances, final.services)
            <==> forall id :: MendedAt(manifest, store, seen, id)
  {
    var done := AbortInterrupts(catalog, store, sum, manifest, listing, place, kept, seen, relisting);
    AllMendedIff(catalog, store, sum, manifest, listing, done, seen, relisting, place', kept');
    MirrorsIffAllEnd(store, seen, manifest, relisting, place', kept', rt);
  }

  // ---- containers left over ----------------------------------------------------------------

  lemma TakenStays(
    catalog: Catalog, store: Store, sum: Summary, manifest: Manifest, listing: Listing, done: seq<Service>,
    seen: Store, relisting: Listing, id: string)
    requires Interrupted(catalog, store, sum, manifest, listing, done, seen, relisting)
    requires id in seen.instances && Taken(manifest, done, seen.instances[id].serviceId)
    ensures id in RetiredTable(seen, manifest, relisting) || Lacks(manifest, Midway(manifest, sum, done), id)
    ensures id in store.instances ==> IsDeclared(manifest, store, id)
  {
    var mid, sid := Midway(manifest, sum, done), seen.instances[id].serviceId;
    TakenStored(catalog, store, sum, manifest, listing, done, seen, relisting, id);
    StoredRow(seen, mid, id);
    MidRow(sum, manifest, done, sid);
    if id in store.instances {
      SameService(store, sum, id, sid);
    }
  }

  /** A row that is still there after the abort is in the final tables, and was not a removed surplus. */
  lemma SeenStays(
    catalog: Catalog, store: Store, sum: Summary, manifest: Manifest, listing: Listing, done: seq<Service>,
    seen: Store, relisting: Listing, place: Placement, kept: set<string>, id: string)
    requires Interrupted(catalog, store, sum, manifest, listing, done, seen, relisting)
    requires ApplyDiff(seen, DiffOf(manifest, relisting), place, kept).1 == Done
    requires id in seen.instances
    ensures id in ApplyDiff(seen, DiffOf(manifest, relisting), place, kept).0.instances
    ensures id in store.instances && id !in RetiredTable(store, manifest, listing) ==> IsDeclared(manifest, store, id)
  {
    AddedRows(catalog, seen, Midway(manifest, sum, done), manifest, relisting, place, kept, id);
    if Taken(manifest, done, seen.instances[id].serviceId) {
      TakenStays(catalog, store, sum, manifest, listing, done, seen, relisting, id);
    } else {
      UntakenRow(catalog, store, sum, manifest, listing, done, seen, relisting, id);
      UntakenStays(catalog, sum, manifest, done, seen, relisting, id);
    }
  }

  lemma UntakenStays(
    catalog: Catalog, sum: Summary, manifest: Manifest, done: seq<Service>, seen: Store, relisting: Listing, id: string)
    requires Sound(catalog, sum) && Admissible(catalog, manifest) && Attempted(manifest, sum, done)
    requires Ready(catalog, seen, Midway(manifest, sum, done), manifest, relisting)
    requires id in seen.instances && !Taken(manifest, done, seen.instances[id].serviceId)
    ensures id in RetiredTable(seen, manifest, relisting)
  {
    var mid, sid := Midway(manifest, sum, done), seen.instances[id].serviceId;
    StoredRow(seen, mid, id);
    MidRow(sum, manifest, done, sid);
    MidRetains(catalog, sum, manifest, done, sid);
    UntakenRetains(catalog, sum, manifest, sid);
    GoneIff(catalog, seen, mid, manifest, relisting, id);
  }

  lemma GoneLeaks(
    catalog: Catalog, store: Store, sum: Summary, manifest: Manifest, listing: Listing, done: seq<Service>,
    seen: Store, relisting: Listing, place: Placement, kept: set<string>, id: string)
    requires Interrupted(catalog, store, sum, manifest, listing, done, seen, relisting)
    requires ApplyDiff(seen, DiffOf(manifest, relisting), place, kept).1 == Done
    requires id !in seen.instances
    ensures var ran := Wanted(id, store.instances, store.services);
            (ReplayedAt(id, ran, DiffOf(manifest, relisting).operations).Some?
             && id !in ApplyDiff(seen, DiffOf(manifest, relisting), place, kept).0.instances)
            <==> id in store.instances && !IsDeclared(manifest, store, id)
  {
    var mid, ran := Midway(manifest, sum, done), Wanted(id, store.instances, store.services);
    OtherReplayed(catalog, seen, mid, manifest, relisting, id, ran);
    AddedRows(catalog, seen, mid, manifest, relisting, place, kept, id);
    if id in store.instances {
      GoneIsLacked(catalog, store, sum, manifest, listing, done, seen, relisting, id);
      RowWanted(store, sum, id);
    }
  }

  lemma LeaksAt(
    catalog: Catalog, store: Store, sum: Summary, manifest: Manifest, listing: Listing, done: seq<Service>,
    seen: Store, relisting: Listing, place: Placement, kept: set<string>, id: string)
    requires Interrupted(catalog, store, sum, manifest, listing, done, seen, relisting)
    requires ApplyDiff(seen, DiffOf(manifest, relisting), place, kept).1 == Done
    ensures var ran := Wanted(id, store.instances, store.services);
            (ReplayedAt(id, ran, DiffOf(manifest, relisting).operations).Some?
             && id !in ApplyDiff(seen, DiffOf(manifest, relisting), place, kept).0.instances)
            <==> id in InstanceIds(InstancesToRemove(manifest, listing)) && id in store.instances
                 && !IsDeclared(manifest, store, id)
  {
    RemovedStored(catalog, store, sum, manifest, listing, id);
    if id in seen.instances {
      SeenStays(catalog, store, sum, manifest, listing, done, seen, relisting, place, kept, id);
    } else {
      GoneLeaks(catalog, store, sum, manifest, listing, done, seen, relisting, place, kept, id);
    }
  }

  /**
   * An aborted apply deletes the rows it retires but sends no operation. The containers that run once the retry
   * has finished although its tables do not know them are exactly those whose row the abort deleted and that are
   * no replica of a declared service, up to its desired number.
   */
  lemma AbortLeaks(
    catalog: Catalog, store: Store, sum: Summary, manifest: Manifest, listing: Listing,
    place: Placement, kept: set<string>, rt: Runtime,
    seen: Store, relisting: Listing, place': Placement, kept': set<string>, id: string)
    requires Ready(catalog, store, sum, manifest, listing)
    requires Mirrors(rt, store.instances, store.services)
    requires ApplyDiff(store, DiffOf(manifest, listing), place, kept).1 != Done
    requires SameRows(ApplyDiff(store, DiffOf(manifest, listing), place, kept).0, seen)
    requires IsListing(relisting, seen)
    requires ApplyDiff(seen, DiffOf(manifest, relisting), place', kept').1 == Done
    ensures var final := ApplyDiff(seen, DiffOf(manifest, relisting), place', kept').0;
            (id in Replayed(rt, DiffOf(manifest, relisting).operations) && id !in final.instances)
            <==> id in InstanceIds(InstancesToRemove(manifest, listing)) && id in store.instances
                 && !IsDeclared(manifest, store, id)
  {
    var done := AbortInterrupts(catalog, store, sum, manifest, listing, place, kept, seen, relisting);
    LeaksAt(catalog, store, sum, manifest, listing, done, seen, relisting, place', kept', id);
    ReplayedGet(rt, DiffOf(manifest, relisting).operations, id);
    assert Get(rt, id) == Wanted(id, store.instances, store.services);
  }

  lemma NetworksStayAt(
    catalog: Catalog, store: Store, sum: Summary, manifest: Manifest, listing: Listing, done: seq<Service>,
    seen: Store, relisting: Listing, place: Placement, kept: set<string>, id: string, previous: Service, s: Service)
    requires Interrupted(catalog, store, sum, manifest, listing, done, seen, relisting)
    requires ApplyDiff(seen, DiffOf(manifest, relisting), place, kept).1 == Done
    requires Wanted(id, store.instances, store.services) == Some(ContainerOf(previous))
    requires id in seen.instances && !Retriable(seen.instances[id])
    requires Declared(manifest, seen.instances[id].serviceId) == Some(s) && !Changed(manifest, seen.services, s)
    requires Elements(previous.networks) != Elements(s.networks)
    ensures ReplayedAt(id, Some(ContainerOf(previous)), DiffOf(manifest, relisting).operations) ==
            Some(ContainerOf(previous))
    ensures !EndsAsWanted(store, seen, manifest, relisting, place, kept, id)
  {
    var mid := Midway(manifest, sum, done);
    MendedIff(catalog, store, sum, manifest, listing, done, seen, relisting, place, kept, id);
    StoredRow(seen, mid, id);
    DeclaredRow(catalog, mid, manifest, s);
    RetainedIs(catalog, mid, manifest, s);
    GoneIff(catalog, seen, mid, manifest, relisting, id);
    SurvivorReplayed(catalog, seen, mid, manifest, relisting, id, Some(ContainerOf(previous)));
    NoRewiring(Some(ContainerOf(previous)), s.networks);
  }

  /** The runtime under one id once the retry has run on it. */
  lemma LeftBehind(
    store: Store, seen: Store, manifest: Manifest, relisting: Listing, place: Placement, kept: set<string>,
    rt: Runtime, id: string)
    requires manifest.WellFormed() && Mirrors(rt, store.instances, store.services)
    requires !EndsAsWanted(store, seen, manifest, relisting, place, kept, id)
    ensures var final := ApplyDiff(seen, DiffOf(manifest, relisting), place, kept).0;
            !Mirrors(Replayed(rt, DiffOf(manifest, relisting).operations), final.instances, final.services)
    ensures Get(Replayed(rt, DiffOf(manifest, relisting).operations), id) ==
            ReplayedAt(id, Wanted(id, store.instances, store.services), DiffOf(manifest, relisting).operations)
  {
    var final, rt' := ApplyDiff(seen, DiffOf(manifest, relisting), place, kept).0,
                      Replayed(rt, DiffOf(manifest, relisting).operations);
    ReplayedGet(rt, DiffOf(manifest, relisting).operations, id);
    assert Get(rt, id) == Wanted(id, store.instances, store.services);
    assert Get(rt', id) != Wanted(id, final.instances, final.services);
  }

  lemma NetworksStayOn(
    catalog: Catalog, store: Store, sum: Summary, manifest: Manifest, listing: Listing, done: seq<Service>,
    seen: Store, relisting: Listing, place: Placement, kept: set<string>, rt: Runtime, id: string,
    previous: Service, s: Service)
    requires Interrupted(catalog, store, sum, manifest, listing, done, seen, relisting)
    requires Mirrors(rt, store.instances, store.services)
    requires ApplyDiff(seen, DiffOf(manifest, relisting), place, kept).1 == Done
    requires Wanted(id, store.instances, store.services) == Some(ContainerOf(previous))
    requires id in seen.instances && !Retriable(seen.instances[id])
    requires Declared(manifest, seen.instances[id].serviceId) == Some(s) && !Changed(manifest, seen.services, s)
    requires Elements(previous.networks) != Elements(s.networks)
    ensures var final := ApplyDiff(seen, DiffOf(manifest, relisting), place, kept).0;
            var rt' := Replayed(rt, DiffOf(manifest, relisting).operations);
            Get(rt', id) == Some(ContainerOf(previous)) && !Mirrors(rt', final.instances, final.services)
  {
    NetworksStayAt(catalog, store, sum, manifest, listing, done, seen, relisting, place, kept, id, previous, s);
    LeftBehind(store, seen, manifest, relisting, place, kept, rt, id);
  }

  /**
   * The retry does not repair networks. If an instance ran before the abort, its service was already served with
   * other networks, and the row is neither pending nor failed, the container keeps the old networks for good.
   */
  lemma ServedNetworksStay(
    catalog: Catalog, store: Store, sum: Summary, manifest: Manifest, listing: Listing, place: Placement,
    kept: set<string>, rt: Runtime, seen: Store, relisting: Listing, place': Placement, kept': set<string>, id: string,
    previous: Service, s: Service)
    requires Ready(catalog, store, sum, manifest, listing)
    requires Mirrors(rt, store.instances, store.services)
    requires ApplyDiff(store, DiffOf(manifest, listing), place, kept).1 != Done
    requires SameRows(ApplyDiff(store, DiffOf(manifest, listing), place, kept).0, seen)
    requires IsListing(relisting, seen)
    requires ApplyDiff(seen, DiffOf(manifest, relisting), place', kept').1 == Done
    requires Wanted(id, store.instances, store.services) == Some(ContainerOf(previous))
    requires id in seen.instances && !Retriable(seen.instances[id])
    requires Declared(manifest, seen.instances[id].serviceId) == Some(s) && !Changed(manifest, seen.services, s)
    requires Elements(previous.networks) != Elements(s.networks)
    ensures var final := ApplyDiff(seen, DiffOf(manifest, relisting), place', kept').0;
            var rt' := Replayed(rt, DiffOf(manifest, relisting).operations);
            Get(rt', id) == Some(ContainerOf(previous)) && !Mirrors(rt', final.instances, final.services)
  {
    var done := AbortInterrupts(catalog, store, sum, manifest, listing, place, kept, seen, relisting);
    NetworksStayOn(catalog, store, sum, manifest, listing, done, seen, relisting, place', kept', rt, id, previous, s);
  }
}
