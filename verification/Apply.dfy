/** The store steps of ApplyService.execute. */
module Apply {
  import opened Sequences
  import opened Json
  import opened Cluster
  import opened Planner

  datatype Outcome = Done | NoTarget(serviceName: string) | DuplicateId(id: string)

  /** Node ids chosen for `count` replicas of a service; any other length means no eligible target. */
  type Placement = (string, nat) -> seq<string>

  datatype Inserted = Inserted(table: map<string, Instance>, duplicate: Option<string>)

  function InsertInstances(table: map<string, Instance>, rows: seq<Instance>, nodes: seq<string>): Inserted
    requires |rows| == |nodes|
    decreases |rows|
  {
    if rows == [] then Inserted(table, None)
    else if rows[0].id in table then Inserted(table, Some(rows[0].id))
    else InsertInstances(table[rows[0].id := rows[0].(nodeId := nodes[0])], rows[1..], nodes[1..])
  }

  /** The loop over created and updated services: schedule, insert the new instances, upsert the row. */
  function ServeServices(store: Store, todo: seq<Service>, create: seq<Instance>, place: Placement): (Store, Outcome)
    decreases |todo|
  {
    if todo == [] then (store, Done)
    else
      var service := todo[0];
      var added := Filter(create, IsInstanceOf(service.id));
      var nodes := if added == [] then [] else place(service.id, |added|);
      if |nodes| != |added| then (store, NoTarget(service.name))
      else
        var inserted := InsertInstances(store.instances, added, nodes);
        if inserted.duplicate.Some? then
          (store.(instances := inserted.table), DuplicateId(inserted.duplicate.value))
        else
          ServeServices(store.(instances := inserted.table,
                               services := store.services[service.id := Saved(store.dialect, service)]),
                        todo[1..], create, place)
  }

  function WithoutServices(store: Store, ids: set<string>): Store {
    store.(services := store.services - ids,
           instances := map id | id in store.instances && store.instances[id].serviceId !in ids :: store.instances[id])
  }

  datatype VolumesInserted = VolumesInserted(table: map<string, Volume>, duplicate: Option<string>)

  function InsertVolumes(table: map<string, Volume>, rows: seq<Volume>): VolumesInserted
    decreases |rows|
  {
    if rows == [] then VolumesInserted(table, None)
    else if rows[0].id in table then VolumesInserted(table, Some(rows[0].id))
    else InsertVolumes(table[rows[0].id := rows[0]], rows[1..])
  }

  /** Deletes the rows of every stale volume except those whose node did not take the plan. */
  function WithoutVolumes(table: map<string, Volume>, names: set<string>): map<string, Volume> {
    map id | id in table && table[id].name !in names :: table[id]
  }

  function ApplyDiff(store: Store, diff: Diff, place: Placement, kept: set<string>): (Store, Outcome) {
    var retired := store.(instances := store.instances - InstanceIds(diff.instancesToRemove));
    var (served, outcome) :=
      ServeServices(retired, diff.servicesToCreate + diff.servicesToUpdate, diff.instancesToCreate, place);
    if outcome != Done then (served, outcome)
    else
      var dropped := WithoutServices(served, ServiceIds(diff.servicesToRemove));
      var volumes := InsertVolumes(dropped.volumes, diff.volumesToEnsure);
      if volumes.duplicate.Some? then
        (dropped.(volumes := volumes.table), DuplicateId(volumes.duplicate.value))
      else
        (dropped.(volumes := WithoutVolumes(volumes.table, VolumeNames(diff.volumesToRemove) - kept)), Done)
  }

  lemma ListsSnoc<R(!new)>(rows: seq<R>, table: map<string, R>, key: R -> string, r: R)
    requires Lists(rows, table, key) && key(r) !in table
    ensures Lists(rows + [r], table[key(r) := r], key)
  {
    assert r !in rows;
    assert forall x :: x in rows + [r] <==> x in rows || x == r;
  }

  /** `findAll`: every row of a table, in an order the database chooses. */
  method FindAll<R(!new)>(table: map<string, R>, key: R -> string) returns (rows: seq<R>)
    requires forall id :: id in table ==> key(table[id]) == id
    ensures Lists(rows, table, key)
  {
    rows := [];
    var keys := table.Keys;
    while keys != {}
      invariant keys <= table.Keys
      invariant Lists(rows, table - keys, key)
      decreases |keys|
    {
      var k :| k in keys;
      assert table - (keys - {k}) == (table - keys)[k := table[k]];
      ListsSnoc(rows, table - keys, key, table[k]);
      rows := rows + [table[k]];
      keys := keys - {k};
    }
    assert table - {} == table;
  }

  /** The tables as the control plane mutates them. */
  class ControlPlaneStore {
    const dialect: Dialect
    var services: map<string, Service>
    var instances: map<string, Instance>
    var volumes: map<string, Volume>

    constructor (dialect: Dialect)
      ensures View() == Store(dialect, map[], map[], map[])
    {
      this.dialect := dialect;
      services, instances, volumes := map[], map[], map[];
    }

    function View(): Store
      reads this
    {
      Store(dialect, services, instances, volumes)
    }

    method DeleteInstance(id: string)
      modifies this`instances
      ensures instances == old(instances) - {id}
    {
      instances := instances - {id};
    }

    /** `create` on the primary key: rejects a second row with the same id. */
    method InsertInstance(row: Instance) returns (ok: bool)
      modifies this`instances
      ensures ok == (row.id !in old(instances))
      ensures instances == if ok then old(instances)[row.id := row] else old(instances)
    {
      ok := row.id !in instances;
      if ok {
        instances := instances[row.id := row];
      }
    }

    /** Writes a row over any row of its id; the columns read back as the dialect stores them. */
    method UpsertService(row: Service)
      modifies this`services
      ensures services == old(services)[row.id := Saved(dialect, row)]
    {
      services := services[row.id := Saved(dialect, row)];
    }

    /** Deletes a service row and every instance row that points at it. */
    method DeleteService(id: string)
      modifies this`services, this`instances
      ensures View() == WithoutServices(old(View()), {id})
    {
      services := services - {id};
      instances := map k | k in instances && instances[k].serviceId != id :: instances[k];
    }

    method InsertVolume(row: Volume) returns (ok: bool)
      modifies this`volumes
      ensures ok == (row.id !in old(volumes))
      ensures volumes == if ok then old(volumes)[row.id := row] else old(volumes)
    {
      ok := row.id !in volumes;
      if ok {
        volumes := volumes[row.id := row];
      }
    }

    method DeleteVolumeByName(name: string)
      modifies this`volumes
      ensures volumes == WithoutVolumes(old(volumes), {name})
    {
      volumes := WithoutVolumes(volumes, {name});
    }

    method List() returns (listing: Listing)
      requires Keyed(View())
      ensures IsListing(listing, View())
    {
      var serviceRows := FindAll(services, (s: Service) => s.id);
      var instanceRows := FindAll(instances, (i: Instance) => i.id);
      var volumeRows := FindAll(volumes, (v: Volume) => v.id);
      listing := Listing(serviceRows, instanceRows, volumeRows);
    }

    method RetireInstances(rows: seq<Instance>)
      modifies this`instances
      ensures instances == old(instances) - InstanceIds(rows)
    {
      for k := 0 to |rows|
        invariant instances == old(instances) - InstanceIds(rows[..k])
      {
        DeleteInstance(rows[k].id);
        assert InstanceIds(rows[..k + 1]) == InstanceIds(rows[..k]) + {rows[k].id};
      }
      assert rows[..|rows|] == rows;
    }

    method InsertScheduled(rows: seq<Instance>, nodes: seq<string>) returns (duplicate: Option<string>)
      requires |rows| == |nodes|
      modifies this`instances
      ensures Inserted(instances, duplicate) == InsertInstances(old(instances), rows, nodes)
    {
      for k := 0 to |rows|
        invariant InsertInstances(instances, rows[k..], nodes[k..]) == InsertInstances(old(instances), rows, nodes)
      {
        var ok := InsertInstance(rows[k].(nodeId := nodes[k]));
        if !ok {
          return Some(rows[k].id);
        }
      }
      return None;
    }

    method Serve(todo: seq<Service>, create: seq<Instance>, place: Placement) returns (outcome: Outcome)
      modifies this`services, this`instances
      ensures (View(), outcome) == ServeServices(old(View()), todo, create, place)
    {
      for k := 0 to |todo|
        invariant volumes == old(volumes)
        invariant ServeServices(View(), todo[k..], create, place) == ServeServices(old(View()), todo, create, place)
      {
        var service := todo[k];
        var added := Filter(create, IsInstanceOf(service.id));
        var nodes := if added == [] then [] else place(service.id, |added|);
        if |nodes| != |added| {
          return NoTarget(service.name);
        }
        var duplicate := InsertScheduled(added, nodes);
        if duplicate.Some? {
          return DuplicateId(duplicate.value);
        }
        UpsertService(service);
      }
      return Done;
    }

    method DropServices(rows: seq<Service>)
      modifies this`services, this`instances
      ensures View() == WithoutServices(old(View()), ServiceIds(rows))
    {
      for k := 0 to |rows|
        invariant View() == WithoutServices(old(View()), ServiceIds(rows[..k]))
      {
        DeleteService(rows[k].id);
        assert ServiceIds(rows[..k + 1]) == ServiceIds(rows[..k]) + {rows[k].id};
      }
      assert rows[..|rows|] == rows;
    }

    method CreateVolumes(rows: seq<Volume>) returns (duplicate: Option<string>)
      modifies this`volumes
      ensures VolumesInserted(volumes, duplicate) == InsertVolumes(old(volumes), rows)
    {
      for k := 0 to |rows|
        invariant InsertVolumes(volumes, rows[k..]) == InsertVolumes(old(volumes), rows)
      {
        var ok := InsertVolume(rows[k]);
        if !ok {
          return Some(rows[k].id);
        }
      }
      return None;
    }

    method DropVolumes(rows: seq<Volume>, kept: set<string>)
      modifies this`volumes
      ensures volumes == WithoutVolumes(old(volumes), VolumeNames(rows) - kept)
    {
      for k := 0 to |rows|
        invariant volumes == WithoutVolumes(old(volumes), VolumeNames(rows[..k]) - kept)
      {
        if rows[k].name in kept {
          assert VolumeNames(rows[..k + 1]) - kept == VolumeNames(rows[..k]) - kept;
          continue;
        }
        DeleteVolumeByName(rows[k].name);
        assert VolumeNames(rows[..k + 1]) - kept == VolumeNames(rows[..k]) - kept + {rows[k].name};
      }
      assert rows[..|rows|] == rows;
    }

    /** The store steps of one apply: list, diff, retire, serve, drop, then the volumes. */
    method Execute(manifest: Manifest, place: Placement, kept: set<string>) returns (listing: Listing, outcome: Outcome)
      requires Keyed(View()) && manifest.WellFormed()
      modifies this
      ensures IsListing(listing, old(View()))
      ensures (View(), outcome) == ApplyDiff(old(View()), DiffOf(manifest, listing), place, kept)
    {
      listing := List();
      var diff := ComputeDiff(manifest, listing);
      RetireInstances(diff.instancesToRemove);
      assert View() == old(View()).(instances := old(instances) - InstanceIds(diff.instancesToRemove));
      outcome := Serve(diff.servicesToCreate + diff.servicesToUpdate, diff.instancesToCreate, place);
      if outcome != Done {
        return;
      }
      DropServices(diff.servicesToRemove);
      var duplicate := CreateVolumes(diff.volumesToEnsure);
      if duplicate.Some? {
        return listing, DuplicateId(duplicate.value);
      }
      DropVolumes(diff.volumesToRemove, kept);
    }
  }
}
