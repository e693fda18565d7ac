# Naulite control plane: reconciliation, playbooks and protocols

A Dafny model of the parts of naulite that decide what a cluster looks like, and proofs of what they guarantee
over whole runs. `dafny verify dfyconfig.toml` checks everything.

## What is modelled

**Planner and apply.** `Planner`, `Apply` follow `Planner.diff` and the store steps of `ApplyService.execute`: retire,
schedule and insert, upsert, delete, volumes. `Reconciliation` is a small machine that only keeps the service rows,
how many replicas each has and the volumes. `Refinement` proves that an apply on the tables is one step of that
machine; `Convergence` and `Runs` prove what single applies, aborted applies and whole histories leave, and
`Declarations` says it in the words of the manifest's fields. `Json` says what a JSON column returns for the value it
was given, on SQLite and on PostgreSQL. `Replay` gives the operation list a meaning on a container runtime and proves
that it realises the apply; `Aborted` says when the retry of an aborted apply does; `Witness` builds small clusters
where it does not. `Operations` says what the list holds, in which order, and what it does to volumes. `Halting` lets
an agent stop at the first operation that fails. `Naming` holds the id strings on which the freshness of instance ids
rests. `Routing` splits the operation list over the nodes and adds image pulls, and `Nodes` runs each plan on its own
node.

**Playbook runner.** `Playbook` is `ApplyStageRunner` with its plan, spliced rescue lists, gates and stored runs; the
executor is any function of the history of its calls. `Conditions` says when a task runs. `PlaybookRuns` compares
paused, resumed and aborted runs with one straight reference run.

**Protocols.** `Leader` runs lease rounds whole, on one clock; `LeaderSteps` runs them as separate database steps with
overlapping rounds, lost answers and failures, and `LeaderExclusion` puts these steps on one clock. `Migrations`
interleaves any number of nodes under the advisory lock. `Sync` is the cursor reader of the event log, `Retry` the
bounded reconciler polls, `Sandbox` builds and their warm pool under any agent failures.

**Documents, streams, placement.** `Merge` and `Resolver` transform parsed YAML values, `Sse` is the event stream
client together with the route that feeds it, `Scheduling` scores nodes and spreads replicas.

A finished apply is one that met no missing target; applies run one after another.

Work that the program does in place is in classes and loops proved against specification functions; what the program
promises is proved about those functions.

## What the proofs found

- On PostgreSQL the columns `ingress`, `deploy_spec` and `function_spec` are `jsonb`, which re-sorts object keys, and
  `valuesEqual` (Planner.ts:637-639) compares serialised texts. The deploy fingerprint is never in the stored order
  (`Cluster.DeploySpecOutOfOrder`), so every apply on PostgreSQL retires and recreates every service its manifest
  declares (`Runs.ReapplyRecreatesTheUnstable`, with the exact condition in `Runs.ReapplyPlansNothing`).
- A manifest name may contain a colon, and `manifest:service` ids of two manifests coincide exactly when one name
  continues the other behind a colon (`Naming.NamesCollideIff`). The run theorems ask that no two owners of names do,
  and that service and volume names belong to one manifest.
- An update that aborts for want of a target has already deleted the replicas it retires. Applying the same manifest
  again repairs the tables, after any number of aborts (`Runs.RecoveryFromAnyAborts`); rolling back to the old
  manifest does not on SQLite, because the old row still equals the desired one (`Runs.RollbackAfterAbort`,
  `Witness.RollbackLosesReplicas`, with the exact condition in `Runs.FullIffNoneShort`).
- The operations of an aborted apply are never sent, and the retry plans only what still differs in the tables. So
  containers of retired rows keep running (`Aborted.AbortLeaks`), a container that is created again while it still
  exists keeps its image and deploy spec because creating is skipped, and networks changed in place stay as they were
  (`Aborted.ServedNetworksStay`, `Witness.RetryKeepsOldNetworks`). When the runtime ends as the tables say is decided
  by the manifest and the tables (`Aborted.MirrorsAfterRetryIff`).
- The stop and remove of a recreated instance follow its new node (`Routing.RecreatedRemovalFollowsTheNewNode`); what
  is left on the old nodes are exactly the old containers of moved replicas (`Nodes.PlansRealiseApply`). The agent of
  the new node fails to stop the container it never had and leaves the rest of its plan undone; every other agent
  finishes (`Halting.PlanRunsIff`, `Halting.PerformedPlansMirrorIff`). A retry stops in the same way when it retires
  an instance that the aborted apply had inserted, as it does on PostgreSQL (`Halting.PerformedRetryMirrorsIff`).
- A sync event whose row becomes visible after the cursor has passed its id is lost, and no other is
  (`Sync.LateRowsAreMissed`).
- Two gates of one name send a run round in circles (`PlaybookRuns.EqualNamesNeverFinish`, exact condition in
  `Playbook.ResumesBehindTheGate`). `not` in front of a blank expression does not negate (`Playbook.NotNegates`).
- The promotion handler is never called by a round that runs alone (`Leader.WholeRoundsNeverPromote`); in
  interleavings without overlapping rounds only a create that committed but was reported as failed leads to it
  (`LeaderSteps.PromotedOnlyByLostCreates`). The update of an expired lease is unguarded, so split database steps can
  give two leaders (`LeaderSteps.TwoLeaders`). There is one leader as long as each such update still finds the lease
  expired or its own (`LeaderExclusion.ExclusiveUnlessGrabbed`); `LeaderExclusion.SecondLeaderIff` says exactly which
  write gives the second.
- The comment on overlays says scalars in the overlay replace the base value; the code keeps a base list under a
  scalar or mapping (`Merge.ListStays`, exact condition in `Merge.ScalarReplacesIff` and `Merge.ListReplacesIff`). A
  `services` value that is no mapping removes every service, so presence after folding needs that case
  (`Merge.FoldPresence`). Composing extended services is not associative in general; the exact condition is
  `Resolver.Compatible`.
- Root extends doubles every task list (`Resolver.TasksAreDoubled`), and stripping the resolver's keys also strips
  services of those names (`Resolver.StrippingDropsServices`).
- Replica placement filters no node itself (`Scheduling.ReplicasIgnoreStatus`). Its callers hand over online and
  registering nodes only, but builders among them, so a builder may take a replica of a workload that is no build
  (`Scheduling.BuilderTakesReplica`, exact condition in `Scheduling.NoBuilderIff`). The capability bonus never changes
  a ranking (`Scheduling.BonusNeverDecides`).
- A build whose own steps succeed is reported as failed when refilling the warm pool fails, and the clone that failed
  stays in cloning for good (`Sandbox.BuildLeavesNothingBehind`, `Sandbox.SerialBuildsLeakNoJobs`).
- A row out of retries can still be moved to a healthy node, where nothing is ever sent
  (`Retry.ExhaustedIsNeverSent`).

## Model

| member | source | states |
|---|---|---|
| `Runs.EveryReachableStoreIsContiguous` | packages/control-plane/src/services/ApplyService.ts:211-272 | after any run of finished and aborted applies on either dialect, with agents changing statuses and nodes in between, every stored service has exactly replicas 1 to n for some n up to its desired number, no instance belongs to an unknown service, and no insert of the run ever met an existing id |
| `Runs.FinishedRunsAreCanonical` | packages/control-plane/src/services/ApplyService.ts:211-272 | after any run of finished applies every stored service has exactly the instances `id-1` to `id-desiredReplicas`, whether or not stale volumes could be deleted |
| `Runs.PathIndependence` | packages/control-plane/src/orchestration/Planner.ts:47-152 | two runs of finished applies whose last manifest of every name agrees leave the same services, instance ids and images, whatever came before and in whatever order rows were listed, and the same volumes if every node with a stale volume took its plan |
| `Runs.ReapplyPlansNothing` | packages/control-plane/src/orchestration/Planner.ts:485-505 | after a run of finished applies, planning the last manifest of any name again plans nothing for services and instances exactly when every declared row reads back as it was written, that is on SQLite or when the manifest declares no service |
| `Runs.ReapplyRecreatesTheUnstable` | packages/control-plane/src/orchestration/Planner.ts:68-105 | what re-applying plans, whatever agents reported since: no service is created or removed; the services updated are exactly the declared ones whose row does not read back as written, all their instances are retired and the same ids created again, and no other instance is touched |
| `Runs.StableIffSqlite` | packages/control-plane/src/orchestration/Planner.ts:513-522 | a desired row reads back as it was written exactly on SQLite |
| `Runs.FinalIsLast` | packages/control-plane/src/orchestration/Planner.ts:47-66 | the record a history leaves under an id is the one its owner's last manifest declares |
| `Runs.RunSettles` | packages/control-plane/src/services/ApplyService.ts:211-272 | a run of finished applies leaves exactly the services, replica counts and volumes its history of manifests settles on |
| `Declarations.ReplicasFollowTheManifest` | packages/control-plane/src/orchestration/Planner.ts:530-536 | after any run of finished applies a service of the last version of its manifest holds no replica if it is a function, else replicas 1 to its `scale` number, else to its `deploy` number, else replica 1 alone |
| `Declarations.RowFollowsTheManifest` | packages/control-plane/src/orchestration/Planner.ts:185-204 | after any run of finished applies a declared service has a row with its own name and its manifest's, its networks, the image it asks for, and its ingress, function entry and each part of its deploy entry as the database returns them; an undeclared one of a manifest that owns names has none |
| `Declarations.VolumesFollowTheManifest` | packages/control-plane/src/orchestration/Planner.ts:212-226 | after any run of finished applies whose nodes took their plans, exactly the declared volumes of a manifest that owns names are stored |
| `Declarations.NewReplicasAreScheduled` | packages/control-plane/src/services/ApplyService.ts:222-254 | the replicas an apply adds to a service are pending, bear its name and image, and are on the nodes placement chose, which are asked for as many as are missing and given out in order |
| `Declarations.SurvivesIff` | packages/control-plane/src/orchestration/Planner.ts:485-505 | an instance outlives the retiring exactly when its service is another manifest's, or is still declared with the stored image, ingress, function entry and fingerprint and with at least as many replicas as the instance's number; it then keeps its row |
| `Convergence.Recovery` | packages/control-plane/src/services/ApplyService.ts:211-272 | an apply that stops for want of a target, retried where an uninterrupted apply would have finished, finishes and leaves the same services, volumes, instance ids and images as the uninterrupted apply |
| `Convergence.AbortKeepsGoal` | packages/control-plane/src/services/ApplyService.ts:222-242 | after an abort the manifest expects the same final rows as before, and every service still to serve lacks the same replicas |
| `Convergence.FinishedApply` | packages/control-plane/src/services/ApplyService.ts:217-272 | an apply finishes exactly when every changed service can be placed; then each declared service has its desired row and the manifest's other services are gone, while other manifests' services are untouched |
| `Convergence.ServeStops` | packages/control-plane/src/services/ApplyService.ts:217-258 | the serving loop serves exactly the services before the first one without a target |
| `Runs.FullIffNoneShort` | packages/control-plane/src/orchestration/Planner.ts:52-62 | in terms of the tables: a finished apply brings every declared service to replicas 1 to its desired number exactly when every service whose stored row already equals the desired one had them before |
| `Runs.RollbackAfterAbort` | packages/control-plane/src/orchestration/Planner.ts:468-505 | an update that aborts at a service it would recreate, followed by the manifest whose row is stored, finishes with that row and, on SQLite, no replica of it; on PostgreSQL, where the row never reads back as written, with all of them |
| `Runs.RecoveryFromAnyAborts` | packages/control-plane/src/services/ApplyService.ts:211-272 | however many applies of one manifest stop for want of a target, with agents reporting in between, applying it where an uninterrupted apply would have finished finishes and leaves what that apply would have left |
| `Witness.RollbackLosesReplicas` | packages/control-plane/src/orchestration/Planner.ts:468-505 | a cluster, two manifests and two applies on SQLite in which rolling back leaves a service without the one replica it wants and had |
| `Witness.RetryKeepsOldNetworks` | packages/control-plane/src/orchestration/Planner.ts:326-360 | a cluster and two applies of one manifest in which the retry finishes and a running container keeps the networks of its old row |
| `Runs.AbortedUnserved` | packages/control-plane/src/services/ApplyService.ts:211-242 | the service an apply stops at keeps its old row and only the replicas that outlived the retiring |
| `Replay.OperationsRealiseApply` | packages/control-plane/src/orchestration/Planner.ts:283-371 | if the runtime has nothing but the stored instances, all but pending and failed ones running as their rows say, and the apply finishes, then after the diff's operations the same holds of the new tables and every instance of a declared service runs with the image, deploy spec and network set of its new row; if every old instance ran as its row said, so does every new one |
| `Aborted.MirrorsAfterRetryIff` | packages/control-plane/src/orchestration/Planner.ts:118-128 | after an aborted apply and its retry the runtime runs what the final tables say exactly when `MendedAt` holds under every id: a condition on the manifest and on the tables before the abort and before the retry |
| `Aborted.MendedGone` | packages/control-plane/src/services/ApplyService.ts:211-242 | an instance the abort deleted ends as the tables want exactly when it was not running before, or is a declared replica whose old container has the declared image and deploy spec and no network too many, since creating over it is skipped |
| `Aborted.MendedTaken` | packages/control-plane/src/orchestration/Planner.ts:118-152 | an instance of a service the abort had served ends as the tables want exactly when its service is recreated once more, or it is retried and its old container can be completed, or its old container already is as declared |
| `Aborted.AbortLeaks` | packages/control-plane/src/services/ApplyService.ts:211-242 | after an aborted apply and its retry, the containers that run although the tables do not know them are exactly those whose row the abort deleted and that are no replica, up to the desired number, of a service the manifest declares |
| `Aborted.ServedNetworksStay` | packages/control-plane/src/orchestration/Planner.ts:326-360 | a running instance whose service the abort had served with other networks keeps its old networks through the retry |
| `Aborted.AbortRetainsAll` | packages/control-plane/src/orchestration/Planner.ts:68-105 | after an abort the same manifest has nothing left to retire, except under services whose new row does not read back as it was written |
| `Replay.AddedRows` | packages/control-plane/src/services/ApplyService.ts:213-258 | the instance rows after a finished apply are the retained ones and the replicas declared services lacked, which are the created ones, and no id is both |
| `Replay.NetworksReplayed` | packages/control-plane/src/orchestration/Planner.ts:326-360 | the in-place network operations take each surviving container from its old row's networks to its declared row's and touch no other container |
| `Replay.RewireOne` | packages/control-plane/src/orchestration/Planner.ts:338-358 | disconnecting the dropped and connecting the new networks turns the old network set into the new one |
| `Operations.VolumeOperationsIff` | packages/control-plane/src/orchestration/Planner.ts:106-115 | a volume is ensured exactly if it is declared and no stored one has its name, and removed exactly if a stored one of the manifest is no longer declared |
| `Operations.VolumesRealiseApply` | packages/control-plane/src/orchestration/Planner.ts:310-324 | if the cluster holds the stored volumes and every node takes its plan, the volume operations of a finished apply leave it with the volumes of the new tables |
| `Operations.CreatesCarryServices` | packages/control-plane/src/orchestration/Planner.ts:235-267 | every create of a finished apply's list is for an instance of the new tables and carries the name, image and deploy parts of the declared service that instance belongs to |
| `Operations.CreatesIff` | packages/control-plane/src/orchestration/Planner.ts:117-129 | containers are created for exactly the new rows and the surviving pending or failed instances of declared services |
| `Operations.ListIsStaged` | packages/control-plane/src/orchestration/Planner.ts:283-371 | containers are retired before volumes are removed, volumes are ensured after that, and both, like leaving old networks, come before the first create or start |
| `Operations.StartedOnItsNetworks` | packages/control-plane/src/orchestration/Planner.ts:235-267 | whatever is running before, the list starts no container before it exists and is on all networks of its service |
| `Replay.DeployReplayed` | packages/control-plane/src/orchestration/Planner.ts:362-368 | deploying a list starts every listed container and connects its networks; one that did not exist is as the manifest says, one that did keeps its image, spec and further networks; no other container is touched |
| `Replay.RetireReplayed` | packages/control-plane/src/orchestration/Planner.ts:297-308 | stopping and removing a list of instances removes exactly their containers |
| `Refinement.ApplyRefines` | packages/control-plane/src/services/ApplyService.ts:211-272 | an apply on the tables is one step of the summary machine: same outcome, and the new tables hold exactly the replicas the new summary counts |
| `Refinement.ServeRefines` | packages/control-plane/src/services/ApplyService.ts:217-258 | the serving loop never meets an existing instance id and leaves each served service with replicas 1 to its desired number |
| `Refinement.RemovedIff` | packages/control-plane/src/orchestration/Planner.ts:68-105 | a listed instance is retired exactly when its replica number exceeds what its service retains |
| `Refinement.RetirePhase` | packages/control-plane/src/services/ApplyService.ts:211-215 | deleting the retired rows leaves each service with replicas 1 to what it retains |
| `Refinement.AddedIs` | packages/control-plane/src/orchestration/Planner.ts:76-105 | the created rows of a service are exactly the replicas it lacks, numbered on from those it retains |
| `Refinement.RetiresTheTop` | packages/control-plane/src/orchestration/Planner.ts:448-458 | scaling down retires exactly the replicas with the highest numbers |
| `Refinement.NextIndexFollows` | packages/control-plane/src/orchestration/Planner.ts:415-420 | scaling up continues right after the last replica in use |
| `Refinement.CountsReplicas` | packages/control-plane/src/orchestration/Planner.ts:83 | the listed instances of a service are as many as its replica numbers |
| `Refinement.EnsurePhase` | packages/control-plane/src/services/ApplyService.ts:266-272 | no volume insert meets an existing id, and afterwards every declared volume is stored |
| `Refinement.RemoveIds` | packages/control-plane/src/orchestration/Planner.ts:64-66 | the services to remove are exactly the manifest's stored services it no longer declares |
| `Naming.InstanceIdInjective` | packages/control-plane/src/orchestration/Planner.ts:386 | instance ids of different services or different replicas never clash |
| `Naming.ReplicaIndexOfInstanceId` | packages/control-plane/src/orchestration/Planner.ts:415-418 | the number read back from an instance id is the replica number it was built with |
| `Naming.ServiceIdInjective` | packages/control-plane/src/orchestration/Planner.ts:189 | service ids of two manifests are unambiguous when neither name continues the other behind a colon |
| `Naming.NamesCollideIff` | packages/control-plane/src/orchestration/Planner.ts:189 | some services of two manifests share an id exactly when one manifest's name continues the other's behind a colon |
| `Naming.ServiceIdCollision` | packages/control-plane/src/orchestration/Planner.ts:189 | a family of colliding service ids for every pair of such names |
| `Planner.ComputeDiff` | packages/control-plane/src/orchestration/Planner.ts:47-152 | the diff the loops compute is the specified one |
| `Planner.BuildInstances` | packages/control-plane/src/orchestration/Planner.ts:381-398 | replicas 1 to `count` of a service |
| `Planner.BuildScaledInstances` | packages/control-plane/src/orchestration/Planner.ts:409-439 | `count` further replicas numbered on from the highest in use |
| `Planner.BuildInstanceDeployOperations` | packages/control-plane/src/orchestration/Planner.ts:235-267 | create, one connect per network, start |
| `Planner.BuildOperations` | packages/control-plane/src/orchestration/Planner.ts:283-371 | retire, remove and ensure volumes, rewire in place, deploy, in this order |
| `Planner.RetireAll` | packages/control-plane/src/orchestration/Planner.ts:297-308 | stop and remove of each retired instance |
| `Planner.ConnectUpdated` | packages/control-plane/src/orchestration/Planner.ts:326-360 | the in-place network operations of every updated service that is not recreated |
| `Planner.RewireAll` | packages/control-plane/src/orchestration/Planner.ts:343-359 | disconnects, then connects, for each surviving instance |
| `Planner.DeployAll` | packages/control-plane/src/orchestration/Planner.ts:362-368 | the deploy operations of each instance in order |
| `Planner.ReplaceUpdated` | packages/control-plane/src/orchestration/Planner.ts:80-105 | what is retired and what is added for each updated service, recreated or scaled |
| `Planner.BuildFirst` | packages/control-plane/src/orchestration/Planner.ts:76-78 | all replicas of each new service |
| `Planner.SortByIndexContents` | packages/control-plane/src/orchestration/Planner.ts:451-457 | sorting by replica number keeps the instances |
| `Json.StoredUnchangedIff` | packages/control-plane/src/database/migrations/postgresql/0000_initial.sql:25 | a value reads back as it was written exactly when the column keeps text or every object in it lists its keys by length and then by character |
| `Json.StoredMember` | packages/control-plane/src/database/migrations/postgresql/0000_initial.sql:25 | an object reads back with as many members and under each key what the column returns for the value there |
| `Json.KeyOrder` | packages/control-plane/src/database/migrations/postgresql/0000_initial.sql:25 | of two different keys the shorter one comes first, and of equally long ones the one with the smaller first differing character |
| `Json.StoredTwice` | packages/control-plane/src/database/migrations/postgresql/0000_initial.sql:25 | storing what was read back changes nothing |
| `Cluster.DeploySpecOutOfOrder` | packages/control-plane/src/orchestration/Planner.ts:513-522 | the deploy fingerprint is never in that order: `ports` is shorter than `environment` and is written behind it |
| `Apply.FindAll` | packages/control-plane/src/database/ControlPlaneStore.ts:274-277 | every row of a table once, in some order |
| `Apply.ControlPlaneStore.DeleteInstance` | packages/control-plane/src/database/ControlPlaneStore.ts:637-641 | deletes the row and nothing else |
| `Apply.ControlPlaneStore.InsertInstance` | packages/control-plane/src/database/ControlPlaneStore.ts:571-590 | inserts the row unless its id is taken |
| `Apply.ControlPlaneStore.UpsertService` | packages/control-plane/src/database/ControlPlaneStore.ts:518-541 | writes the row over any row of its id; the JSON columns read back as the dialect stores them |
| `Apply.ControlPlaneStore.DeleteService` | packages/control-plane/src/database/ControlPlaneStore.ts:685-693 | deletes the service and every instance that points at it, and nothing else |
| `Apply.ControlPlaneStore.InsertVolume` | packages/control-plane/src/database/ControlPlaneStore.ts:597-612 | inserts the row unless its id is taken |
| `Apply.ControlPlaneStore.DeleteVolumeByName` | packages/control-plane/src/database/ControlPlaneStore.ts:780-789 | deletes the volume of that name |
| `Apply.ControlPlaneStore.List` | packages/control-plane/src/services/ApplyService.ts:163-168 | lists every service, instance and volume, in some order |
| `Apply.ControlPlaneStore.RetireInstances` | packages/control-plane/src/services/ApplyService.ts:213-215 | deletes exactly the retired rows |
| `Apply.ControlPlaneStore.InsertScheduled` | packages/control-plane/src/services/ApplyService.ts:244-254 | inserts the new rows with their nodes up to the first taken id |
| `Apply.ControlPlaneStore.Serve` | packages/control-plane/src/services/ApplyService.ts:217-258 | schedules, inserts and upserts service by service up to the first without a target |
| `Apply.ControlPlaneStore.DropServices` | packages/control-plane/src/services/ApplyService.ts:260-262 | deletes exactly the dropped services and their instances |
| `Apply.ControlPlaneStore.CreateVolumes` | packages/control-plane/src/services/ApplyService.ts:266-272 | inserts the new volumes up to the first taken id |
| `Apply.ControlPlaneStore.DropVolumes` | packages/control-plane/src/services/ApplyService.ts:352-370 | deletes the stale volumes except those whose node did not take its plan |
| `Apply.ControlPlaneStore.Execute` | packages/control-plane/src/services/ApplyService.ts:209-370 | one apply takes the tables to the specified new tables and outcome, whatever the listing order |
| `Routing.RoutingConserves` | packages/control-plane/src/services/ApplyService.ts:712-783 | for any list of operations and unique node ids, the plan sizes add up to the instance operations mapped to a registered node, the volume removals with a registered owner and the volumes to ensure times the nodes with work; a mapped instance operation is in exactly its node's plan |
| `Routing.CopiesOf` | packages/control-plane/src/services/ApplyService.ts:745-783 | how many nodes receive an operation, for every kind of operation and every gap in the maps |
| `Routing.PlansAddUp` | packages/control-plane/src/services/ApplyService.ts:318-326 | the plan sizes add up to the number of receivers of each operation, whatever the topology |
| `Routing.RecreatedRemovalFollowsTheNewNode` | packages/control-plane/src/services/ApplyService.ts:209-254 | the stop and remove of a recreated instance reach its old node only if it stays there; otherwise they go to the new node |
| `Nodes.PlansRealiseApply` | packages/control-plane/src/services/ApplyService.ts:316-335 | if every node ran the instances stored for it and the apply finishes, then once each node has run its own plan it runs the instances the new tables store for it and, besides, exactly the old containers of recreated replicas that moved away; so the nodes mirror the tables exactly when no recreated replica moved |
| `Nodes.RoutedTo` | packages/control-plane/src/services/ApplyService.ts:209-254 | the routing map sends every instance to the node of its new row, or of its old one if it has no new row |
| `Halting.FinishesIff` | packages/agent/src/runtime/docker/docker.zig:70-115 | an agent that stops at the first failing operation performs all of a list exactly when under every id no start, stop, connect or disconnect meets it without a container; then it has done what replaying the whole list does |
| `Halting.ListRunsIff` | packages/agent/src/runtime/docker/docker_api.zig:279-299 | the list of an apply runs through exactly when every retired instance, and every surviving one whose networks change, has a container |
| `Halting.PerformedRealisesApply` | packages/agent/src/runtime/docker/docker.zig:70-115 | from a runtime that runs what the tables say the whole list of a finished apply runs through and leaves what the new tables say |
| `Halting.PlanRunsIff` | packages/agent/src/runtime/docker/docker.zig:70-115 | if every node ran the instances stored for it, a node performs all of its plan exactly when no recreated instance comes to it from another node, whose stop fails there; a node that does ends with its stored instances and the old containers of replicas that left |
| `Halting.PerformedPlansMirrorIff` | packages/agent/src/runtime/docker/docker.zig:70-115 | once every agent has performed its plan, stopping at a failure, the nodes run what the new tables store for them exactly when no recreated instance left or came to one of them |
| `Halting.PerformedRetryMirrorsIff` | packages/agent/src/runtime/docker/docker.zig:70-115 | after an abort the retry's list runs through exactly when everything it retires was stored before the abort; the runtime then ends as the final tables say exactly when `MendedAt` holds under every id as well, and otherwise it does not |
| `Routing.VolumePlans` | packages/control-plane/src/services/ApplyService.ts:745-783 | a volume to ensure is in the plan of every node with an instance or of the only node, one to remove in that of the node recorded for it, or of the only node if none is |
| `Routing.BuildInstanceNodeMap` | packages/control-plane/src/services/ApplyService.ts:441-460 | the map of existing, then removed, then created instances, later entries winning |
| `Routing.SetNodes` | packages/control-plane/src/services/ApplyService.ts:447-449 | each row's node under its id, later rows winning |
| `Routing.AddPullOperations` | packages/control-plane/src/services/ApplyService.ts:649-672 | the plan with a pull before the first create of each pullable image |
| `Routing.PullsOnlyInsert` | packages/control-plane/src/services/ApplyService.ts:649-672 | without its pulls the new plan is the old one |
| `Routing.PulledIff` | packages/control-plane/src/services/ApplyService.ts:652-666 | an image is pulled exactly if some operation creates a container of it and it starts neither with `build://` nor with `naulite-cr/` |
| `Routing.PulledOnce` | packages/control-plane/src/services/ApplyService.ts:652-666 | a pullable image that is created is pulled exactly once, any other image never |
| `Routing.PulledBefore` | packages/control-plane/src/services/ApplyService.ts:653-668 | every create of a pullable image comes after that image's pull |
| `PlaybookRuns.GatesAreTransparent` | packages/control-plane/src/services/ApplyStageRunner.ts:60-202 | with different gate names, a run started and then approved any number of times has made exactly the executor calls of a reference run with that many gates opened, nothing behind a closed gate has run, its status says how it stands, and once no gate is left calls and result are those of one straight run |
| `PlaybookRuns.GatedIsAPrefix` | packages/control-plane/src/services/ApplyStageRunner.ts:141-202 | what runs with some gates opened is the beginning of the straight run, and all of it once enough gates are opened |
| `PlaybookRuns.WalkIsGated` | packages/control-plane/src/services/ApplyStageRunner.ts:141-202 | walking the stored list with spliced rescue tasks is the reference run up to the next gate |
| `PlaybookRuns.ResumedIsGated` | packages/control-plane/src/services/ApplyStageRunner.ts:60-98 | from a pause on, each approval opens one gate of the reference run and changes no other run |
| `PlaybookRuns.EqualNamesNeverFinish` | packages/control-plane/src/services/ApplyStageRunner.ts:300-315 | with two gates of one name the second is never passed: every approval repeats the work between them |
| `PlaybookRuns.AbortedStaysFailed` | packages/control-plane/src/services/ApplyStageRunner.ts:106-124 | an aborted run is failed for good: later approvals run nothing and change nothing |
| `PlaybookRuns.BreaksAtTheFirstFatalCall` | packages/control-plane/src/services/ApplyStageRunner.ts:186-196 | a run breaks exactly at its first call that throws unrescued and unignored, and that call is its last |
| `PlaybookRuns.CallsAreBounded` | packages/control-plane/src/services/ApplyStageRunner.ts:141-199 | however rescue lists are spliced in, the executor is called at most once per entry of the playbook's trees |
| `PlaybookRuns.ApprovalIsRecorded` | packages/control-plane/src/services/ApplyStageRunner.ts:60-98 | an approved run records its approver; one that pauses again names its gate, keeps its plan and is attributed to the approver, any other keeps neither gate nor plan |
| `PlaybookRuns.StartIsRecorded` | packages/control-plane/src/services/ApplyStageRunner.ts:37-50 | a run that pauses on its first leg is attributed to whoever started it, if anybody is named, and names its gate; an empty playbook changes nothing |
| `PlaybookRuns.ConflictsIff` | packages/control-plane/src/services/ApplyStageRunner.ts:65-124 | approving conflicts and changes nothing exactly if there is no such run, it does not wait for approval or no task is stored to go on with; aborting exactly if there is no such run or it neither runs nor waits |
| `Conditions.FieldDecides` | packages/control-plane/src/services/ApplyStageRunner.ts:227-238 | a task conditioned on `register.field` is what a walk first asks the executor for, on its own node, exactly when the register is a bag that has the field with a truthy value; a third part behind another dot changes nothing |
| `Conditions.NegatedFieldDecides` | packages/control-plane/src/services/ApplyStageRunner.ts:223-238 | with `not` in front it is asked for exactly when the field does not hold |
| `Conditions.VariableDecides` | packages/control-plane/src/services/ApplyStageRunner.ts:240-244 | a task conditioned on a plain name runs exactly when the name is no variable or its value is not blank |
| `Conditions.BlankAlwaysRuns` | packages/control-plane/src/services/ApplyStageRunner.ts:217-219 | a task with a blank condition always runs |
| `Conditions.ResultDecides` | packages/control-plane/src/services/ApplyStageRunner.ts:165-180 | a task behind one that registers a bag, conditioned on a field of it, is called right after it exactly when the answered bag has the field with a truthy value |
| `Playbook.ResumesBehindTheGate` | packages/control-plane/src/services/ApplyStageRunner.ts:300-315 | a paused run resumes right behind its gate exactly when the gate's name is empty or no earlier confirm task bears it |
| `Playbook.NotNegates` | packages/control-plane/src/services/ApplyStageRunner.ts:212-227 | `not` negates the expression behind it exactly when that expression is not blank, or `not` itself is a blank variable |
| `Playbook.LegStep` | packages/control-plane/src/services/ApplyStageRunner.ts:141-199 | what one turn of the loop does to the plan and the executor history, branch by branch |
| `Playbook.Walk` | packages/control-plane/src/services/ApplyStageRunner.ts:141-173 | a walk that stops at a gate stops at a confirm task whose condition holds and whose fields are complete |
| `Playbook.FindGate` | packages/control-plane/src/services/ApplyStageRunner.ts:302-305 | the first confirm task of a name, or none |
| `Playbook.Spliced` | packages/control-plane/src/services/ApplyStageRunner.ts:187-188 | the rescue list goes right behind its task and everything else stays in place |
| `Playbook.TaskPlan.SpliceRescue` | packages/control-plane/src/services/ApplyStageRunner.ts:187-188 | splices the rescue list of one task into the plan |
| `Playbook.TaskPlan.Register` | packages/control-plane/src/services/ApplyStageRunner.ts:178-180 | registers a result under the task's register, if it has one |
| `Playbook.TaskPlan.AdvancePastApprovedGate` | packages/control-plane/src/services/ApplyStageRunner.ts:300-315 | moves the cursor behind the first gate of the stored name, else behind a gate at the cursor |
| `Playbook.TaskPlan.constructor` | packages/control-plane/src/services/ApplyStageRunner.ts:263-291 | a plan read back from a run has the stored list, cursor, registers and variables |
| `Playbook.StageRunner.RunTask` | packages/control-plane/src/services/ApplyStageRunner.ts:165-198 | one executor call, then registration, a splice, or a final failure |
| `Playbook.StageRunner.ExecutePlan` | packages/control-plane/src/services/ApplyStageRunner.ts:135-202 | the loop leaves the run as the specified walk reports it |
| `Playbook.StageRunner.RunTasks` | packages/control-plane/src/services/ApplyStageRunner.ts:37-50 | an empty playbook succeeds untouched, any other is walked from its start |
| `Playbook.StageRunner.ContinueRun` | packages/control-plane/src/services/ApplyStageRunner.ts:60-98 | refuses unknown runs, runs not awaiting approval and runs without a plan; else resumes behind the gate |
| `Playbook.StageRunner.AbortRun` | packages/control-plane/src/services/ApplyStageRunner.ts:106-124 | fails a running or waiting run and refuses any other |
| `Leader.AtMostOnePromptLeader` | packages/control-plane/src/services/LeaderElection.ts:126-199 | in every run of whole rounds on one clock, two instances believe they lead only if one has let a full lease duration pass since its last round; a prompt leader is the holder of an unexpired row |
| `Leader.LateLeaderIsOvertaken` | packages/control-plane/src/services/LeaderElection.ts:137 | the bound is tight: a leader exactly one lease duration late is overtaken and both lead, one millisecond earlier not |
| `Leader.TicksAccountFor` | packages/control-plane/src/services/LeaderElection.ts:126-199 | after any run every leader holds the row it wrote last, or its lease has run out |
| `Leader.WholeRoundsNeverPromote` | packages/control-plane/src/services/LeaderElection.ts:139-199 | a round run alone never calls the promotion handler, not even when it wins the lease |
| `Leader.UndisturbedIsWhole` | packages/control-plane/src/services/LeaderElection.ts:126-199 | a round that nobody disturbs either takes or renews the lease or follows its holder |
| `Leader.LeadersAreNamed` | packages/control-plane/src/services/LeaderElection.ts:145-186 | after any run of whole rounds an instance leads exactly if it names itself as leader, and the last one to run a round names the holder of the row |
| `Leader.LeaseTable.Create` | packages/control-plane/src/services/LeaderElection.ts:141-146 | inserts the lease row only if there is none |
| `Leader.LeaseTable.Update` | packages/control-plane/src/services/LeaderElection.ts:155-169 | overwrites the row, guarded by its holder or not, and reports whether it did |
| `Leader.LeaderElection.RenewLease` | packages/control-plane/src/services/LeaderElection.ts:126-199 | one round leaves the row and the fields as specified, whatever other instances do to the row between its calls, early returns included |
| `Leader.LeaderElection.constructor` | packages/control-plane/src/services/LeaderElection.ts:39-44 | an instance starts as no leader |
| `LeaderSteps.LeadershipStabilises` | packages/control-plane/src/services/LeaderElection.ts:126-199 | in every interleaving of single database steps, overlapping rounds and failures during which the row keeps one holder: once an instance's older rounds are over and it has completed a later one, it leads exactly when it is the holder, and this stays so |
| `LeaderSteps.OnlySeizuresChangeTheHolder` | packages/control-plane/src/services/LeaderElection.ts:139-169 | a step gives the row a new holder exactly when it creates a missing row or updates an expired one for someone else; the compare-and-set never does |
| `LeaderSteps.TwoLeaders` | packages/control-plane/src/services/LeaderElection.ts:153-169 | two instances that both read an expired lease both update it and both lead |
| `LeaderSteps.AmidIsSteps` | packages/control-plane/src/services/LeaderElection.ts:126-199 | a round whose write and final read meet the row as others have left it is a round of single database steps with the row changed in between |
| `LeaderSteps.PromotedAgainOnlyAfterLoss` | packages/control-plane/src/services/LeaderElection.ts:181-198 | between two calls of an instance's promotion handler some final read of it found that it did not lead |
| `LeaderSteps.LeadersAreKnown` | packages/control-plane/src/services/LeaderElection.ts:145-186 | in every interleaving whoever leads names itself as leader |
| `LeaderSteps.AloneIsWhole` | packages/control-plane/src/services/LeaderElection.ts:126-199 | a round that no other step interrupts does what the whole round does |
| `LeaderSteps.PromotedOnlyByLostCreates` | packages/control-plane/src/services/LeaderElection.ts:139-199 | in every interleaving with failures, if the rounds of one instance do not overlap, its promotion handler is called exactly by the end of a round whose create committed but was reported as failed and whose final read finds the lease unexpired under its own name, while it does not remember leading |
| `LeaderSteps.LostCreatePromotes` | packages/control-plane/src/services/LeaderElection.ts:140-196 | and such a round does call it |
| `LeaderSteps.FreshStep` | packages/control-plane/src/services/LeaderElection.ts:126-199 | while the holder stays, no round begun under it can win for anyone else or see anyone else, and completing one sets the flag right |
| `LeaderExclusion.Exclusive` | packages/control-plane/src/services/LeaderElection.ts:126-199 | in every interleaving of single database steps with overlapping rounds and failures on one clock, at any time at most one instance leads by a lease that has not run out, and it holds the row, if every write met no row, an expired row or its own instance's row with no later end |
| `LeaderExclusion.SecondLeaderIff` | packages/control-plane/src/services/LeaderElection.ts:153-169 | in any state, after a write went through and its round ended the writer leads beside another instance exactly if that one led already by a lease that still lasts and the written lease lasts as well; where only such writes came before, a write beside a leader is not one of them |
| `LeaderExclusion.ProperIff` | packages/control-plane/src/services/LeaderElection.ts:139-169 | where no instance's rounds overlap, every write meets no row, an expired row or its own instance's row with no later end, except exactly an unguarded update that meets another instance's unexpired row |
| `LeaderExclusion.ExclusiveUnlessGrabbed` | packages/control-plane/src/services/LeaderElection.ts:126-199 | if no instance's rounds overlap and each unguarded update still finds the row expired or its own, at any time at most one instance leads by a lease that has not run out |
| `Merge.TwiceIsOnce` | packages/control-plane/src/gitops/ManifestMerge.ts:31-103 | merging one overlay document twice equals merging it once, whatever the base, exactly when the overlay has no `tasks` list with entries and no null service below its root |
| `Merge.SelfMerge` | packages/control-plane/src/gitops/ManifestMerge.ts:31-103 | a value merged onto itself is unchanged exactly under that condition with no null service at all |
| `Merge.FoldPresence` | packages/control-plane/src/services/GitOpsService.ts:136-149 | after folding overlays a service is present exactly when the last overlay that speaks of it sets it, or none does and the base has it; replacing `services` by something else speaks of every service |
| `Merge.MergedPresence` | packages/control-plane/src/gitops/ManifestMerge.ts:50-57 | what one merge does to the presence of a service |
| `Merge.AnyOrder` | packages/control-plane/src/gitops/ManifestMerge.ts:49-72 | the merging loops give the same mapping in whatever order the overlay lists its keys |
| `Merge.DeepMerge` | packages/control-plane/src/gitops/ManifestMerge.ts:31-75 | the loop computes the specified merge |
| `Merge.MergeServices` | packages/control-plane/src/gitops/ManifestMerge.ts:82-103 | the services loop computes the specified merge, deleting null services |
| `Merge.ScalarReplacesIff` | packages/control-plane/src/gitops/ManifestMerge.ts:31-103 | for every path of keys, a scalar an overlay has there is in force after the merge exactly when the path neither leads through a base list nor to one, where below `services` only lists inside a service count |
| `Merge.ListReplacesIff` | packages/control-plane/src/gitops/ManifestMerge.ts:31-103 | for every path of keys, a list an overlay has there is in force exactly when the path leads through no base list, whatever the base has at its end; at a `tasks` key it comes behind the base tasks, anywhere else it replaces what is there |
| `Merge.UntouchedStays` | packages/control-plane/src/gitops/ManifestMerge.ts:31-103 | where an overlay says nothing the merged document has what the base has |
| `Merge.NullKeeps` | packages/control-plane/src/gitops/ManifestMerge.ts:31-103 | an overlay null keeps what the base has, except in place of a service, which it removes |
| `Resolver.ComposedAssociates` | packages/control-plane/src/gitops/ManifestResolver.ts:287-307 | composing three values groups either way exactly when they are compatible: nowhere two lists or two mappings around a middle of another kind, unless the right one already says all the left one says |
| `Resolver.ComposesToItself` | packages/control-plane/src/gitops/ManifestResolver.ts:287-307 | a base adds nothing to an override exactly when its lists are empty and its keys are there already, at every depth |
| `Resolver.EmptyIsNeutral` | packages/control-plane/src/gitops/ManifestResolver.ts:287-307 | the empty mapping is neutral on both sides and a merged level has the keys of both sides |
| `Resolver.AnyKeyOrder` | packages/control-plane/src/gitops/ManifestResolver.ts:290-304 | the result does not depend on the order of the override's keys |
| `Resolver.ListsJoinBaseFirst` | packages/control-plane/src/gitops/ManifestResolver.ts:287-307 | where both sides have a list at a path, the composed service has there all entries of the base and behind them those of the override |
| `Resolver.OverrideWins` | packages/control-plane/src/gitops/ManifestResolver.ts:287-307 | any other value the override gives, except a mapping, is in force whatever the base has on the way |
| `Resolver.UncomposedStays` | packages/control-plane/src/gitops/ManifestResolver.ts:287-307 | where the override says nothing the composed service has what the base has |
| `Resolver.MergeComposeService` | packages/control-plane/src/gitops/ManifestResolver.ts:287-307 | the loop computes the specified composition |
| `Resolver.TasksAreDoubled` | packages/control-plane/src/gitops/ManifestResolver.ts:125-183 | root extends runs the task list of every document, the local one included, twice in a row |
| `Resolver.LastDocumentIsMerged` | packages/control-plane/src/gitops/ManifestResolver.ts:142-168 | away from the task list the last document is merged over all before it, at every path |
| `Resolver.ApplyRootExtends` | packages/control-plane/src/gitops/ManifestResolver.ts:142-168 | the loop merges each document and then appends its tasks again |
| `Resolver.StrippedIsClean` | packages/control-plane/src/gitops/ManifestResolver.ts:315-336 | stripping leaves no resolver key and changes exactly the documents that have one |
| `Resolver.StrippingCommutes` | packages/control-plane/src/gitops/ManifestResolver.ts:315-336 | resolver keys may be dropped before or after services are composed |
| `Resolver.StrippingDropsServices` | packages/control-plane/src/gitops/ManifestResolver.ts:315-336 | a service named after a resolver key disappears, every other stays |
| `Sse.StreamRunEvents` | packages/sdk/src/NauliteClient.ts:1284-1322 | however the stream is cut into chunks, the events of the frames of the whole text are yielded up to the first payload that does not parse; the unfinished tail yields nothing |
| `Sse.OnlyDecomposition` | packages/sdk/src/NauliteClient.ts:1297-1304 | the parser's cut is the only way to write a text as frames and an unfinished tail |
| `Sse.FramesAppend` | packages/sdk/src/NauliteClient.ts:1294-1304 | text that arrives later only extends the unfinished tail |
| `Sse.FailureIsFinal` | packages/sdk/src/NauliteClient.ts:1319 | after a payload that does not parse nothing that arrives later changes what was yielded |
| `Sse.ClientReadsWhatTheRouteWrites` | packages/control-plane/src/routes/runs/[id]/stream.ts:34-42 | whatever the transport does to chunk borders, the client yields exactly the events the stream route wrote, once each and in order |
| `Sse.CarriageReturnsYieldNothing` | packages/sdk/src/NauliteClient.ts:1297 | a stream without two adjacent line feeds yields nothing |
| `Sse.PayloadIsFirstDataLine` | packages/sdk/src/NauliteClient.ts:1305-1317 | a frame's payload is what its first `data:` line says, without blanks around it; blank ones and the end marker are none |
| `Sse.Boundary` | packages/sdk/src/NauliteClient.ts:1297 | the first position of two adjacent line feeds, or none |
| `Migrations.ScriptsRunInOrder` | packages/control-plane/src/database/MigrationRunner.ts:107-127 | in every interleaving with nodes failing anywhere, the executed scripts are the sorted list, each repeated once per row written, once per row lost to a failure between running and recording, and once while its row is due |
| `Migrations.EachMissingScriptOnce` | packages/control-plane/src/database/MigrationRunner.ts:107-175 | once any run has returned nothing is pending, and if no row was lost exactly the missing scripts have run, once each and in sorted order |
| `Migrations.RunSafe` | packages/control-plane/src/database/MigrationRunner.ts:107-127 | the lock excludes, positions only pass recorded scripts, and a node returns only when everything is recorded |
| `Migrations.Database.ApplySqlMigrations` | packages/control-plane/src/database/MigrationRunner.ts:146-175 | one pass executes exactly the missing scripts in order, records every name and leaves nothing pending |
| `Migrations.LonePassIsSteps` | packages/control-plane/src/database/MigrationRunner.ts:107-175 | the pass is the step machine run by one node alone: the steps of a node that meets no other leave the same scripts and rows |
| `Retry.RetriesAreBounded` | packages/control-plane/src/services/InstanceReconcilerService.ts:444-458 | whatever agents report and wherever the row moves, unforced polls dispatch one row at most as often as it has retries left |
| `Retry.RetriesAreSpaced` | packages/control-plane/src/services/InstanceReconcilerService.ts:463-473 | from a fresh row, re-dispatch k comes at least grace * (2^(k+1) - 2) milliseconds after the first for k up to 5, and 32 graces more per attempt from there on |
| `Retry.LifeOf` | packages/control-plane/src/services/InstanceReconcilerService.ts:296-345 | attempts count the dispatches, the last dispatch time is the last one, and consecutive dispatches keep the backoff |
| `Retry.ExhaustedIsNeverSent` | packages/control-plane/src/services/InstanceReconcilerService.ts:364-433 | a row out of retries is never sent to the node it is moved to |
| `Retry.PollDispatchesIff` | packages/control-plane/src/services/InstanceReconcilerService.ts:444-473 | after any move off a lost node a poll dispatches a row exactly if it is pending or failed, has attempts left, sits on a listed node with an agent that is not offline, has waited 1, 2, 4, 8, 16 or 32 graces since its last dispatch or else its last update, at the poll's start and when it is taken up, and a plan can be built; the row afterwards in all fields |
| `Retry.HealthyIsLeftAlone` | packages/control-plane/src/services/InstanceReconcilerService.ts:444-452 | a row that is running or stopped whenever a poll looks at it is never dispatched |
| `Retry.DelayClosedForm` | packages/control-plane/src/services/InstanceReconcilerService.ts:530-533 | the sum of the backoffs in closed form |
| `Retry.InstanceReconciler.ReconcileAll` | packages/control-plane/src/services/InstanceReconcilerService.ts:116-139 | one poll reschedules and then dispatches every row as specified |
| `Retry.InstanceReconciler.ReconcileInstance` | packages/control-plane/src/services/InstanceReconcilerService.ts:220-345 | dispatches a candidate whose plan can be built and counts the attempt whether or not the agent accepts |
| `Retry.InstanceReconciler.MaybeReschedule` | packages/control-plane/src/services/InstanceReconcilerService.ts:364-433 | moves a stuck row off a lost node and keeps its attempts |
| `Retry.InstanceReconciler.RescheduleAll` | packages/control-plane/src/services/InstanceReconcilerService.ts:127-129 | reschedules each listed row once |
| `Retry.InstanceReconciler.DispatchOne` | packages/control-plane/src/services/InstanceReconcilerService.ts:134-138 | dispatches a row that is a candidate at the poll's start and again when it is taken up |
| `Retry.InstanceReconciler.DispatchAll` | packages/control-plane/src/services/InstanceReconcilerService.ts:133-139 | dispatches each listed row once |
| `Sync.EventsAreDelivered` | packages/control-plane/src/services/ControlPlaneSync.ts:143-189 | in whatever order ids become visible, however often the instance polls and whichever listeners throw, a listener is called with exactly the foreign events between the old and the new cursor that became visible before the cursor reached them and that reach it, once each and in id order, and never with one of the instance's own |
| `Sync.ReachesAll` | packages/control-plane/src/services/ControlPlaneSync.ts:171-188 | where nobody throws, an event reaches exactly the listeners of its type and of `*` |
| `Sync.PollAccounted` | packages/control-plane/src/services/ControlPlaneSync.ts:143-189 | one poll extends the account of calls by exactly the events on time that the cursor passes |
| `Sync.HeardInOrder` | packages/control-plane/src/services/ControlPlaneSync.ts:171-188 | a listener of both its type and `*` is called once per event |
| `Sync.LateRowsAreMissed` | packages/control-plane/src/services/ControlPlaneSync.ts:148-156 | over any run at whose end the cursor has passed its id, a foreign event with somebody to hear it is delivered to nobody exactly when the cursor had reached its id before its row became visible |
| `Sync.CursorNeverFalls` | packages/control-plane/src/services/ControlPlaneSync.ts:156-171 | the cursor never falls |
| `Sync.Recipients` | packages/control-plane/src/services/ControlPlaneSync.ts:171-182 | the listeners of the type and of `*`, each once |
| `Sync.RecipientsInOrder` | packages/control-plane/src/services/ControlPlaneSync.ts:171-182 | the listeners of the event's type come first, in the order they were added, then the other ones of `*` |
| `Sync.ControlPlaneSync.Poll` | packages/control-plane/src/services/ControlPlaneSync.ts:143-189 | advances the cursor and calls the listeners as specified, up to a throwing one |
| `Sync.ControlPlaneSync.AddListener` | packages/control-plane/src/services/ControlPlaneSync.ts:132-136 | adds the listener to its bucket once |
| `Sync.ControlPlaneSync.Notify` | packages/control-plane/src/services/ControlPlaneSync.ts:184-188 | calls the recipients in turn up to one that throws |
| `Sync.ControlPlaneSync.constructor` | packages/control-plane/src/services/ControlPlaneSync.ts:31-45 | an instance starts at the beginning of the log without listeners |
| `Sandbox.BuildLeavesNothingBehind` | packages/control-plane/src/services/SandboxService.ts:104-198 | whatever the agent does, a build leaves its own row destroyed and every other row as it was, adds only the warm rows of its clones, idle or stuck in cloning as these went, and reports success exactly if the clone where no warm row was offered, the checkout, the command, the collection and the pool's clones succeed |
| `Sandbox.PoolIsRefilled` | packages/control-plane/src/services/SandboxService.ts:209-238 | after a build the idle pool is the larger of its size and what was left if the clones succeed, never more, and one row is stuck exactly if a clone fails |
| `Sandbox.SerialBuildsLeakNoJobs` | packages/control-plane/src/services/SandboxService.ts:104-238 | over any series of builds of any templates no job row is left undestroyed, and each build that could not fill its template's pool leaves exactly one warm row of that template stuck in cloning |
| `Sandbox.ReplenishCounts` | packages/control-plane/src/services/SandboxService.ts:219-237 | filling adds as many idle rows as are missing or stops at the first failing clone |
| `Sandbox.SandboxService.ExecuteBuild` | packages/control-plane/src/services/SandboxService.ts:104-198 | a build with its final block leaves the specified rows and outcome |
| `Sandbox.SandboxService.RunInSandbox` | packages/control-plane/src/services/SandboxService.ts:104-178 | takes an idle warm row or a new one and stops at the first failing step |
| `Sandbox.SandboxService.ReplenishWarmPool` | packages/control-plane/src/services/SandboxService.ts:209-238 | clones up to the pool size, stopping at a failing clone |
| `Sandbox.SandboxService.Save` | packages/control-plane/src/database/ControlPlaneStore.ts:1330-1347 | writes the row over any row of its id |
| `Scheduling.PlacementIsFair` | packages/control-plane/src/orchestration/Scheduler.ts:82-105 | of k replicas over n scored nodes the node of rank r gets k / n, and one more if r < k mod n; better ranks score no less |
| `Scheduling.PlacementIsSound` | packages/control-plane/src/orchestration/Scheduler.ts:82-105 | replicas go only to nodes that can take them, and nothing is placed exactly when no node can or none is asked for |
| `Scheduling.ScoredIff` | packages/control-plane/src/orchestration/Scheduler.ts:134-174 | a node is scored exactly when it has every required capability and free cpu, memory and disk |
| `Scheduling.BonusNeverDecides` | packages/control-plane/src/orchestration/Scheduler.ts:160-166 | the capability bonus never decides between two scored nodes |
| `Scheduling.ScoreMeasures` | packages/control-plane/src/orchestration/Scheduler.ts:154-166 | a score is made of the free shares of cpu, memory and disk, weighed 8 to 8 to 4 in twentieths, and a twentieth for each different capability asked for |
| `Scheduling.RankingMeasuresRoom` | packages/control-plane/src/orchestration/Scheduler.ts:88-91 | of two ranked nodes the earlier one has at least as much free room, cpu and memory weighing double |
| `Scheduling.TiesKeepTheirOrder` | packages/control-plane/src/orchestration/Scheduler.ts:88-91 | nodes with the same score are ranked in the order they are listed in |
| `Scheduling.ScheduleIsBest` | packages/control-plane/src/orchestration/Scheduler.ts:35-70 | the chosen node is eligible and scores best; none is chosen only if none qualifies |
| `Scheduling.ReplicasIgnoreStatus` | packages/control-plane/src/orchestration/Scheduler.ts:82-105 | handed an offline node or a builder with room, replica placement takes it where a single placement takes none |
| `Scheduling.EligibleIff` | packages/control-plane/src/orchestration/Scheduler.ts:82-105 | all of k replicas over n scored nodes land on eligible ones exactly when the first min(k, n) ranks are eligible |
| `Scheduling.NoBuilderIff` | packages/control-plane/src/orchestration/Scheduler.ts:82-105 | of the nodes the callers hand over, all of k replicas land on eligible ones exactly when the workload is a build or no builder is among the first min(k, n) ranks |
| `Scheduling.BuilderTakesReplica` | packages/control-plane/src/orchestration/Scheduler.ts:82-105 | a builder that is online and has room is handed over and takes a replica of a workload that is no build |
| `Scheduling.HandedIff` | packages/control-plane/src/orchestration/TargetGroupResolver.ts:16-43 | without a target or group all nodes that are up are handed over, for a group those that are its members, for a target at most one, which bears it as id or host name, and none only if none does |
| `Scheduling.ResolvedNodes` | packages/control-plane/src/orchestration/TargetGroupResolver.ts:16-43 | the nodes the callers hand over are online or registering ones of the cluster, each once, and every one is eligible unless it is a builder and the workload no build |
| `Scheduling.SortRanks` | packages/control-plane/src/orchestration/Scheduler.ts:88-91 | the ranking is descending and keeps the scored nodes |
| `Scheduling.RankedDistinct` | packages/control-plane/src/orchestration/Scheduler.ts:88-91 | the ranking lists different nodes |
| `Scheduling.ScheduleReplicaNodes` | packages/control-plane/src/orchestration/Scheduler.ts:82-105 | the loop picks round-robin over the ranking |

## Left out

- Apply.ControlPlaneStore.DeleteVolumeByName: deletes every volume row of the name, while the store deletes the first row it finds; the two agree whenever a volume name belongs to one manifest, which the run theorems ask for.
- Apply.ControlPlaneStore.DropVolumes: the nodes whose plan was not taken enter as the set of volume names that are kept; the node of a volume is not modelled.
- Replay.OperationsRealiseApply: an operation on a missing container changes nothing here; `Halting` stops at it as an agent does. What the container engine answers when a network is connected or disconnected twice is not part of the repository; here that succeeds and changes nothing.
- Replay.OperationsRealiseApply: the runtime is one map over the whole cluster; `Nodes.PlansRealiseApply` puts each plan on its node.
- Nodes.PlansRealiseApply: every node performs all of its plan; `Halting.PlanRunsIff` and `Halting.PerformedPlansMirrorIff` say what holds of agents that stop at a failing operation.
- Aborted.MirrorsAfterRetryIff: the retry's list is performed to its end; `Halting.PerformedRetryMirrorsIff` is the same for an agent that stops at a failing operation.
- Aborted.MendedGone: the retry's list is performed to its end, as in `Aborted.MirrorsAfterRetryIff`.
- Aborted.MendedTaken: the retry's list is performed to its end, as in `Aborted.MirrorsAfterRetryIff`.
- Aborted.AbortLeaks: the retry's list is performed to its end; what an agent that stops in its middle leaves running besides is not counted.
- Service rows: capabilities, log rotation, status and timestamps, which the planner does not compare.
- JSON values are trees of objects, lists and atoms; how the entries of a fingerprint are built from a manifest is not modelled, nor are integer-like keys, which JavaScript moves to the front, keys outside ASCII, whose length counts in bytes, or numbers that are rewritten.
- Building images and resolving build references, secret enrichment, ingress and NetBird provisioning, build contexts and revisions inside `execute`: they do not change the planned store state.
- `Number()` on instance ids that are not digit strings, and integers beyond 2^53: every id a run produces is a digit string behind its prefix.
- Two applies in flight at once: `enqueue` starts each in the background without waiting for another.
- Database failures and crashes in the middle of an apply, other than a missing target and a taken id.
- `InstanceLifecycleService.removeInstance`: it deletes a row the planner does not recount for an unchanged service.
- Playbook plans survive the round trip through JSON unchanged; schema parsing, event emission and module schemas are reduced to whether the required fields are there.
- Names inherited from the object prototype in `when` lookups, registers, merges and listener maps.
- An abort that arrives while the executor is still working on the same run.
- The SQLite dialect of leader election, sync and migrations (always leader, no sync, no advisory lock) and the splitting of SQL files into statements.
- The advisory lock is a mutex held until the node returns or fails; connection pooling is not modelled.
- The three protocols with clocks use exact integer milliseconds; scores are exact rationals, so floating-point ties are not modelled.
- YAML text, key order in output, anchors, and undefined values; overlays and base are documents, not lists, in the folding result.
- UTF-8 decoding across chunk borders: chunks are decoded text. JSON parsing is any partial function.
- HTTP, authentication, git, file system, metrics, UI and the agents themselves; agents and placement are oracles that may answer anything, apart from the container operations replayed here.
- Concurrent sandbox builds racing for one warm row, and containers left behind by a failed destroy.
- Forced reconciles and reconciles of one node or service, which share the per-instance step.
- Listeners added in the middle of a run of polls: the delivery result starts again from the state at that moment.
