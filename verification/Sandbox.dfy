/** SandboxService: sandbox builds and the warm pool under arbitrary agent failures. */
module Sandbox {
  import opened Sequences

  datatype Kind = Job | Warm

  datatype Status = Cloning | Running | Collecting | Idle | Destroyed

  datatype Row = Row(id: string, parentId: string, runId: Option<string>, incusName: string, kind: Kind, status: Status)

  type Rows = map<string, Row>

  datatype Template = Template(id: string, warmPoolSize: int)

  /**
   * What the agent answers during one build: whether each task succeeds, and whether each clone of the warm
   * pool, counted from zero, succeeds. Destroying may fail too, but nothing depends on it.
   */
  datatype Agent = Agent(clone: bool, checkout: bool, exec: bool, collect: bool, warmClone: nat -> bool)

  /** One build: its run, the idle warm row the store offers, and the new ids and names it draws. */
  datatype Build = Build(
    template: Template, runId: string, warm: Option<string>, jobId: string, jobName: string,
    warmId: nat -> string, warmName: nat -> string, agent: Agent)

  datatype Outcome = Built | Thrown

  predicate IsIdleWarm(row: Row, parentId: string) {
    row.kind == Warm && row.status == Idle && row.parentId == parentId
  }

  function IdleWarm(rows: Rows, parentId: string): set<string> {
    set id | id in rows && IsIdleWarm(rows[id], parentId)
  }

  ghost predicate Keyed(rows: Rows) {
    forall id :: id in rows ==> rows[id].id == id
  }

  /** The store offers an idle warm row exactly when there is one, and the ids drawn are new and different. */
  ghost predicate Possible(rows: Rows, b: Build) {
    && (b.warm.Some? ==> b.warm.value in IdleWarm(rows, b.template.id))
    && (b.warm.None? ==> IdleWarm(rows, b.template.id) == {})
    && b.jobId !in rows
    && (forall k :: b.warmId(k) !in rows && b.warmId(k) != b.jobId)
    && (forall j, k :: j != k ==> b.warmId(j) != b.warmId(k))
  }

  function WarmRow(b: Build, k: nat, status: Status): Row {
    Row(b.warmId(k), b.template.id, None, b.warmName(k), Warm, status)
  }

  datatype Filled = Filled(rows: Rows, ok: bool)

  /** The replenishing loop from its `k`-th clone on, with `missing` clones to go. */
  function Replenished(rows: Rows, b: Build, k: nat, missing: nat): Filled
    decreases missing
  {
    if missing == 0 then Filled(rows, true)
    else if !b.agent.warmClone(k) then Filled(rows[b.warmId(k) := WarmRow(b, k, Cloning)], false)
    else Replenished(rows[b.warmId(k) := WarmRow(b, k, Idle)], b, k + 1, missing - 1)
  }

  function Missing(rows: Rows, template: Template): nat {
    if template.warmPoolSize > |IdleWarm(rows, template.id)| then template.warmPoolSize - |IdleWarm(rows, template.id)|
    else 0
  }

  /** The row a build works in: an idle warm row turned into a job, or a new one. */
  function JobRow(rows: Rows, b: Build): Row {
    if b.warm.Some? && b.warm.value in rows then
      rows[b.warm.value].(runId := Some(b.runId), kind := Job, status := Running)
    else Row(b.jobId, b.template.id, Some(b.runId), b.jobName, Job, Cloning)
  }

  predicate Succeeds(b: Build) {
    (b.warm.Some? || b.agent.clone) && b.agent.checkout && b.agent.exec && b.agent.collect
  }

  function AsDestroyed(row: Row): Row {
    row.(status := Destroyed)
  }

  function Executed(rows: Rows, b: Build): (Rows, Outcome) {
    var row := JobRow(rows, b);
    var left := rows[row.id := AsDestroyed(row)];
    var filled := Replenished(left, b, 0, Missing(left, b.template));
    (filled.rows, if Succeeds(b) && filled.ok then Built else Thrown)
  }

  class SandboxService {
    var rows: Rows

    constructor (initial: Rows)
      ensures rows == initial
    {
      rows := initial;
    }

    method Save(row: Row)
      modifies this
      ensures rows == old(rows)[row.id := row]
    {
      rows := rows[row.id := row];
    }

    /** The `try` block of a build; returns the row to destroy and whether every task succeeded. */
    method RunInSandbox(b: Build) returns (instanceRow: Row, ok: bool)
      requires Keyed(rows) && (b.warm.Some? ==> b.warm.value in rows)
      modifies this
      ensures instanceRow.(status := JobRow(old(rows), b).status) == JobRow(old(rows), b)
      ensures instanceRow.id == JobRow(old(rows), b).id
      ensures rows == old(rows)[instanceRow.id := instanceRow]
      ensures ok == Succeeds(b)
    {
      if b.warm.Some? {
        instanceRow := rows[b.warm.value].(runId := Some(b.runId), kind := Job, status := Running);
        Save(instanceRow);
      } else {
        instanceRow := Row(b.jobId, b.template.id, Some(b.runId), b.jobName, Job, Cloning);
        Save(instanceRow);
        if !b.agent.clone {
          return instanceRow, false;
        }
      }
      if !b.agent.checkout || !b.agent.exec {
        return instanceRow, false;
      }
      instanceRow := instanceRow.(status := Collecting);
      Save(instanceRow);
      ok := b.agent.collect;
    }

    method ReplenishWarmPool(b: Build) returns (ok: bool)
      modifies this
      ensures Filled(rows, ok) == Replenished(old(rows), b, 0, Missing(old(rows), b.template))
    {
      if b.template.warmPoolSize <= 0 {
        return true;
      }
      var idleWarm := |IdleWarm(rows, b.template.id)|;
      var index := idleWarm;
      while index < b.template.warmPoolSize
        invariant idleWarm <= index
        invariant index == idleWarm || index <= b.template.warmPoolSize
        invariant Replenished(rows, b, index - idleWarm,
                              if index < b.template.warmPoolSize then b.template.warmPoolSize - index else 0)
                  == Replenished(old(rows), b, 0, Missing(old(rows), b.template))
      {
        var k := index - idleWarm;
        var row := WarmRow(b, k, Cloning);
        ghost var before := rows;
        Save(row);
        if !b.agent.warmClone(k) {
          return false;
        }
        Save(row.(status := Idle));
        assert rows == before[b.warmId(k) := WarmRow(b, k, Idle)];
        index := index + 1;
      }
      return true;
    }

    /** A build past node resolution, with its `finally` block. */
    method ExecuteBuild(b: Build) returns (outcome: Outcome)
      requires Keyed(rows) && (b.warm.Some? ==> b.warm.value in rows)
      modifies this
      ensures (rows, outcome) == Executed(old(rows), b)
    {
      var instanceRow, built := RunInSandbox(b);
      Save(instanceRow.(status := Destroyed));
      assert rows == old(rows)[instanceRow.id := AsDestroyed(JobRow(old(rows), b))];
      var filled := ReplenishWarmPool(b);
      outcome := if built && filled then Built else Thrown;
    }
  }

  // ---- one build --------------------------------------------------------------------------

  lemma OneMoreIdle(rows: Rows, row: Row, parentId: string)
    requires row.id !in rows && IsIdleWarm(row, parentId)
    ensures |IdleWarm(rows[row.id := row], parentId)| == |IdleWarm(rows, parentId)| + 1
  {
    assert IdleWarm(rows[row.id := row], parentId) == IdleWarm(rows, parentId) + {row.id};
  }

  lemma SameIdle(rows: Rows, row: Row, parentId: string)
    requires row.id !in rows && !IsIdleWarm(row, parentId)
    ensures IdleWarm(rows[row.id := row], parentId) == IdleWarm(rows, parentId)
  {
  }

  /** The rows of a template whose clone failed while the pool was filled. */
  function Stuck(rows: Rows, parentId: string): set<string> {
    set id | id in rows && rows[id].kind == Warm && rows[id].status == Cloning && rows[id].parentId == parentId
  }

  ghost predicate NewFrom(rows: Rows, b: Build, k: nat) {
    && (forall j :: j >= k ==> b.warmId(j) !in rows)
    && (forall i, j :: i != j ==> b.warmId(i) != b.warmId(j))
  }

  /** The row of one of the clones a build makes for the pool: idle if the clone succeeded, else still cloning. */
  ghost predicate IsClone(row: Row, b: Build) {
    exists j :: && row.id == b.warmId(j)
                && row == Row(b.warmId(j), b.template.id, None, b.warmName(j), Warm,
                              if b.agent.warmClone(j) then Idle else Cloning)
  }

  /** Filling the pool only adds warm rows. */
  lemma {:induction false} ReplenishAdds(rows: Rows, b: Build, k: nat, missing: nat)
    requires NewFrom(rows, b, k)
    ensures var f := Replenished(rows, b, k, missing);
            && (forall id :: id in rows ==> id in f.rows && f.rows[id] == rows[id])
            && (forall id :: id in f.rows && id !in rows ==>
                  && f.rows[id].kind == Warm && f.rows[id].id == id && f.rows[id].parentId == b.template.id
                  && IsClone(f.rows[id], b))
            && (f.ok <==> forall j :: k <= j < k + missing ==> b.agent.warmClone(j))
    decreases missing
  {
    assert missing > 0 ==>
             IsClone(WarmRow(b, k, if b.agent.warmClone(k) then Idle else Cloning), b);
    if missing > 0 && b.agent.warmClone(k) {
      ReplenishAdds(rows[b.warmId(k) := WarmRow(b, k, Idle)], b, k + 1, missing - 1);
    }
  }

  lemma OneMoreStuck(rows: Rows, row: Row, parentId: string)
    requires row.id !in rows && row.kind == Warm && row.status == Cloning && row.parentId == parentId
    ensures |Stuck(rows[row.id := row], parentId)| == |Stuck(rows, parentId)| + 1
  {
    assert Stuck(rows[row.id := row], parentId) == Stuck(rows, parentId) + {row.id};
  }

  lemma SameStuck(rows: Rows, row: Row, parentId: string)
    requires row.id !in rows && row.status != Cloning
    ensures Stuck(rows[row.id := row], parentId) == Stuck(rows, parentId)
  {
  }

  /** It adds as many idle rows as are missing, or stops at the first failing clone and leaves that one stuck. */
  lemma {:induction false} ReplenishCounts(rows: Rows, b: Build, k: nat, missing: nat)
    requires NewFrom(rows, b, k)
    ensures var f, id := Replenished(rows, b, k, missing), b.template.id;
            && |IdleWarm(f.rows, id)| <= |IdleWarm(rows, id)| + missing
            && (f.ok ==> |IdleWarm(f.rows, id)| == |IdleWarm(rows, id)| + missing)
            && |Stuck(f.rows, id)| == |Stuck(rows, id)| + (if f.ok then 0 else 1)
    decreases missing
  {
    if missing > 0 {
      if b.agent.warmClone(k) {
        var row := WarmRow(b, k, Idle);
        OneMoreIdle(rows, row, b.template.id);
        SameStuck(rows, row, b.template.id);
        ReplenishCounts(rows[row.id := row], b, k + 1, missing - 1);
      } else {
        var row := WarmRow(b, k, Cloning);
        SameIdle(rows, row, b.template.id);
        OneMoreStuck(rows, row, b.template.id);
      }
    }
  }

  /** The idle rows a build starts from, less the one it takes. */
  function Remaining(rows: Rows, b: Build): nat {
    |IdleWarm(rows, b.template.id) - (if b.warm.Some? then {b.warm.value} else {})|
  }

  /** Every clone the pool needs to reach its size after the build succeeds. */
  ghost predicate PoolFills(rows: Rows, b: Build) {
    forall k :: 0 <= k < b.template.warmPoolSize - Remaining(rows, b) ==> b.agent.warmClone(k)
  }

  lemma LeftAfterJob(rows: Rows, b: Build)
    requires Keyed(rows) && Possible(rows, b)
    ensures var row := JobRow(rows, b);
            var left := rows[row.id := AsDestroyed(row)];
            && NewFrom(left, b, 0) && Keyed(left)
            && IdleWarm(left, b.template.id) ==
               IdleWarm(rows, b.template.id) - (if b.warm.Some? then {b.warm.value} else {})
            && Stuck(left, b.template.id) == Stuck(rows, b.template.id)
  {
    var row := JobRow(rows, b);
    var left := rows[row.id := AsDestroyed(row)];
    assert row.kind == Job;
    if b.warm.Some? {
      assert row.id == b.warm.value && IsIdleWarm(rows[row.id], b.template.id);
    }
    assert forall id :: id in left && id != row.id ==> id in rows && left[id] == rows[id];
    assert IdleWarm(left, b.template.id) == IdleWarm(rows, b.template.id) - {row.id};
    assert Stuck(left, b.template.id) == Stuck(rows, b.template.id);
  }

  /**
   * Whatever the agent does, a build leaves its own row destroyed and every other row as it was, adds only
   * warm rows, and fills the pool up to its size, or leaves it as it is when it is larger, exactly if no
   * clone it needs fails. It reports success exactly if the clone of its container, where no warm one was offered,
   * the checkout, the command and the collection succeed and those clones do.
   */
  lemma BuildLeavesNothingBehind(rows: Rows, b: Build)
    requires Keyed(rows) && Possible(rows, b)
    ensures var (rows', outcome) := Executed(rows, b);
            var own := JobRow(rows, b).id;
            && Keyed(rows') && rows.Keys + {own} <= rows'.Keys
            && rows'[own].kind == Job && rows'[own].status == Destroyed && rows'[own].runId == Some(b.runId)
            && (forall id :: id in rows && id != own ==> rows'[id] == rows[id])
            && (b.warm.Some? ==> own == b.warm.value && rows'[own].incusName == rows[own].incusName)
            && (b.warm.None? ==> own == b.jobId && rows'[own].incusName == b.jobName)
            && rows'[own].parentId == b.template.id
            && (forall id :: id in rows' && id !in rows && id != own ==>
                  rows'[id].kind == Warm && IsClone(rows'[id], b))
            && (outcome == Built <==>
                  && (b.warm.None? ==> b.agent.clone) && b.agent.checkout && b.agent.exec && b.agent.collect
                  && PoolFills(rows, b))
  {
    var row := JobRow(rows, b);
    var left := rows[row.id := AsDestroyed(row)];
    LeftAfterJob(rows, b);
    ReplenishAdds(left, b, 0, Missing(left, b.template));
  }

  function AtLeast(size: int, n: nat): nat {
    if size > n then size else n
  }

  /** After a build the pool holds the larger of its size and what was left, if the clones succeed; never more. */
  lemma PoolIsRefilled(rows: Rows, b: Build)
    requires Keyed(rows) && Possible(rows, b)
    ensures var rows' := Executed(rows, b).0;
            && (PoolFills(rows, b) ==>
                  |IdleWarm(rows', b.template.id)| == AtLeast(b.template.warmPoolSize, Remaining(rows, b)))
            && |IdleWarm(rows', b.template.id)| <= AtLeast(b.template.warmPoolSize, Remaining(rows, b))
            && |Stuck(rows', b.template.id)| == |Stuck(rows, b.template.id)| + (if PoolFills(rows, b) then 0 else 1)
  {
    var row := JobRow(rows, b);
    var left := rows[row.id := AsDestroyed(row)];
    LeftAfterJob(rows, b);
    ReplenishAdds(left, b, 0, Missing(left, b.template));
    ReplenishCounts(left, b, 0, Missing(left, b.template));
  }

  // ---- runs of builds ---------------------------------------------------------------------

  function After(rows: Rows, builds: seq<Build>): Rows {
    if builds == [] then rows else Executed(After(rows, builds[..|builds| - 1]), builds[|builds| - 1]).0
  }

  /** Every build of the series finds the rows its predecessors left. */
  ghost predicate Serial(rows: Rows, builds: seq<Build>) {
    builds == [] ||
    var rest := builds[..|builds| - 1];
    Serial(rows, rest) && Possible(After(rows, rest), builds[|builds| - 1])
  }

  /** How many builds of one template in a series could not fill its pool. */
  ghost function Unfilled(rows: Rows, builds: seq<Build>, parentId: string): nat {
    if builds == [] then 0
    else
      var rest, last := builds[..|builds| - 1], builds[|builds| - 1];
      Unfilled(rows, rest, parentId)
        + (if last.template.id == parentId && !PoolFills(After(rows, rest), last) then 1 else 0)
  }

  ghost predicate JobsDestroyed(rows: Rows) {
    forall id :: id in rows && rows[id].kind == Job ==> rows[id].status == Destroyed
  }

  /** A build leaves no other template's pool with more or fewer stuck rows. */
  lemma StuckElsewhere(rows: Rows, b: Build, parentId: string)
    requires Keyed(rows) && Possible(rows, b) && parentId != b.template.id
    ensures Stuck(Executed(rows, b).0, parentId) == Stuck(rows, parentId)
  {
    var row, rows' := JobRow(rows, b), Executed(rows, b).0;
    var left := rows[row.id := AsDestroyed(row)];
    BuildLeavesNothingBehind(rows, b);
    LeftAfterJob(rows, b);
    ReplenishAdds(left, b, 0, Missing(left, b.template));
    forall id ensures id in Stuck(rows', parentId) <==> id in Stuck(rows, parentId) {
      if id in rows && id == row.id {
        assert b.warm.Some? && IsIdleWarm(rows[id], b.template.id);
      }
    }
  }

  /**
   * However many builds of whatever templates run one after another and whatever the agents do, no job row is ever
   * left undestroyed, and each build that could not fill its template's pool leaves exactly one warm row of that
   * template stuck in cloning for good.
   */
  lemma {:induction false} SerialBuildsLeakNoJobs(rows: Rows, builds: seq<Build>, parentId: string)
    requires Keyed(rows) && JobsDestroyed(rows) && Serial(rows, builds)
    ensures Keyed(After(rows, builds)) && JobsDestroyed(After(rows, builds))
    ensures |Stuck(After(rows, builds), parentId)| == |Stuck(rows, parentId)| + Unfilled(rows, builds, parentId)
  {
    if builds != [] {
      var rest, last := builds[..|builds| - 1], builds[|builds| - 1];
      SerialBuildsLeakNoJobs(rows, rest, parentId);
      BuildLeavesNothingBehind(After(rows, rest), last);
      if last.template.id == parentId {
        PoolIsRefilled(After(rows, rest), last);
      } else {
        StuckElsewhere(After(rows, rest), last, parentId);
      }
    }
  }
}
