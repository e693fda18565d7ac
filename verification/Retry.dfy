/** InstanceReconcilerService: bounded retries with exponential backoff over serial polls. */
module Retry {
  import opened Sequences

  datatype Status = Pending | Running | Failed | Stopped

  datatype Row = Row(nodeId: string, status: Status, attempts: nat, lastDispatchedAt: Option<int>, updatedAt: int)

  datatype NodeStatus = Online | Offline | Draining

  datatype NodeInfo = NodeInfo(status: NodeStatus, hasAgentUrl: bool)

  datatype Settings = Settings(graceMs: nat, maxRetries: nat)

  function Power(n: nat): (p: nat)
    ensures p >= 1
  {
    if n == 0 then 1 else 2 * Power(n - 1)
  }

  function Doubled(ms: nat, times: nat): nat {
    if times == 0 then ms else 2 * Doubled(ms, times - 1)
  }

  lemma {:induction false} DoubledIsPower(ms: nat, times: nat)
    ensures Doubled(ms, times) == ms * Power(times)
  {
    if times > 0 {
      DoubledIsPower(ms, times - 1);
      assert 2 * (ms * Power(times - 1)) == ms * (2 * Power(times - 1));
    }
  }

  /** The wait before the next attempt: it doubles with each attempt, up to five times. */
  function BackoffMs(settings: Settings, attempts: nat): nat {
    Doubled(settings.graceMs, if attempts < 5 then attempts else 5)
  }

  predicate Retriable(status: Status) {
    status == Pending || status == Failed
  }

  predicate IsReconcileCandidate(settings: Settings, row: Row, nodes: map<string, NodeInfo>, now: int) {
    && Retriable(row.status)
    && row.attempts < settings.maxRetries
    && row.nodeId in nodes && nodes[row.nodeId].hasAgentUrl && nodes[row.nodeId].status != Offline
    && now - (if row.lastDispatchedAt.Some? then row.lastDispatchedAt.value else row.updatedAt)
         >= BackoffMs(settings, row.attempts)
  }

  /**
   * One poll as the outside world decides it: its start, the clock when an instance is taken up, the nodes,
   * where an instance on a lost node may move, whether a plan can be built for it, and whether the agent
   * accepts the plan.
   */
  datatype Poll = Poll(
    start: int, clock: string -> int, nodes: map<string, NodeInfo>, target: string -> Option<string>,
    planned: string -> bool, accepted: string -> bool)

  /** `maybeRescheduleFromUnreachableNode`: moves a stuck instance and keeps its attempts. */
  function Rescheduled(poll: Poll, id: string, row: Row): Row {
    if !Retriable(row.status) then row
    else if row.nodeId in poll.nodes && poll.nodes[row.nodeId].status == Online
            && poll.nodes[row.nodeId].hasAgentUrl then row
    else
      match poll.target(id)
      case None => row
      case Some(nodeId) => row.(nodeId := nodeId, status := Pending, updatedAt := poll.clock(id))
  }

  predicate Dispatches(settings: Settings, poll: Poll, id: string, row: Row) {
    && IsReconcileCandidate(settings, row, poll.nodes, poll.start)
    && IsReconcileCandidate(settings, row, poll.nodes, poll.clock(id))
    && poll.planned(id)
  }

  function Dispatched(poll: Poll, id: string, row: Row): Row {
    row.(status := if poll.accepted(id) then Pending else Failed, attempts := row.attempts + 1,
         lastDispatchedAt := Some(poll.clock(id)), updatedAt := poll.clock(id))
  }

  /** A stored row together with the times it has been dispatched at, oldest first. */
  datatype Life = Life(row: Row, history: seq<int>)

  function Moved(poll: Poll, id: string, life: Life): Life {
    life.(row := Rescheduled(poll, id, life.row))
  }

  function Sent(settings: Settings, poll: Poll, id: string, life: Life): Life {
    if Dispatches(settings, poll, id, life.row) then
      Life(Dispatched(poll, id, life.row), life.history + [poll.clock(id)])
    else life
  }

  /** What a poll makes of one instance. */
  function Polled(settings: Settings, poll: Poll, id: string, life: Life): Life {
    Sent(settings, poll, id, Moved(poll, id, life))
  }

  /** `before` with the listed ids taken from `after`. */
  ghost function Switched<V>(before: map<string, V>, after: map<string, V>, ids: seq<string>): map<string, V>
    requires before.Keys == after.Keys
  {
    map id | id in before :: if id in ids then after[id] else before[id]
  }

  lemma SwitchedSnoc<V>(before: map<string, V>, after: map<string, V>, ids: seq<string>, k: nat)
    requires before.Keys == after.Keys && k < |ids| && ids[k] in before
    ensures Switched(before, after, ids[..k + 1]) == Switched(before, after, ids[..k])[ids[k] := after[ids[k]]]
  {
    assert ids[..k + 1] == ids[..k] + [ids[k]];
  }

  lemma SwitchedAll<V>(before: map<string, V>, after: map<string, V>, ids: seq<string>)
    requires before.Keys == after.Keys == Elements(ids)
    ensures Switched(before, after, ids[..|ids|]) == after
  {
    assert ids[..|ids|] == ids;
    assert forall id :: id in after ==> id in Elements(ids);
  }

  class InstanceReconciler {
    const settings: Settings
    var instances: map<string, Life>

    constructor (settings: Settings, rows: map<string, Row>)
      ensures this.settings == settings
      ensures instances == map id | id in rows :: Life(rows[id], [])
    {
      this.settings := settings;
      instances := map id | id in rows :: Life(rows[id], []);
    }

    method MaybeReschedule(id: string, poll: Poll)
      requires id in instances
      modifies this
      ensures instances == old(instances)[id := Moved(poll, id, old(instances)[id])]
    {
      var row := instances[id].row;
      if !Retriable(row.status) {
        return;
      }
      if row.nodeId in poll.nodes && poll.nodes[row.nodeId].status == Online && poll.nodes[row.nodeId].hasAgentUrl {
        return;
      }
      var target := poll.target(id);
      if target.None? {
        return;
      }
      var moved := row.(nodeId := target.value, status := Pending, updatedAt := poll.clock(id));
      instances := instances[id := instances[id].(row := moved)];
    }

    /** Dispatches one instance if it is still a candidate when it is taken up. */
    method ReconcileInstance(id: string, poll: Poll)
      requires id in instances
      modifies this
      ensures var life := old(instances)[id];
              instances == old(instances)[id :=
                if IsReconcileCandidate(settings, life.row, poll.nodes, poll.clock(id)) && poll.planned(id)
                then Life(Dispatched(poll, id, life.row), life.history + [poll.clock(id)]) else life]
    {
      var life := instances[id];
      if !IsReconcileCandidate(settings, life.row, poll.nodes, poll.clock(id)) || !poll.planned(id) {
        return;
      }
      instances := instances[id := Life(Dispatched(poll, id, life.row), life.history + [poll.clock(id)])];
    }

    method RescheduleAll(ids: seq<string>, poll: Poll)
      requires Distinct(ids) && Elements(ids) == instances.Keys
      modifies this
      ensures instances == map id | id in old(instances) :: Moved(poll, id, old(instances)[id])
    {
      ghost var after := map id | id in instances :: Moved(poll, id, instances[id]);
      for k := 0 to |ids|
        invariant instances == Switched(old(instances), after, ids[..k])
      {
        assert ids[k] in Elements(ids) && ids[k] !in ids[..k];
        SwitchedSnoc(old(instances), after, ids, k);
        MaybeReschedule(ids[k], poll);
      }
      SwitchedAll(old(instances), after, ids);
    }

    /** The body of the dispatch loop. */
    method DispatchOne(id: string, poll: Poll)
      requires id in instances
      modifies this
      ensures instances == old(instances)[id := Sent(settings, poll, id, old(instances)[id])]
    {
      if !IsReconcileCandidate(settings, instances[id].row, poll.nodes, poll.start) {
        return;
      }
      ReconcileInstance(id, poll);
    }

    method DispatchAll(ids: seq<string>, poll: Poll)
      requires Distinct(ids) && Elements(ids) == instances.Keys
      modifies this
      ensures instances == map id | id in old(instances) :: Sent(settings, poll, id, old(instances)[id])
    {
      ghost var after := map id | id in instances :: Sent(settings, poll, id, instances[id]);
      for k := 0 to |ids|
        invariant instances == Switched(old(instances), after, ids[..k])
      {
        assert ids[k] in Elements(ids) && ids[k] !in ids[..k];
        SwitchedSnoc(old(instances), after, ids, k);
        DispatchOne(ids[k], poll);
      }
      SwitchedAll(old(instances), after, ids);
    }

    /** One poll over every row, in the order the store lists them. */
    method ReconcileAll(ids: seq<string>, poll: Poll)
      requires Distinct(ids) && Elements(ids) == instances.Keys
      modifies this
      ensures instances == map id | id in old(instances) :: Polled(settings, poll, id, old(instances)[id])
    {
      RescheduleAll(ids, poll);
      DispatchAll(ids, poll);
    }
  }

  // ---- the life of one row ----------------------------------------------------------------

  /** Between polls agents may report any status at any time and the row may move to any node. */
  datatype Event = Polling(poll: Poll) | Drift(nodeId: string, status: Status, updatedAt: int)

  function Next(settings: Settings, id: string, life: Life, e: Event): Life {
    match e
    case Drift(nodeId, status, updatedAt) =>
      life.(row := life.row.(nodeId := nodeId, status := status, updatedAt := updatedAt))
    case Polling(poll) => Polled(settings, poll, id, life)
  }

  function After(settings: Settings, id: string, row: Row, events: seq<Event>): Life {
    if events == [] then Life(row, [])
    else Next(settings, id, After(settings, id, row, events[..|events| - 1]), events[|events| - 1])
  }

  /** The `k`-th dispatch of the row waits for the backoff after the one before it. */
  ghost predicate Spaced(settings: Settings, first: nat, history: seq<int>) {
    forall k :: 0 < k < |history| ==> history[k] - history[k - 1] >= BackoffMs(settings, first + k)
  }

  lemma {:induction false} LifeOf(settings: Settings, id: string, row: Row, events: seq<Event>)
    ensures var life := After(settings, id, row, events);
            && life.row.attempts == row.attempts + |life.history|
            && (life.history != [] ==> life.row.lastDispatchedAt == Some(life.history[|life.history| - 1]))
            && (life.history == [] ==> life.row.lastDispatchedAt == row.lastDispatchedAt)
            && (life.history != [] ==> life.row.attempts <= settings.maxRetries)
            && Spaced(settings, row.attempts, life.history)
  {
    if events != [] {
      LifeOf(settings, id, row, events[..|events| - 1]);
    }
  }

  /**
   * Whatever agents report and wherever the row moves, unforced polls dispatch one row at most as often as it
   * has retries left.
   */
  lemma RetriesAreBounded(settings: Settings, id: string, row: Row, events: seq<Event>)
    ensures |After(settings, id, row, events).history|
            <= if row.attempts < settings.maxRetries then settings.maxRetries - row.attempts else 0
  {
    LifeOf(settings, id, row, events);
  }

  /** The least time between the first and the `k`-th later dispatch of a fresh row. */
  function LeastDelay(settings: Settings, k: nat): nat {
    if k == 0 then 0 else LeastDelay(settings, k - 1) + BackoffMs(settings, k)
  }

  lemma {:induction false} EarlyDelay(settings: Settings, k: nat)
    requires k <= 5
    ensures LeastDelay(settings, k) == Doubled(settings.graceMs, k + 1) - 2 * settings.graceMs
  {
    if k > 0 {
      EarlyDelay(settings, k - 1);
    }
  }

  lemma FirstPowers()
    ensures Power(5) == 32 && Power(6) == 64
  {
    assert Power(2) == 4 && Power(3) == 8 && Power(4) == 16;
  }

  lemma {:induction false} LateDelay(settings: Settings, k: nat)
    requires k >= 5
    ensures LeastDelay(settings, k) == settings.graceMs * (62 + 32 * (k - 5))
  {
    var g := settings.graceMs;
    FirstPowers();
    if k == 5 {
      EarlyDelay(settings, 5);
      DoubledIsPower(g, 6);
      Distribute(g, 64, -2);
    } else {
      LateDelay(settings, k - 1);
      DoubledIsPower(g, 5);
      Distribute(g, 62 + 32 * (k - 6), 32);
    }
  }

  /** The sum of the backoffs in closed form. */
  lemma DelayClosedForm(settings: Settings, k: nat)
    ensures k <= 5 ==> LeastDelay(settings, k) == settings.graceMs * (Power(k + 1) - 2)
    ensures k > 5 ==> LeastDelay(settings, k) == settings.graceMs * (62 + 32 * (k - 5))
  {
    if k <= 5 {
      EarlyDelay(settings, k);
      DoubledIsPower(settings.graceMs, k + 1);
      Distribute(settings.graceMs, Power(k + 1), -2);
    } else {
      LateDelay(settings, k);
    }
  }

  lemma Distribute(g: nat, a: int, b: int)
    ensures g * a + g * b == g * (a + b)
  {
  }

  lemma {:induction false} DelayedBy(settings: Settings, history: seq<int>, k: nat)
    requires Spaced(settings, 0, history) && k < |history|
    ensures history[k] - history[0] >= LeastDelay(settings, k)
  {
    if k > 0 {
      DelayedBy(settings, history, k - 1);
    }
  }

  /**
   * From a fresh row, re-dispatch `k` comes at least grace * (2^(k+1) - 2) milliseconds after the first one for
   * k up to 5, and grows by 32 graces per attempt from there on.
   */
  lemma RetriesAreSpaced(settings: Settings, id: string, row: Row, events: seq<Event>, k: nat)
    requires row.attempts == 0 && k < |After(settings, id, row, events).history|
    ensures var h := After(settings, id, row, events).history;
            && (k <= 5 ==> h[k] - h[0] >= settings.graceMs * (Power(k + 1) - 2))
            && (k > 5 ==> h[k] - h[0] >= settings.graceMs * (62 + 32 * (k - 5)))
  {
    LifeOf(settings, id, row, events);
    DelayedBy(settings, After(settings, id, row, events).history, k);
    DelayClosedForm(settings, k);
  }

  /** A row out of retries may still be moved to a healthy node, but nothing is ever sent there. */
  lemma {:induction false} ExhaustedIsNeverSent(settings: Settings, id: string, row: Row, events: seq<Event>)
    requires row.attempts >= settings.maxRetries
    ensures After(settings, id, row, events).history == []
  {
    RetriesAreBounded(settings, id, row, events);
  }

  // ---- who is dispatched ------------------------------------------------------------------

  /** The node of a row is known, online and has an agent. */
  predicate Reachable(row: Row, nodes: map<string, NodeInfo>) {
    row.nodeId in nodes && nodes[row.nodeId].status == Online && nodes[row.nodeId].hasAgentUrl
  }

  /** The poll moves the row off a lost node. */
  predicate IsMoved(poll: Poll, id: string, row: Row) {
    (row.status == Pending || row.status == Failed) && !Reachable(row, poll.nodes) && poll.target(id).Some?
  }

  /** How many graces a row waits after so many attempts. */
  function Graces(attempts: nat): nat {
    if attempts == 0 then 1 else if attempts == 1 then 2 else if attempts == 2 then 4
    else if attempts == 3 then 8 else if attempts == 4 then 16 else 32
  }

  lemma BackoffIsGraces(settings: Settings, attempts: nat)
    ensures BackoffMs(settings, attempts) == Graces(attempts) * settings.graceMs
  {
    var g := settings.graceMs;
    assert Doubled(g, 1) == 2 * g;
    assert Doubled(g, 2) == 4 * g;
    assert Doubled(g, 3) == 8 * g;
    assert Doubled(g, 4) == 16 * g;
    assert Doubled(g, 5) == 32 * g;
  }

  /**
   * When a poll dispatches a row. After any move off a lost node, it does exactly if the row is pending or failed,
   * has attempts left, sits on a listed node that has an agent and is not offline, has waited its backoff both at
   * the poll's start and when it is taken up, and a plan can be built for it. The wait counts from the last dispatch,
   * and before the first one from the last update. A dispatch counts one attempt whether or not the agent accepts.
   */
  lemma PollDispatchesIff(settings: Settings, poll: Poll, id: string, life: Life)
    ensures var row, moved := life.row, IsMoved(poll, id, life.row);
            var home := if moved then poll.target(id).value else row.nodeId;
            var since := if row.lastDispatchedAt.Some? then row.lastDispatchedAt.value
                         else if moved then poll.clock(id) else row.updatedAt;
            var after := Polled(settings, poll, id, life);
            && (after.history == life.history + [poll.clock(id)] <==>
                  && (row.status == Pending || row.status == Failed)
                  && row.attempts < settings.maxRetries
                  && home in poll.nodes && poll.nodes[home].hasAgentUrl && poll.nodes[home].status != Offline
                  && poll.start - since >= Graces(row.attempts) * settings.graceMs
                  && poll.clock(id) - since >= Graces(row.attempts) * settings.graceMs
                  && poll.planned(id))
            && (after.history == life.history + [poll.clock(id)] ==>
                  after.row == Row(home, if poll.accepted(id) then Pending else Failed, row.attempts + 1,
                                   Some(poll.clock(id)), poll.clock(id)))
            && (after.history != life.history + [poll.clock(id)] ==>
                  && after.history == life.history
                  && after.row == if moved then row.(nodeId := home, status := Pending, updatedAt := poll.clock(id))
                                  else row)
  {
    BackoffIsGraces(settings, life.row.attempts);
    assert |life.history + [poll.clock(id)]| == |life.history| + 1;
  }

  /** The row is running or stopped whenever a poll looks at it. */
  ghost predicate HealthyAtPolls(settings: Settings, id: string, row: Row, events: seq<Event>) {
    events == [] ||
    var rest, last := events[..|events| - 1], events[|events| - 1];
    && HealthyAtPolls(settings, id, row, rest)
    && (last.Polling? ==>
          var status := After(settings, id, row, rest).row.status;
          status == Running || status == Stopped)
  }

  /** Healthy instances are left alone: a row that is running or stopped at every poll is never dispatched. */
  lemma {:induction false} HealthyIsLeftAlone(settings: Settings, id: string, row: Row, events: seq<Event>)
    requires HealthyAtPolls(settings, id, row, events)
    ensures After(settings, id, row, events).history == []
    ensures After(settings, id, row, events).row.attempts == row.attempts
  {
    if events != [] {
      var rest, last := events[..|events| - 1], events[|events| - 1];
      HealthyIsLeftAlone(settings, id, row, rest);
      if last.Polling? {
        PollDispatchesIff(settings, last.poll, id, After(settings, id, row, rest));
      }
    }
  }

  /**
   * Retries do happen. A row on a reachable node that is pending or failed, has attempts left and has waited long
   * enough is dispatched by the poll if a plan can be built, from any state of its history.
   */
  lemma DueIsDispatched(settings: Settings, poll: Poll, id: string, life: Life)
    requires (life.row.status == Pending || life.row.status == Failed) && Reachable(life.row, poll.nodes)
    requires life.row.attempts < settings.maxRetries && poll.planned(id)
    requires var since := if life.row.lastDispatchedAt.Some? then life.row.lastDispatchedAt.value
                          else life.row.updatedAt;
             && poll.start >= since + Graces(life.row.attempts) * settings.graceMs
             && poll.clock(id) >= since + Graces(life.row.attempts) * settings.graceMs
    ensures Polled(settings, poll, id, life).history == life.history + [poll.clock(id)]
  {
    PollDispatchesIff(settings, poll, id, life);
  }
}
