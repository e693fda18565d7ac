/** LeaderElection.renewLease with every round run alone: the lease table and timed exclusivity. */
module Leader {
  import opened Sequences

  datatype Lease = Lease(holder: string, expiresAt: int)

  /** The fields of one control plane instance; `promotions` counts calls of the promotion handler. */
  datatype Node = Node(isLeader: bool, leaderId: Option<string>, wasLeader: bool, promotions: nat)

  const IDLE: Node := Node(false, None, false, 0)

  predicate Expired(row: Option<Lease>, now: int) {
    row.None? || row.value.expiresAt <= now
  }

  function Elected(node: Node, me: string): Node {
    node.(isLeader := true, leaderId := Some(me))
  }

  /** The end of a round that neither created nor updated the row: what a final read decides. */
  function Followed(node: Node, me: string, current: Option<Lease>, now: int): Node {
    var leads := current.Some? && current.value.holder == me && current.value.expiresAt > now;
    Node(leads, Some(if current.Some? then current.value.holder else me), leads,
         if leads && !node.wasLeader then node.promotions + 1 else node.promotions)
  }

  /** A whole round with no other step in between. */
  function Round(row: Option<Lease>, node: Node, me: string, now: int, ttl: int): (Option<Lease>, Node) {
    if Expired(row, now) || row.value.holder == me then (Some(Lease(me, now + ttl)), Elected(node, me))
    else (row, Followed(node, me, row, now))
  }

  /** What other instances do to the row between two database calls of a round. */
  type Interference = Option<Lease> -> Option<Lease>

  /** A round whose write and final read meet the row as others have left it. */
  function RoundAmid(
    row: Option<Lease>, node: Node, me: string, now: int, ttl: int, before: Interference, after: Interference)
    : (Option<Lease>, Node)
  {
    var lease, met := Lease(me, now + ttl), before(row);
    if row.None? && met.None? then (Some(lease), Elected(node, me))
    else if row.Some? && met.Some?
            && (Expired(row, now) || (row.value.holder == me && met.value.holder == me)) then
      (Some(lease), Elected(node, me))
    else (after(met), Followed(node, me, after(met), now))
  }

  /** Undisturbed, that is the whole round. */
  lemma UndisturbedIsWhole(row: Option<Lease>, node: Node, me: string, now: int, ttl: int)
    ensures RoundAmid(row, node, me, now, ttl, r => r, r => r) == Round(row, node, me, now, ttl)
  {
  }

  class LeaseTable {
    var row: Option<Lease>

    constructor (initial: Option<Lease>)
      ensures row == initial
    {
      row := initial;
    }

    /** Other instances act on the row. */
    method Disturb(others: Interference)
      modifies this
      ensures row == others(old(row))
    {
      row := others(row);
    }

    /** Inserts the lease row; the primary key admits only one. */
    method Create(lease: Lease) returns (ok: bool)
      modifies this
      ensures ok == old(row).None?
      ensures row == if ok then Some(lease) else old(row)
    {
      ok := row.None?;
      if ok {
        row := Some(lease);
      }
    }

    /** Overwrites the row if it exists and, when `guard` is given, still names that holder. */
    method Update(lease: Lease, guard: Option<string>) returns (affected: nat)
      modifies this
      ensures affected == if old(row).Some? && (guard.None? || old(row).value.holder == guard.value) then 1 else 0
      ensures row == if affected > 0 then Some(lease) else old(row)
    {
      affected := 0;
      if row.Some? && (guard.None? || row.value.holder == guard.value) {
        row := Some(lease);
        affected := 1;
      }
    }
  }

  class LeaderElection {
    const instanceId: string
    const leaseTtlMs: int
    var isCurrentLeader: bool
    var leaderInstanceId: Option<string>
    var wasLeader: bool
    var promotions: nat

    constructor (id: string, ttl: int)
      ensures instanceId == id && leaseTtlMs == ttl && View() == IDLE
    {
      instanceId, leaseTtlMs := id, ttl;
      isCurrentLeader, leaderInstanceId, wasLeader, promotions := false, None, false, 0;
    }

    function View(): Node
      reads this
    {
      Node(isCurrentLeader, leaderInstanceId, wasLeader, promotions)
    }

    method RenewLease(table: LeaseTable, now: int, before: Interference, after: Interference)
      modifies this, table
      ensures (table.row, View())
              == RoundAmid(old(table.row), old(View()), instanceId, now, leaseTtlMs, before, after)
    {
      var lease := Lease(instanceId, now + leaseTtlMs);
      var existing := table.row;
      var leaseExpired := existing.None? || existing.value.expiresAt <= now;
      table.Disturb(before);
      if existing.None? {
        var ok := table.Create(lease);
        if ok {
          isCurrentLeader := true;
          leaderInstanceId := Some(instanceId);
          return;
        }
        isCurrentLeader := false;
      } else if leaseExpired || existing.value.holder == instanceId {
        var affected := table.Update(lease, if leaseExpired then None else Some(instanceId));
        if affected > 0 {
          isCurrentLeader := true;
          leaderInstanceId := Some(instanceId);
          return;
        }
      }
      table.Disturb(after);
      var current := table.row;
      isCurrentLeader := current.Some? && current.value.holder == instanceId && current.value.expiresAt > now;
      leaderInstanceId := Some(if current.Some? then current.value.holder else instanceId);
      if isCurrentLeader && !wasLeader {
        promotions := promotions + 1;
      }
      wasLeader := isCurrentLeader;
    }
  }

  // ---- timed runs -------------------------------------------------------------------------

  /** One round run by `me` at `now` on the shared clock. */
  datatype Tick = Tick(me: string, now: int)

  datatype Cluster = Cluster(row: Option<Lease>, nodes: map<string, Node>, lastRound: map<string, int>, clock: int)

  function NodeOf(nodes: map<string, Node>, me: string): Node {
    if me in nodes then nodes[me] else IDLE
  }

  function AfterTick(c: Cluster, tick: Tick, ttl: int): Cluster {
    var (row, node) := Round(c.row, NodeOf(c.nodes, tick.me), tick.me, tick.now, ttl);
    Cluster(row, c.nodes[tick.me := node], c.lastRound[tick.me := tick.now], tick.now)
  }

  /** A lease row left by an earlier process may exist; no instance leads yet. */
  function Started(row: Option<Lease>, clock: int): Cluster {
    Cluster(row, map[], map[], clock)
  }

  function AfterTicks(c: Cluster, ticks: seq<Tick>, ttl: int): Cluster {
    if ticks == [] then c else AfterTick(AfterTicks(c, ticks[..|ticks| - 1], ttl), ticks[|ticks| - 1], ttl)
  }

  /** The rounds come in clock order. */
  ghost predicate InOrder(c: Cluster, ticks: seq<Tick>) {
    && (forall i :: 0 <= i < |ticks| ==> c.clock <= ticks[i].now)
    && (forall i, j :: 0 <= i < j < |ticks| ==> ticks[i].now <= ticks[j].now)
  }

  predicate Leads(c: Cluster, me: string) {
    NodeOf(c.nodes, me).isLeader
  }

  /** A leader renewed less than one lease duration before `t`. */
  predicate Prompt(c: Cluster, me: string, t: int, ttl: int) {
    me in c.lastRound && t < c.lastRound[me] + ttl
  }

  /** A leader holds the row it wrote in its last round, or its lease ran out before now. */
  ghost predicate LeadersAccountedFor(c: Cluster, ttl: int) {
    forall i :: Leads(c, i) ==>
      && i in c.lastRound
      && c.row.Some?
      && (c.row.value == Lease(i, c.lastRound[i] + ttl) || c.lastRound[i] + ttl <= c.clock)
  }

  lemma {:induction false} TicksAccountFor(row: Option<Lease>, clock: int, ticks: seq<Tick>, ttl: int)
    requires InOrder(Started(row, clock), ticks)
    ensures LeadersAccountedFor(AfterTicks(Started(row, clock), ticks, ttl), ttl)
    ensures forall i :: 0 <= i < |ticks| ==> ticks[i].now <= AfterTicks(Started(row, clock), ticks, ttl).clock
    ensures ticks == [] ==> AfterTicks(Started(row, clock), ticks, ttl).clock == clock
    ensures ticks != [] ==> AfterTicks(Started(row, clock), ticks, ttl).clock == ticks[|ticks| - 1].now
    decreases |ticks|
  {
    if ticks != [] {
      var rest, last := ticks[..|ticks| - 1], ticks[|ticks| - 1];
      TicksAccountFor(row, clock, rest, ttl);
      var c := AfterTicks(Started(row, clock), rest, ttl);
      var c' := AfterTick(c, last, ttl);
      assert c.clock <= last.now;
      forall i | Leads(c', i) && i != last.me
        ensures i in c'.lastRound && c'.row.Some?
        ensures c'.row.value == Lease(i, c'.lastRound[i] + ttl) || c'.lastRound[i] + ttl <= c'.clock
      {
        assert Leads(c, i);
      }
    }
  }

  /**
   * Timed exclusivity. In every run of whole rounds in clock order, at every moment after the last round,
   * two instances can both believe they lead only if one of them has let a full lease duration pass since
   * its last round. A prompt leader is the one the row names, and its lease has not run out.
   */
  lemma AtMostOnePromptLeader(
    row: Option<Lease>, clock: int, ticks: seq<Tick>, ttl: int, t: int, i: string, j: string)
    requires InOrder(Started(row, clock), ticks)
    requires AfterTicks(Started(row, clock), ticks, ttl).clock <= t
    requires Leads(AfterTicks(Started(row, clock), ticks, ttl), i) &&
             Prompt(AfterTicks(Started(row, clock), ticks, ttl), i, t, ttl)
    requires Leads(AfterTicks(Started(row, clock), ticks, ttl), j) &&
             Prompt(AfterTicks(Started(row, clock), ticks, ttl), j, t, ttl)
    ensures i == j
    ensures var c := AfterTicks(Started(row, clock), ticks, ttl);
            c.row.Some? && c.row.value.holder == i && t < c.row.value.expiresAt
  {
    TicksAccountFor(row, clock, ticks, ttl);
  }

  /** The bound is tight: a leader exactly one lease duration late is overtaken and both believe they lead. */
  lemma LateLeaderIsOvertaken(c: Cluster, i: string, j: string, ttl: int)
    requires i != j && ttl > 0 && LeadersAccountedFor(c, ttl) && Leads(c, i)
    requires c.row.Some? && c.row.value.holder == i && i in c.lastRound && c.clock <= c.lastRound[i] + ttl
    requires c.row.value.expiresAt == c.lastRound[i] + ttl
    ensures Leads(AfterTick(c, Tick(j, c.lastRound[i] + ttl), ttl), i)
    ensures Leads(AfterTick(c, Tick(j, c.lastRound[i] + ttl), ttl), j)
    ensures !Leads(AfterTick(c, Tick(j, c.lastRound[i] + ttl - 1), ttl), j)
  {
  }

  /** Run alone, a round never calls the promotion handler, not even when it wins the lease. */
  lemma {:induction false} WholeRoundsNeverPromote(
    row: Option<Lease>, clock: int, ticks: seq<Tick>, ttl: int, me: string)
    ensures NodeOf(AfterTicks(Started(row, clock), ticks, ttl).nodes, me).promotions == 0
    decreases |ticks|
  {
    if ticks != [] {
      WholeRoundsNeverPromote(row, clock, ticks[..|ticks| - 1], ttl, me);
    }
  }

  /**
   * Everybody knows the leader. After any run of whole rounds an instance that has run a round believes to lead
   * exactly if it names itself as leader, and the last one to run a round names the holder of the row.
   */
  lemma {:induction false} LeadersAreNamed(row: Option<Lease>, clock: int, ticks: seq<Tick>, ttl: int, me: string)
    ensures var c := AfterTicks(Started(row, clock), ticks, ttl);
            && (me in c.nodes <==> exists i :: 0 <= i < |ticks| && ticks[i].me == me)
            && (me in c.nodes ==> c.nodes[me].leaderId.Some? && (Leads(c, me) <==> c.nodes[me].leaderId == Some(me)))
            && (ticks != [] && ticks[|ticks| - 1].me == me ==>
                  c.row.Some? && c.nodes[me].leaderId == Some(c.row.value.holder))
    decreases |ticks|
  {
    if ticks != [] {
      var rest, last := ticks[..|ticks| - 1], ticks[|ticks| - 1];
      LeadersAreNamed(row, clock, rest, ttl, me);
      assert (exists i :: 0 <= i < |ticks| && ticks[i].me == me) <==>
             last.me == me || exists i :: 0 <= i < |rest| && rest[i].me == me by {
        if i :| 0 <= i < |rest| && rest[i].me == me {
          assert ticks[i].me == me;
        }
        if i :| 0 <= i < |ticks| && ticks[i].me == me {
          assert i < |rest| ==> rest[i].me == me;
        }
        if last.me == me {
          assert ticks[|ticks| - 1].me == me;
        }
      }
    }
  }
}
