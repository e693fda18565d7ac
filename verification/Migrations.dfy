/** MigrationRunner.run on any number of nodes sharing one database and its advisory lock. */
module Migrations {
  import opened Sequences

  // ---- one run ----------------------------------------------------------------------------

  function Unrecorded(recorded: set<string>): string -> bool {
    (name: string) => name !in recorded
  }

  lemma OneMoreName(names: seq<string>, i: nat, recorded: set<string>)
    requires Distinct(names) && i < |names|
    ensures names[..i + 1] == names[..i] + [names[i]] && names[i] !in names[..i]
    ensures Elements(names[..i + 1]) == Elements(names[..i]) + {names[i]}
    ensures Filter(names[..i + 1], Unrecorded(recorded)) ==
            Filter(names[..i], Unrecorded(recorded)) + (if names[i] in recorded then [] else [names[i]])
  {
    FilterConcat(names[..i], [names[i]], Unrecorded(recorded));
    FilterOne(names[i], Unrecorded(recorded));
    assert names[..i + 1] == names[..i] + [names[i]];
  }

  predicate HasPendingMigrations(names: seq<string>, recorded: set<string>) {
    exists name :: name in names && name !in recorded
  }

  /** The database as migrations see it: the scripts executed so far and the rows of `schema_migrations`. */
  class Database {
    var executed: seq<string>
    var recorded: set<string>

    constructor ()
      ensures executed == [] && recorded == {}
    {
      executed, recorded := [], {};
    }

    /** One undisturbed pass over the sorted migration names. */
    method ApplySqlMigrations(names: seq<string>) returns (applied: seq<string>)
      requires Distinct(names)
      modifies this
      ensures executed == old(executed) + Filter(names, Unrecorded(old(recorded)))
      ensures recorded == old(recorded) + Elements(names)
      ensures applied == names
      ensures !HasPendingMigrations(names, recorded) && forall name :: name in names ==> name in recorded
    {
      applied := [];
      for i := 0 to |names|
        invariant executed == old(executed) + Filter(names[..i], Unrecorded(old(recorded)))
        invariant recorded == old(recorded) + Elements(names[..i])
        invariant applied == names[..i]
      {
        var migrationName := names[i];
        OneMoreName(names, i, old(recorded));
        if migrationName in recorded {
          applied := applied + [migrationName];
          continue;
        }
        executed := executed + [migrationName];
        recorded := recorded + {migrationName};
        applied := applied + [migrationName];
      }
      assert names[..|names|] == names;
    }
  }

  // ---- many nodes -------------------------------------------------------------------------

  /** Where a node's call of `run` stands; the number is the position in the sorted list. */
  datatype Phase =
    | Waiting
    | Holding(next: nat)
    | Missing(next: nat)
    | Executed(next: nat)
    | Returned
    | Stopped

  /**
   * `lost` counts the scripts that ran but whose row was never written because the node failed in between.
   */
  datatype System = System(
    lock: Option<nat>, recorded: set<string>, log: seq<string>, lost: multiset<string>, nodes: map<nat, Phase>)

  datatype Event =
    | Call(node: nat)
    | Acquire(node: nat)
    | Look(node: nat)
    | Execute(node: nat)
    | Record(node: nat)
    | Release(node: nat)
    | Fail(node: nat)

  function PhaseOf(s: System, node: nat): Phase {
    if node in s.nodes then s.nodes[node] else Returned
  }

  function To(s: System, node: nat, phase: Phase): System {
    s.(nodes := s.nodes[node := phase])
  }

  predicate Critical(phase: Phase) {
    phase.Holding? || phase.Missing? || phase.Executed?
  }

  /** One database or local step of one node; a step that is not enabled changes nothing. */
  function Next(names: seq<string>, s: System, e: Event): System {
    var phase := PhaseOf(s, e.node);
    match e
    case Call(n) => if phase.Returned? || phase.Stopped? then To(s, n, Waiting) else s
    case Acquire(n) => if phase.Waiting? && s.lock.None? then To(s.(lock := Some(n)), n, Holding(0)) else s
    case Look(n) =>
      if phase.Holding? && phase.next < |names| then
        To(s, n, if names[phase.next] in s.recorded then Holding(phase.next + 1) else Missing(phase.next))
      else s
    case Execute(n) =>
      if phase.Missing? && phase.next < |names| then
        To(s.(log := s.log + [names[phase.next]]), n, Executed(phase.next))
      else s
    case Record(n) =>
      if phase.Executed? && phase.next < |names| then
        To(s.(recorded := s.recorded + {names[phase.next]}), n, Holding(phase.next + 1))
      else s
    case Release(n) =>
      if phase.Holding? && phase.next >= |names| then To(s.(lock := None), n, Returned) else s
    case Fail(n) =>
      if phase.Waiting? then To(s, n, Stopped)
      else if Critical(phase) then
        To(s.(lock := None,
              lost := if phase.Executed? && phase.next < |names| then s.lost + multiset{names[phase.next]} else s.lost),
           n, Stopped)
      else s
  }

  function After(names: seq<string>, s: System, events: seq<Event>): System {
    if events == [] then s else Next(names, After(names, s, events[..|events| - 1]), events[|events| - 1])
  }

  /** A database with some migrations already recorded, before any node starts. */
  function Initial(recorded: set<string>): System {
    System(None, recorded, [], multiset{}, map[])
  }

  // ---- the executed scripts ---------------------------------------------------------------

  /** The script a node has run without having written its row yet. */
  function InFlight(names: seq<string>, s: System): Option<string> {
    if s.lock.Some? && PhaseOf(s, s.lock.value).Executed? && PhaseOf(s, s.lock.value).next < |names| then
      Some(names[PhaseOf(s, s.lock.value).next])
    else None
  }

  /** How often a script must have run: once if recorded since the start, once per lost row, once if in flight. */
  function RunsOf(names: seq<string>, s: System, before: set<string>): string -> nat {
    (name: string) =>
      (if name in s.recorded && name !in before then 1 else 0) + s.lost[name]
        + (if InFlight(names, s) == Some(name) then 1 else 0)
  }

  function Repeated(name: string, count: nat): (r: seq<string>)
    ensures |r| == count && forall x :: x in r ==> x == name
  {
    seq(count, _ => name)
  }

  /** Each name in order, repeated as often as `runs` says. */
  function Expanded(names: seq<string>, runs: string -> nat): seq<string> {
    if names == [] then [] else Repeated(names[0], runs(names[0])) + Expanded(names[1..], runs)
  }

  lemma {:induction false} ExpandedAlike(names: seq<string>, f: string -> nat, g: string -> nat)
    requires forall n :: n in names ==> f(n) == g(n)
    ensures Expanded(names, f) == Expanded(names, g)
  {
    if names != [] {
      ExpandedAlike(names[1..], f, g);
    }
  }

  lemma {:induction false} ExpandedNone(names: seq<string>, f: string -> nat)
    requires forall n :: n in names ==> f(n) == 0
    ensures Expanded(names, f) == []
  {
    if names != [] {
      ExpandedNone(names[1..], f);
    }
  }

  /** One more run of the last script that has run, or of a later one, is appended to the log. */
  lemma {:induction false} ExpandedAppend(names: seq<string>, k: nat, f: string -> nat, g: string -> nat)
    requires Distinct(names) && k < |names|
    requires forall i :: k < i < |names| ==> f(names[i]) == 0
    requires g(names[k]) == f(names[k]) + 1
    requires forall i :: 0 <= i < |names| && i != k ==> g(names[i]) == f(names[i])
    ensures Expanded(names, g) == Expanded(names, f) + [names[k]]
    decreases k
  {
    var name, rest := names[0], names[1..];
    if k == 0 {
      ExpandedNone(rest, f);
      ExpandedNone(rest, g);
      assert Repeated(name, g(name)) == Repeated(name, f(name)) + [name];
    } else {
      ExpandedAppend(rest, k - 1, f, g);
      assert Repeated(name, f(name)) + (Expanded(rest, f) + [names[k]])
          == Repeated(name, f(name)) + Expanded(rest, f) + [names[k]];
    }
  }

  ghost predicate Exclusive(s: System) {
    forall n :: n in s.nodes && Critical(s.nodes[n]) ==> s.lock == Some(n)
  }

  /** A node that got as far as `next` has found or made everything before it recorded. */
  ghost predicate Progressed(names: seq<string>, s: System) {
    forall n, j :: n in s.nodes && Critical(s.nodes[n]) && 0 <= j < s.nodes[n].next && j < |names| ==>
      names[j] in s.recorded
  }

  ghost predicate Positioned(names: seq<string>, s: System) {
    && (s.lock.Some? ==> s.lock.value in s.nodes && Critical(s.nodes[s.lock.value]))
    && (forall n :: n in s.nodes && (s.nodes[n].Missing? || s.nodes[n].Executed?) ==>
          s.nodes[n].next < |names| && names[s.nodes[n].next] !in s.recorded)
  }

  /** Everything in front of a script that has run is recorded. */
  ghost predicate Downward(names: seq<string>, s: System, before: set<string>) {
    forall j, m :: 0 <= j < m < |names| && RunsOf(names, s, before)(names[m]) > 0 ==> names[j] in s.recorded
  }

  ghost predicate Logged(names: seq<string>, s: System, before: set<string>) {
    s.log == Expanded(names, RunsOf(names, s, before))
  }

  ghost predicate Safe(names: seq<string>, s: System, before: set<string>) {
    && before <= s.recorded
    && Exclusive(s) && Progressed(names, s) && Positioned(names, s)
    && Downward(names, s, before) && Logged(names, s, before)
  }

  lemma SameRunsSafe(names: seq<string>, s: System, t: System, before: set<string>)
    requires Downward(names, s, before) && Logged(names, s, before)
    requires s.recorded <= t.recorded && t.log == s.log
    requires forall n :: n in names ==> RunsOf(names, t, before)(n) == RunsOf(names, s, before)(n)
    ensures Downward(names, t, before) && Logged(names, t, before)
  {
    ExpandedAlike(names, RunsOf(names, s, before), RunsOf(names, t, before));
  }

  lemma ExecuteSafe(names: seq<string>, s: System, n: nat, before: set<string>)
    requires Distinct(names) && Safe(names, s, before)
    requires PhaseOf(s, n).Missing?
    ensures Safe(names, Next(names, s, Execute(n)), before)
  {
    var t, k := Next(names, s, Execute(n)), PhaseOf(s, n).next;
    var f, g := RunsOf(names, s, before), RunsOf(names, t, before);
    forall i | k < i < |names|
      ensures f(names[i]) == 0
    {
      assert names[k] !in s.recorded;
    }
    assert InFlight(names, s) == None && InFlight(names, t) == Some(names[k]);
    forall i | 0 <= i < |names| && i != k
      ensures g(names[i]) == f(names[i])
    {
      assert names[i] != names[k];
    }
    ExpandedAppend(names, k, f, g);
    forall j, m | 0 <= j < m < |names| && g(names[m]) > 0
      ensures names[j] in t.recorded
    {
      if m == k {
        assert s.nodes[n].next == k;
      } else {
        assert f(names[m]) > 0;
      }
    }
  }

  lemma RecordSafe(names: seq<string>, s: System, n: nat, before: set<string>)
    requires Distinct(names) && Safe(names, s, before)
    requires PhaseOf(s, n).Executed?
    ensures Safe(names, Next(names, s, Record(n)), before)
  {
    var t := Next(names, s, Record(n));
    assert InFlight(names, s) == Some(names[PhaseOf(s, n).next]) && InFlight(names, t) == None;
    SameRunsSafe(names, s, t, before);
  }

  /** Which node is where stays consistent under the steps that run and record nothing. */
  ghost predicate Placed(names: seq<string>, s: System) {
    Exclusive(s) && Progressed(names, s) && Positioned(names, s)
  }

  lemma LookPlaced(names: seq<string>, s: System, n: nat)
    requires Placed(names, s)
    ensures Placed(names, Next(names, s, Look(n)))
    ensures InFlight(names, Next(names, s, Look(n))) == InFlight(names, s)
  {
  }

  lemma LockPlaced(names: seq<string>, s: System, e: Event)
    requires Placed(names, s) && (e.Call? || e.Acquire? || e.Release?)
    ensures Placed(names, Next(names, s, e))
    ensures InFlight(names, Next(names, s, e)) == InFlight(names, s)
  {
  }

  lemma FailPlaced(names: seq<string>, s: System, n: nat)
    requires Placed(names, s)
    ensures Placed(names, Next(names, s, Fail(n)))
    ensures var t := Next(names, s, Fail(n));
            if PhaseOf(s, n).Executed? then
              && InFlight(names, s) == Some(names[PhaseOf(s, n).next]) && InFlight(names, t) == None
              && t.lost == s.lost + multiset{names[PhaseOf(s, n).next]}
            else InFlight(names, t) == InFlight(names, s) && t.lost == s.lost
  {
  }

  lemma StepSafe(names: seq<string>, s: System, e: Event, before: set<string>)
    requires Distinct(names) && Safe(names, s, before)
    ensures Safe(names, Next(names, s, e), before)
    ensures s.recorded <= Next(names, s, e).recorded
  {
    match e
    case Execute(n) =>
      if PhaseOf(s, n).Missing? {
        ExecuteSafe(names, s, n, before);
      }
    case Record(n) =>
      if PhaseOf(s, n).Executed? {
        RecordSafe(names, s, n, before);
      }
    case Look(n) =>
      LookPlaced(names, s, n);
      SameRunsSafe(names, s, Next(names, s, e), before);
    case Fail(n) =>
      FailPlaced(names, s, n);
      SameRunsSafe(names, s, Next(names, s, e), before);
    case _ =>
      LockPlaced(names, s, e);
      SameRunsSafe(names, s, Next(names, s, e), before);
  }

  /** A node returns only when everything is recorded, and rows are never deleted. */
  ghost predicate ReturnedMeansDone(names: seq<string>, s: System) {
    forall n :: n in s.nodes && s.nodes[n].Returned? ==> !HasPendingMigrations(names, s.recorded)
  }

  lemma StepReturns(names: seq<string>, s: System, e: Event)
    requires Progressed(names, s) && ReturnedMeansDone(names, s)
    ensures ReturnedMeansDone(names, Next(names, s, e))
  {
  }

  lemma {:induction false} RunSafe(names: seq<string>, before: set<string>, events: seq<Event>)
    requires Distinct(names)
    ensures Safe(names, After(names, Initial(before), events), before)
    ensures ReturnedMeansDone(names, After(names, Initial(before), events))
    decreases |events|
  {
    if events == [] {
      ExpandedNone(names, RunsOf(names, Initial(before), before));
    } else {
      var rest, last := events[..|events| - 1], events[|events| - 1];
      RunSafe(names, before, rest);
      StepSafe(names, After(names, Initial(before), rest), last, before);
      StepReturns(names, After(names, Initial(before), rest), last);
    }
  }

  /**
   * In every interleaving, with nodes failing anywhere, the executed scripts are the sorted list with each
   * script repeated once per row written since the start, once per row lost to a failure between running
   * and recording it, and once more while it waits for its row.
   */
  lemma ScriptsRunInOrder(names: seq<string>, before: set<string>, events: seq<Event>)
    requires Distinct(names)
    ensures var s := After(names, Initial(before), events);
            s.log == Expanded(names, RunsOf(names, s, before))
  {
    RunSafe(names, before, events);
  }

  lemma {:induction false} ExpandedOnce(names: seq<string>, p: string -> bool, runs: string -> nat)
    requires forall n :: n in names ==> runs(n) == if p(n) then 1 else 0
    ensures Expanded(names, runs) == Filter(names, p)
  {
    if names != [] {
      ExpandedOnce(names[1..], p, runs);
    }
  }

  /**
   * Once any node's `run` has returned nothing is pending; and if no row was lost and no script is waiting for its row,
   * exactly the scripts that were missing at the start have run, once each and in sorted order.
   */
  lemma EachMissingScriptOnce(names: seq<string>, before: set<string>, events: seq<Event>, node: nat)
    requires Distinct(names)
    requires node in After(names, Initial(before), events).nodes
             && After(names, Initial(before), events).nodes[node].Returned?
    ensures var s := After(names, Initial(before), events);
            && (forall name :: name in names ==> name in s.recorded)
            && InFlight(names, s) == None
            && (s.lost == multiset{} ==> s.log == Filter(names, Unrecorded(before)))
  {
    RunSafe(names, before, events);
    var s := After(names, Initial(before), events);
    assert InFlight(names, s) == None;
    if s.lost == multiset{} {
      ExpandedOnce(names, Unrecorded(before), RunsOf(names, s, before));
    }
  }

  // ---- one undisturbed pass as steps --------------------------------------------------------

  /** The steps of a lone node: it takes the lock and deals with the first `k` names. */
  function PassUpTo(names: seq<string>, recorded: set<string>, node: nat, k: nat): seq<Event>
    requires k <= |names|
  {
    if k == 0 then [Acquire(node)]
    else
      PassUpTo(names, recorded, node, k - 1) + [Look(node)]
        + (if names[k - 1] in recorded then [] else [Execute(node), Record(node)])
  }

  /** What a database pass has done once it has dealt with the first `k` names, the node still holding the lock. */
  ghost predicate PassedUpTo(names: seq<string>, s: System, t: System, node: nat, k: nat)
    requires k <= |names|
  {
    && t.log == s.log + Filter(names[..k], Unrecorded(s.recorded))
    && t.recorded == s.recorded + Elements(names[..k])
    && t.lost == s.lost
    && t.lock == Some(node) && PhaseOf(t, node) == Holding(k) && node in t.nodes
  }

  lemma AfterOne(names: seq<string>, s: System, events: seq<Event>, e: Event)
    ensures After(names, s, events + [e]) == Next(names, After(names, s, events), e)
  {
    assert (events + [e])[..|events + [e]| - 1] == events;
  }

  lemma OneName(names: seq<string>, s: System, t: System, node: nat, k: nat)
    requires Distinct(names) && k < |names| && PassedUpTo(names, s, t, node, k)
    ensures var looked := Next(names, t, Look(node));
            PassedUpTo(names, s, if names[k] in s.recorded then looked
                                 else Next(names, Next(names, looked, Execute(node)), Record(node)), node, k + 1)
  {
    OneMoreName(names, k, s.recorded);
    assert names[k] in t.recorded <==> names[k] in s.recorded;
    if names[k] in s.recorded {
      assert Elements(names[..k]) + {names[k]} + s.recorded == Elements(names[..k]) + s.recorded;
    }
  }

  lemma AfterName(names: seq<string>, s: System, steps: seq<Event>, node: nat)
    ensures After(names, s, steps + [Look(node)] + []) == Next(names, After(names, s, steps), Look(node))
    ensures After(names, s, steps + [Look(node)] + [Execute(node), Record(node)]) ==
            Next(names, Next(names, Next(names, After(names, s, steps), Look(node)), Execute(node)), Record(node))
  {
    var looked := steps + [Look(node)];
    AfterOne(names, s, steps, Look(node));
    AfterOne(names, s, looked, Execute(node));
    AfterOne(names, s, looked + [Execute(node)], Record(node));
    assert looked + [Execute(node), Record(node)] == looked + [Execute(node)] + [Record(node)];
    assert looked + [] == looked;
  }

  lemma {:induction false} PassSteps(names: seq<string>, s: System, node: nat, k: nat)
    requires Distinct(names) && k <= |names|
    requires s.lock.None? && PhaseOf(s, node).Waiting?
    ensures PassedUpTo(names, s, After(names, s, PassUpTo(names, s.recorded, node, k)), node, k)
    decreases k
  {
    if k == 0 {
      PassStarts(names, s, node);
    } else {
      PassSteps(names, s, node, k - 1);
      PassGoesOn(names, s, PassUpTo(names, s.recorded, node, k - 1), node, k - 1);
    }
  }

  lemma PassStarts(names: seq<string>, s: System, node: nat)
    requires s.lock.None? && PhaseOf(s, node).Waiting?
    ensures PassedUpTo(names, s, After(names, s, [Acquire(node)]), node, 0)
  {
    AfterOne(names, s, [], Acquire(node));
    assert [] + [Acquire(node)] == [Acquire(node)];
  }

  lemma PassGoesOn(names: seq<string>, s: System, steps: seq<Event>, node: nat, k: nat)
    requires Distinct(names) && k < |names| && PassedUpTo(names, s, After(names, s, steps), node, k)
    ensures PassedUpTo(names, s,
                       After(names, s, steps + [Look(node)]
                                       + (if names[k] in s.recorded then [] else [Execute(node), Record(node)])),
                       node, k + 1)
  {
    OneName(names, s, After(names, s, steps), node, k);
    AfterName(names, s, steps, node);
  }

  /**
   * The pass over the database is the step machine run by one node alone: taking the lock, its steps over all names
   * and giving the lock back leave the scripts and the rows that `Database.ApplySqlMigrations` leaves.
   */
  lemma LonePassIsSteps(names: seq<string>, s: System, node: nat)
    requires Distinct(names) && s.lock.None? && PhaseOf(s, node).Waiting?
    ensures var t := After(names, s, PassUpTo(names, s.recorded, node, |names|) + [Release(node)]);
            && t.log == s.log + Filter(names, Unrecorded(s.recorded))
            && t.recorded == s.recorded + Elements(names)
            && t.lost == s.lost && t.lock == None && PhaseOf(t, node) == Returned
  {
    PassSteps(names, s, node, |names|);
    AfterOne(names, s, PassUpTo(names, s.recorded, node, |names|), Release(node));
    assert names[..|names|] == names;
  }
}
