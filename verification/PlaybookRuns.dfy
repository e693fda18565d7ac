/** Gated, resumed and aborted playbook runs against one straight reference run. */
module PlaybookRuns {
  import opened Sequences
  import opened Playbook

  /** How a reference run ended, with its registers and every executor call so far. */
  datatype Trace = Trace(outcome: Outcome, registers: Registers, calls: seq<Call>)

  /** The reference run: an unpaused pass over the tasks in which confirm tasks do nothing. */
  function Straight(todo: seq<Task>, registers: Registers, vars: Vars, calls: seq<Call>, exec: Executor): Trace
    decreases Weight(todo)
  {
    if todo == [] then Trace(Finished, registers, calls)
    else
      var task, rest := todo[0], todo[1..];
      if !EvaluateWhen(task.when, registers, vars) then Straight(rest, registers, vars, calls, exec)
      else if !task.hasRequiredFields then Trace(Invalid(task.name), registers, calls)
      else if task.isConfirm then Straight(rest, registers, vars, calls, exec)
      else
        var calls' := calls + [Call(NodeOf(task), task, registers, vars)];
        match exec(calls')
        case Ok(value) => Straight(rest, Registered(registers, task, value), vars, calls', exec)
        case Thrown(message) =>
          WeightConcat(task.rescue, rest);
          if task.rescue == [] && !task.ignoreErrors then Trace(Broken(message), registers, calls')
          else Straight(task.rescue + rest, registers, vars, calls', exec)
  }

  /** The reference run when only `approvals` gates are opened: it stops in front of the next one. */
  function Gated(
    todo: seq<Task>, approvals: nat, registers: Registers, vars: Vars, calls: seq<Call>, exec: Executor): Trace
    decreases Weight(todo)
  {
    if todo == [] then Trace(Finished, registers, calls)
    else
      var task, rest := todo[0], todo[1..];
      if !EvaluateWhen(task.when, registers, vars) then Gated(rest, approvals, registers, vars, calls, exec)
      else if !task.hasRequiredFields then Trace(Invalid(task.name), registers, calls)
      else if task.isConfirm then
        if approvals == 0 then Trace(Gate, registers, calls)
        else Gated(rest, approvals - 1, registers, vars, calls, exec)
      else
        var calls' := calls + [Call(NodeOf(task), task, registers, vars)];
        match exec(calls')
        case Ok(value) => Gated(rest, approvals, Registered(registers, task, value), vars, calls', exec)
        case Thrown(message) =>
          WeightConcat(task.rescue, rest);
          if task.rescue == [] && !task.ignoreErrors then Trace(Broken(message), registers, calls')
          else Gated(task.rescue + rest, approvals, registers, vars, calls', exec)
  }

  lemma {:induction false} StraightExtends(
    todo: seq<Task>, registers: Registers, vars: Vars, calls: seq<Call>, exec: Executor)
    ensures calls <= Straight(todo, registers, vars, calls, exec).calls
    decreases Weight(todo)
  {
    if todo != [] {
      var task, rest := todo[0], todo[1..];
      var calls' := calls + [Call(NodeOf(task), task, registers, vars)];
      StraightExtends(rest, registers, vars, calls, exec);
      if exec(calls').Ok? {
        StraightExtends(rest, Registered(registers, task, exec(calls').value), vars, calls', exec);
      } else {
        WeightConcat(task.rescue, rest);
        StraightExtends(task.rescue + rest, registers, vars, calls', exec);
      }
    }
  }

  /** What runs with some gates opened is the beginning of the straight run, and all of it once no gate is left. */
  lemma {:induction false} GatedIsAPrefix(
    todo: seq<Task>, approvals: nat, registers: Registers, vars: Vars, calls: seq<Call>, exec: Executor)
    ensures var gated, straight :=
              Gated(todo, approvals, registers, vars, calls, exec), Straight(todo, registers, vars, calls, exec);
            && gated.calls <= straight.calls
            && (gated.outcome != Gate ==> gated == straight)
            && (approvals >= Weight(todo) ==> gated.outcome != Gate)
    decreases Weight(todo)
  {
    if todo != [] {
      var task, rest := todo[0], todo[1..];
      var calls' := calls + [Call(NodeOf(task), task, registers, vars)];
      if !EvaluateWhen(task.when, registers, vars) {
        GatedIsAPrefix(rest, approvals, registers, vars, calls, exec);
      } else if task.isConfirm {
        StraightExtends(rest, registers, vars, calls, exec);
        if approvals > 0 {
          GatedIsAPrefix(rest, approvals - 1, registers, vars, calls, exec);
        }
      } else if exec(calls').Ok? {
        GatedIsAPrefix(rest, approvals, Registered(registers, task, exec(calls').value), vars, calls', exec);
      } else {
        WeightConcat(task.rescue, rest);
        GatedIsAPrefix(task.rescue + rest, approvals, registers, vars, calls', exec);
      }
    }
  }

  // ---- gate names -------------------------------------------------------------------------

  function OwnName(task: Task): seq<string> {
    if task.isConfirm && task.name != "" then [task.name] else []
  }

  /** The non-empty names of the confirm tasks of a list. */
  function TopNames(tasks: seq<Task>): seq<string> {
    if tasks == [] then [] else OwnName(tasks[0]) + TopNames(tasks[1..])
  }

  /** The same, rescue lists included at every depth. */
  function GateNames(tasks: seq<Task>): seq<string> {
    if tasks == [] then [] else OwnName(tasks[0]) + GateNames(tasks[0].rescue) + GateNames(tasks[1..])
  }

  lemma {:induction false} TopNamesConcat(a: seq<Task>, b: seq<Task>)
    ensures TopNames(a + b) == TopNames(a) + TopNames(b)
    decreases |a|
  {
    if a == [] {
      assert a + b == b;
    } else {
      assert (a + b)[1..] == a[1..] + b;
      TopNamesConcat(a[1..], b);
    }
  }

  lemma {:induction false} GateNamesConcat(a: seq<Task>, b: seq<Task>)
    ensures GateNames(a + b) == GateNames(a) + GateNames(b)
    decreases |a|
  {
    if a == [] {
      assert a + b == b;
    } else {
      assert (a + b)[1..] == a[1..] + b;
      GateNamesConcat(a[1..], b);
    }
  }

  lemma {:induction false} TopNamesMember(tasks: seq<Task>, i: nat)
    requires i < |tasks| && tasks[i].isConfirm && tasks[i].name != ""
    ensures tasks[i].name in TopNames(tasks)
    decreases i
  {
    if i > 0 {
      TopNamesMember(tasks[1..], i - 1);
    }
  }

  /** The gates passed so far and every gate still ahead have different names. */
  ghost predicate GatesApart(tasks: seq<Task>, index: nat)
    requires index <= |tasks|
  {
    Distinct(TopNames(tasks[..index]) + GateNames(tasks[index..]))
  }

  lemma DistinctWithout<T(!new)>(a: seq<T>, b: seq<T>, c: seq<T>)
    requires Distinct(a + b + c)
    ensures Distinct(a + c)
  {
    var xs := a + b + c;
    forall i, j | 0 <= i < j < |a + c|
      ensures (a + c)[i] != (a + c)[j]
    {
      var i' := if i < |a| then i else i + |b|;
      var j' := if j < |a| then j else j + |b|;
      assert (a + c)[i] == xs[i'] && (a + c)[j] == xs[j'];
    }
  }

  lemma NamesSplit(tasks: seq<Task>, index: nat)
    requires index < |tasks|
    ensures GateNames(tasks[index..]) ==
            OwnName(tasks[index]) + GateNames(tasks[index].rescue) + GateNames(tasks[index + 1..])
    ensures TopNames(tasks[..index + 1]) == TopNames(tasks[..index]) + OwnName(tasks[index])
  {
    var task := tasks[index];
    assert tasks[..index + 1] == tasks[..index] + [task] && tasks[index..][1..] == tasks[index + 1..];
    TopNamesConcat(tasks[..index], [task]);
    assert [task][1..] == [];
  }

  lemma ApartAfter(tasks: seq<Task>, index: nat)
    requires index < |tasks| && GatesApart(tasks, index)
    ensures GatesApart(tasks, index + 1)
    ensures GatesApart(Spliced(tasks, index), index + 1)
  {
    NamesSplit(tasks, index);
    GateNamesConcat(tasks[index].rescue, tasks[index + 1..]);
    Regrouped(TopNames(tasks[..index]), OwnName(tasks[index]), GateNames(tasks[index].rescue),
              GateNames(tasks[index + 1..]));
  }

  lemma Regrouped<T(!new)>(a: seq<T>, b: seq<T>, c: seq<T>, d: seq<T>)
    requires Distinct(a + (b + c + d))
    ensures Distinct((a + b) + d) && Distinct((a + b) + (c + d))
  {
    assert a + (b + c + d) == (a + b) + c + d == (a + b) + (c + d);
    DistinctWithout(a + b, c, d);
  }

  lemma HeadClash(a: seq<string>, b: seq<string>, x: string)
    requires x in a && b != [] && b[0] == x
    ensures !Distinct(a + b)
  {
    var k :| 0 <= k < |a| && a[k] == x;
    assert (a + b)[k] == (a + b)[|a|];
  }

  lemma ResumesNext(tasks: seq<Task>, cursor: nat)
    requires cursor < |tasks| && tasks[cursor].isConfirm && GatesApart(tasks, cursor)
    ensures AdvancedCursor(tasks, cursor, Some(tasks[cursor].name)) == cursor + 1
  {
    var name := tasks[cursor].name;
    var before, ahead := TopNames(tasks[..cursor]), GateNames(tasks[cursor..]);
    forall i | 0 <= i < cursor && name != ""
      ensures !(tasks[i].isConfirm && tasks[i].name == name)
    {
      if tasks[i].isConfirm && tasks[i].name == name {
        TopNamesMember(tasks[..cursor], i);
        HeadClash(before, ahead, name);
      }
    }
    ResumesBehindTheGate(tasks, cursor);
  }

  // ---- one leg of a run -------------------------------------------------------------------

  /** One walk over the stored list is the reference run up to the next gate. */
  lemma {:induction false} WalkIsGated(
    tasks: seq<Task>, index: nat, registers: Registers, vars: Vars, calls: seq<Call>, exec: Executor, approvals: nat)
    requires index <= |tasks| && GatesApart(tasks, index)
    ensures var leg := Walk(tasks, index, registers, vars, calls, exec);
            var gated := Gated(tasks[index..], approvals, registers, vars, calls, exec);
            && (leg.outcome != Gate ==> gated == Trace(leg.outcome, leg.registers, leg.calls))
            && (leg.outcome == Gate ==>
                  && GatesApart(leg.tasks, leg.index)
                  && gated == Gated(leg.tasks[leg.index..], approvals, leg.registers, vars, leg.calls, exec))
    decreases Weight(tasks[index..])
  {
    if index < |tasks| {
      var task, rest := tasks[index], tasks[index + 1..];
      assert tasks[index..][1..] == rest;
      ApartAfter(tasks, index);
      var calls' := calls + [Call(NodeOf(task), task, registers, vars)];
      if !EvaluateWhen(task.when, registers, vars) {
        WalkIsGated(tasks, index + 1, registers, vars, calls, exec, approvals);
      } else if task.hasRequiredFields && !task.isConfirm {
        if exec(calls').Ok? {
          WalkIsGated(tasks, index + 1, Registered(registers, task, exec(calls').value), vars, calls', exec, approvals);
        } else {
          WeightConcat(task.rescue, rest);
          if task.rescue != [] {
            WalkIsGated(Spliced(tasks, index), index + 1, registers, vars, calls', exec, approvals);
          } else if task.ignoreErrors {
            assert task.rescue + rest == rest;
            WalkIsGated(tasks, index + 1, registers, vars, calls', exec, approvals);
          }
        }
      }
    }
  }

  // ---- whole runs -------------------------------------------------------------------------

  /** The state after a series of approvals of one run. */
  function Resumed(st: State, runId: string, approvers: seq<string>, exec: Executor): State
    decreases |approvers|
  {
    if approvers == [] then st else Resumed(Continued(st, runId, approvers[0], exec).0, runId, approvers[1..], exec)
  }

  /** What a stored run shows for an outcome; a rejected task leaves it running. */
  predicate Reports(row: Row, outcome: Outcome) {
    match outcome
    case Finished => row.status == Succeeded && row.errorMessage == None
    case Broken(message) => row.status == Failed && row.errorMessage == Some(message)
    case Gate => row.status == AwaitingApproval
    case Invalid(_) => row.status == Running
  }

  ghost predicate PausedAtGate(row: Row) {
    && row.status == AwaitingApproval
    && row.pendingPlan.Some?
    && var plan := row.pendingPlan.value;
       && plan.cursor < |plan.tasks|
       && Stops(plan.tasks[plan.cursor], plan.registers, plan.vars)
       && row.gateStepId == Some(plan.tasks[plan.cursor].name)
       && GatesApart(plan.tasks, plan.cursor)
  }

  /** What the reference run does from where a stored plan stands. */
  function Ahead(plan: Plan, approvals: nat, calls: seq<Call>, exec: Executor): Trace {
    Gated(if plan.cursor <= |plan.tasks| then plan.tasks[plan.cursor..] else [],
          approvals, plan.registers, plan.vars, calls, exec)
  }

  ghost predicate SameOthers(a: map<string, Row>, b: map<string, Row>, runId: string) {
    a.Keys == b.Keys && forall id :: id in a && id != runId ==> a[id] == b[id]
  }

  /** A run shows what a reference run shows. */
  ghost predicate Stands(st: State, runId: string, t: Trace) {
    runId in st.runs && st.calls == t.calls && Reports(st.runs[runId], t.outcome)
  }

  /** A run is paused with the rest of a reference run still ahead of it. */
  ghost predicate PausedBefore(st: State, runId: string, approvals: nat, exec: Executor, t: Trace) {
    && runId in st.runs && PausedAtGate(st.runs[runId])
    && Ahead(st.runs[runId].pendingPlan.value, approvals, st.calls, exec) == t
  }

  /** Executing a plan either ends as the reference run does or pauses with the rest of it still ahead. */
  lemma ExecutedIsGated(
    st: State, runId: string, plan: Plan, exec: Executor, actor: Option<string>, approvals: nat, t: Trace)
    requires runId in st.runs && st.runs[runId].status == Running
    requires plan.cursor <= |plan.tasks| && GatesApart(plan.tasks, plan.cursor)
    requires Ahead(plan, approvals, st.calls, exec) == t
    ensures var st' := Executed(st, runId, plan, exec, actor).0;
            && runId in st'.runs && SameOthers(st.runs, st'.runs, runId)
            && (if st'.runs[runId].status == AwaitingApproval then PausedBefore(st', runId, approvals, exec, t)
                else Stands(st', runId, t))
  {
    WalkIsGated(plan.tasks, plan.cursor, plan.registers, plan.vars, st.calls, exec, approvals);
  }

  lemma {:induction false} Inert(st: State, runId: string, approvers: seq<string>, exec: Executor)
    requires runId !in st.runs || st.runs[runId].status != AwaitingApproval
    ensures Resumed(st, runId, approvers, exec) == st
    decreases |approvers|
  {
    if approvers != [] {
      Inert(st, runId, approvers[1..], exec);
    }
  }

  lemma AheadPastGate(plan: Plan, approvals: nat, calls: seq<Call>, exec: Executor)
    requires plan.cursor < |plan.tasks| && Stops(plan.tasks[plan.cursor], plan.registers, plan.vars)
    ensures Ahead(plan, approvals, calls, exec) ==
            if approvals == 0 then Trace(Gate, plan.registers, calls)
            else Ahead(plan.(cursor := plan.cursor + 1), approvals - 1, calls, exec)
  {
    assert plan.tasks[plan.cursor..][1..] == plan.tasks[plan.cursor + 1..];
  }

  function ApprovedPlan(row: Row): Plan
    requires row.pendingPlan.Some?
  {
    row.pendingPlan.value.(cursor := row.pendingPlan.value.cursor + 1)
  }

  lemma ContinuedExecutes(st: State, runId: string, approver: string, exec: Executor)
    requires runId in st.runs && PausedAtGate(st.runs[runId])
    ensures Continued(st, runId, approver, exec).0 ==
            Executed(State(WithRow(st.runs, runId, Approve(approver)), st.calls), runId,
                     ApprovedPlan(st.runs[runId]), exec, Some(approver)).0
  {
    var plan := st.runs[runId].pendingPlan.value;
    ResumesNext(plan.tasks, plan.cursor);
  }

  /** What lies ahead of a paused run lies ahead of its plan behind the gate, with one approval less. */
  lemma ApprovedAhead(st: State, runId: string, approvals: nat, exec: Executor, t: Trace)
    requires PausedBefore(st, runId, approvals, exec, t) && approvals > 0
    ensures var plan := ApprovedPlan(st.runs[runId]);
            && plan.cursor <= |plan.tasks| && GatesApart(plan.tasks, plan.cursor)
            && Ahead(plan, approvals - 1, st.calls, exec) == t
  {
    var plan := st.runs[runId].pendingPlan.value;
    AheadPastGate(plan, approvals, st.calls, exec);
    ApartNext(plan);
  }

  lemma ApartNext(plan: Plan)
    requires plan.cursor < |plan.tasks| && GatesApart(plan.tasks, plan.cursor)
    ensures GatesApart(plan.tasks, plan.cursor + 1)
  {
    ApartAfter(plan.tasks, plan.cursor);
  }

  lemma ApprovedRuns(st: State, runId: string, approver: string)
    requires runId in st.runs
    ensures var runs := WithRow(st.runs, runId, Approve(approver));
            runId in runs && runs[runId].status == Running && SameOthers(st.runs, runs, runId)
  {
  }

  /** One approval takes a paused run to the next gate or to the end of the reference run. */
  lemma ContinuedIsGated(st: State, runId: string, approver: string, exec: Executor, approvals: nat, t: Trace)
    requires PausedBefore(st, runId, approvals, exec, t) && approvals > 0
    ensures var st' := Continued(st, runId, approver, exec).0;
            && runId in st'.runs && SameOthers(st.runs, st'.runs, runId)
            && (if st'.runs[runId].status == AwaitingApproval then PausedBefore(st', runId, approvals - 1, exec, t)
                else Stands(st', runId, t))
  {
    var running := State(WithRow(st.runs, runId, Approve(approver)), st.calls);
    ApprovedAhead(st, runId, approvals, exec, t);
    ApprovedRuns(st, runId, approver);
    ContinuedExecutes(st, runId, approver, exec);
    ExecutedIsGated(running, runId, ApprovedPlan(st.runs[runId]), exec, Some(approver), approvals - 1, t);
    SameOthersChain(st.runs, running.runs, Continued(st, runId, approver, exec).0.runs, runId);
  }

  lemma SameOthersChain(a: map<string, Row>, b: map<string, Row>, c: map<string, Row>, runId: string)
    requires SameOthers(a, b, runId) && SameOthers(b, c, runId)
    ensures SameOthers(a, c, runId)
  {
  }

  /** From a pause on, each approval opens one gate of the reference run. */
  lemma {:induction false} ResumedIsGated(st: State, runId: string, approvers: seq<string>, exec: Executor, t: Trace)
    requires PausedBefore(st, runId, |approvers|, exec, t)
    ensures SameOthers(st.runs, Resumed(st, runId, approvers, exec).runs, runId)
    ensures Stands(Resumed(st, runId, approvers, exec), runId, t)
    decreases |approvers|
  {
    if approvers == [] {
      AheadPastGate(st.runs[runId].pendingPlan.value, 0, st.calls, exec);
    } else {
      ContinuedIsGated(st, runId, approvers[0], exec, |approvers|, t);
      var st' := Continued(st, runId, approvers[0], exec).0;
      if st'.runs[runId].status == AwaitingApproval {
        ResumedIsGated(st', runId, approvers[1..], exec, t);
      } else {
        Inert(st', runId, approvers[1..], exec);
      }
    }
  }

  /**
   * Gates are transparent. When the confirm tasks have different names, a run that was started and then
   * approved any number of times has made exactly the executor calls of the reference run with that many
   * gates opened, and its stored status says how that run stands: nothing behind a closed gate has run, and
   * once no gate is left the calls and the result are those of the straight run.
   */
  lemma GatesAreTransparent(
    st: State, runId: string, tasks: seq<Task>, vars: Vars, exec: Executor, createdBy: Option<string>,
    approvers: seq<string>)
    requires runId in st.runs && st.runs[runId].status == Running
    requires tasks != [] && Distinct(GateNames(tasks))
    ensures var st' := Resumed(Begun(st, runId, tasks, vars, exec, createdBy).0, runId, approvers, exec);
            var gated := Gated(tasks, |approvers|, map[], vars, st.calls, exec);
            var straight := Straight(tasks, map[], vars, st.calls, exec);
            && SameOthers(st.runs, st'.runs, runId)
            && st'.calls == gated.calls <= straight.calls
            && Reports(st'.runs[runId], gated.outcome)
            && (st'.runs[runId].status == AwaitingApproval ==> |approvers| < Weight(tasks))
            && (st'.runs[runId].status != AwaitingApproval ==>
                  st'.calls == straight.calls && Reports(st'.runs[runId], straight.outcome))
  {
    var plan := Plan(tasks, 0, map[], vars);
    assert TopNames(tasks[..0]) + GateNames(tasks[0..]) == GateNames(tasks);
    assert tasks[0..] == tasks;
    var gated := Gated(tasks, |approvers|, map[], vars, st.calls, exec);
    ExecutedIsGated(st, runId, plan, exec, createdBy, |approvers|, gated);
    GatedIsAPrefix(tasks, |approvers|, map[], vars, st.calls, exec);
    var begun := Begun(st, runId, tasks, vars, exec, createdBy).0;
    if begun.runs[runId].status == AwaitingApproval {
      ResumedIsGated(begun, runId, approvers, exec, gated);
    } else {
      Inert(begun, runId, approvers, exec);
    }
  }

  /**
   * Approving conflicts, and then changes nothing, exactly if there is no such run, it does not wait for approval, or
   * no task is stored to go on with; aborting does exactly if there is no such run or it neither runs nor waits.
   */
  lemma ConflictsIff(st: State, runId: string, approver: string, exec: Executor)
    ensures Continued(st, runId, approver, exec).1 == Conflict <==>
            || runId !in st.runs || st.runs[runId].status != AwaitingApproval
            || st.runs[runId].pendingPlan.None? || |st.runs[runId].pendingPlan.value.tasks| == 0
    ensures Continued(st, runId, approver, exec).1 == Conflict ==> Continued(st, runId, approver, exec).0 == st
    ensures Aborted(st, runId).1 == Conflict <==>
            runId !in st.runs || (st.runs[runId].status != AwaitingApproval && st.runs[runId].status != Running)
    ensures Aborted(st, runId).1 == Conflict ==> Aborted(st, runId).0 == st
  {
  }

  /** A paused run keeps its plan with the cursor on the confirm task it names. */
  predicate NamesItsGate(row: Row) {
    && row.pendingPlan.Some? && row.pendingPlan.value.cursor < |row.pendingPlan.value.tasks|
    && row.pendingPlan.value.tasks[row.pendingPlan.value.cursor].isConfirm
    && row.gateStepId == Some(row.pendingPlan.value.tasks[row.pendingPlan.value.cursor].name)
  }

  /**
   * Who started and who approved a run is on record: a run that pauses names its gate, keeps the plan to go on with
   * and, if given, who it was started or last approved by; one that does not pause keeps neither gate nor plan.
   */
  lemma ApprovalIsRecorded(st: State, runId: string, approver: string, exec: Executor)
    requires runId in st.runs && Continued(st, runId, approver, exec).1 != Conflict
    ensures var before, (st', response) := st.runs[runId], Continued(st, runId, approver, exec);
            && runId in st'.runs && st'.runs[runId].approvedBy == Some(approver)
            && (response == Answer(Running) <==> st'.runs[runId].status == AwaitingApproval)
            && (st'.runs[runId].status == AwaitingApproval ==>
                  NamesItsGate(st'.runs[runId]) && st'.runs[runId].createdBy == Some(approver))
            && (st'.runs[runId].status != AwaitingApproval ==>
                  && st'.runs[runId].gateStepId == None && st'.runs[runId].pendingPlan == None
                  && st'.runs[runId].createdBy == before.createdBy)
  {
  }

  lemma StartIsRecorded(
    st: State, runId: string, tasks: seq<Task>, vars: Vars, exec: Executor, createdBy: Option<string>)
    requires runId in st.runs && st.runs[runId].status == Running
    ensures var before, (st', response) := st.runs[runId], Begun(st, runId, tasks, vars, exec, createdBy);
            && (tasks == [] ==> st' == st && response == Answer(Succeeded))
            && runId in st'.runs && st'.runs[runId].approvedBy == before.approvedBy
            && (response == Answer(AwaitingApproval) <==> st'.runs[runId].status == AwaitingApproval)
            && (st'.runs[runId].status == AwaitingApproval ==>
                  && NamesItsGate(st'.runs[runId])
                  && st'.runs[runId].createdBy == if createdBy.Some? then createdBy else before.createdBy)
            && (st'.runs[runId].status != AwaitingApproval ==> st'.runs[runId].createdBy == before.createdBy)
  {
  }

  /** A run aborted while it waits is failed for good: later approvals run nothing and change nothing. */
  lemma AbortedStaysFailed(st: State, runId: string, approvers: seq<string>, exec: Executor)
    requires Aborted(st, runId).1 == Answer(Failed)
    ensures Resumed(Aborted(st, runId).0, runId, approvers, exec) == Aborted(st, runId).0
    ensures Aborted(st, runId).0.calls == st.calls && Aborted(st, runId).0.runs[runId].status == Failed
    ensures Aborted(Aborted(st, runId).0, runId).1 == Conflict
  {
    Inert(Aborted(st, runId).0, runId, approvers, exec);
  }

  // ---- failures and bounds ----------------------------------------------------------------

  /** A call that failed with nothing to rescue or excuse it. */
  predicate Fatal(calls: seq<Call>, j: nat, exec: Executor)
    requires j < |calls|
  {
    exec(calls[..j + 1]).Thrown? && calls[j].task.rescue == [] && !calls[j].task.ignoreErrors
  }

  /** A run made these calls, and broke, if at all, at its last one. */
  ghost predicate BrokeAtLast(calls: seq<Call>, t: Trace, exec: Executor) {
    && calls <= t.calls
    && (t.outcome.Broken? ==> |t.calls| > |calls| && exec(t.calls) == Thrown(t.outcome.message))
    && (forall j :: |calls| <= j < |t.calls| ==>
          (Fatal(t.calls, j, exec) <==> t.outcome.Broken? && j == |t.calls| - 1))
  }

  lemma HarmlessCall(calls: seq<Call>, call: Call, t: Trace, exec: Executor)
    requires BrokeAtLast(calls + [call], t, exec)
    requires exec(calls + [call]).Ok? || call.task.rescue != [] || call.task.ignoreErrors
    ensures BrokeAtLast(calls, t, exec)
  {
    assert t.calls[..|calls| + 1] == calls + [call];
  }

  lemma FatalCall(calls: seq<Call>, call: Call, registers: Registers, exec: Executor)
    requires exec(calls + [call]).Thrown? && call.task.rescue == [] && !call.task.ignoreErrors
    ensures BrokeAtLast(calls, Trace(Broken(exec(calls + [call]).message), registers, calls + [call]), exec)
  {
    assert (calls + [call])[..|calls| + 1] == calls + [call];
  }

  /** A run breaks exactly at its first fatal call, and that call is its last. */
  lemma {:induction false} BreaksAtTheFirstFatalCall(
    todo: seq<Task>, approvals: nat, registers: Registers, vars: Vars, calls: seq<Call>, exec: Executor)
    ensures BrokeAtLast(calls, Gated(todo, approvals, registers, vars, calls, exec), exec)
    decreases Weight(todo)
  {
    if todo != [] {
      var task, rest := todo[0], todo[1..];
      var call := Call(NodeOf(task), task, registers, vars);
      var reply, t := exec(calls + [call]), Gated(todo, approvals, registers, vars, calls, exec);
      if !EvaluateWhen(task.when, registers, vars) {
        BreaksAtTheFirstFatalCall(rest, approvals, registers, vars, calls, exec);
      } else if task.isConfirm {
        if task.hasRequiredFields && approvals > 0 {
          BreaksAtTheFirstFatalCall(rest, approvals - 1, registers, vars, calls, exec);
        }
      } else if task.hasRequiredFields {
        if reply.Ok? {
          BreaksAtTheFirstFatalCall(rest, approvals, Registered(registers, task, reply.value), vars, calls + [call],
                                    exec);
          HarmlessCall(calls, call, t, exec);
        } else if task.rescue != [] || task.ignoreErrors {
          WeightConcat(task.rescue, rest);
          BreaksAtTheFirstFatalCall(task.rescue + rest, approvals, registers, vars, calls + [call], exec);
          HarmlessCall(calls, call, t, exec);
        } else {
          FatalCall(calls, call, registers, exec);
        }
      }
    }
  }

  /** The number of tasks that can run on a host, rescue lists included at every depth. */
  function Work(tasks: seq<Task>): nat {
    if tasks == [] then 0
    else (if tasks[0].isConfirm then 0 else 1 + Work(tasks[0].rescue)) + Work(tasks[1..])
  }

  lemma {:induction false} WorkConcat(a: seq<Task>, b: seq<Task>)
    ensures Work(a + b) == Work(a) + Work(b)
    decreases |a|
  {
    if a == [] {
      assert a + b == b;
    } else {
      assert (a + b)[1..] == a[1..] + b;
      WorkConcat(a[1..], b);
    }
  }

  /** However rescue lists are spliced in, a run calls the executor at most once per task of the trees. */
  lemma {:induction false} CallsAreBounded(
    todo: seq<Task>, approvals: nat, registers: Registers, vars: Vars, calls: seq<Call>, exec: Executor)
    ensures |Gated(todo, approvals, registers, vars, calls, exec).calls| <= |calls| + Work(todo)
    decreases Weight(todo)
  {
    if todo != [] {
      var task, rest := todo[0], todo[1..];
      var calls' := calls + [Call(NodeOf(task), task, registers, vars)];
      if !EvaluateWhen(task.when, registers, vars) {
        CallsAreBounded(rest, approvals, registers, vars, calls, exec);
      } else if task.isConfirm {
        if approvals > 0 {
          CallsAreBounded(rest, approvals - 1, registers, vars, calls, exec);
        }
      } else if exec(calls').Ok? {
        CallsAreBounded(rest, approvals, Registered(registers, task, exec(calls').value), vars, calls', exec);
      } else {
        WeightConcat(task.rescue, rest);
        WorkConcat(task.rescue, rest);
        CallsAreBounded(task.rescue + rest, approvals, registers, vars, calls', exec);
      }
    }
  }

  // ---- equal gate names -------------------------------------------------------------------

  /** A task that runs whatever the registers and variables are. */
  predicate Plain(task: Task) {
    task.when == "" && task.hasRequiredFields
  }

  ghost predicate PausedAmong(row: Row, gate: Task, work: Task) {
    && row.status == AwaitingApproval && row.gateStepId == Some(gate.name)
    && row.pendingPlan.Some? && row.pendingPlan.value.tasks == [gate, work, gate]
  }

  lemma WorkThenGate(
    gate: Task, work: Task, registers: Registers, vars: Vars, calls: seq<Call>, exec: Executor)
    requires Plain(gate) && gate.isConfirm && Plain(work) && !work.isConfirm
    requires forall history :: exec(history).Ok?
    ensures var leg := Walk([gate, work, gate], 1, registers, vars, calls, exec);
            leg.outcome == Gate && leg.tasks == [gate, work, gate] && leg.index == 2 && |leg.calls| == |calls| + 1
  {
    var tasks, calls' := [gate, work, gate], calls + [Call(NodeOf(work), work, registers, vars)];
    assert exec(calls').Ok?;
    assert Walk(tasks, 1, registers, vars, calls, exec)
        == Walk(tasks, 2, Registered(registers, work, exec(calls').value), vars, calls', exec);
  }

  lemma {:induction false} StuckAmong(
    st: State, runId: string, gate: Task, work: Task, exec: Executor, approvers: seq<string>)
    requires Plain(gate) && gate.isConfirm && gate.name != "" && Plain(work) && !work.isConfirm
    requires forall history :: exec(history).Ok?
    requires runId in st.runs && PausedAmong(st.runs[runId], gate, work)
    ensures var st' := Resumed(st, runId, approvers, exec);
            && runId in st'.runs && PausedAmong(st'.runs[runId], gate, work)
            && |st'.calls| == |st.calls| + |approvers|
    decreases |approvers|
  {
    if approvers != [] {
      var plan := st.runs[runId].pendingPlan.value;
      assert FindGate(plan.tasks, gate.name) == 0;
      WorkThenGate(gate, work, plan.registers, plan.vars, st.calls, exec);
      StuckAmong(Continued(st, runId, approvers[0], exec).0, runId, gate, work, exec, approvers[1..]);
    }
  }

  /**
   * With two gates of one name the second is never passed: every approval runs the work between them once
   * more and the run waits again, while the straight run works once.
   */
  lemma EqualNamesNeverFinish(
    st: State, runId: string, gate: Task, work: Task, vars: Vars, exec: Executor, createdBy: Option<string>,
    approvers: seq<string>)
    requires Plain(gate) && gate.isConfirm && gate.name != "" && Plain(work) && !work.isConfirm
    requires forall history :: exec(history).Ok?
    requires runId in st.runs
    ensures var st' := Resumed(Begun(st, runId, [gate, work, gate], vars, exec, createdBy).0, runId, approvers, exec);
            runId in st'.runs && st'.runs[runId].status == AwaitingApproval && |st'.calls| == |st.calls| + |approvers|
  {
    StuckAmong(Begun(st, runId, [gate, work, gate], vars, exec, createdBy).0, runId, gate, work, exec, approvers);
  }
}
