/** ApplyStageRunner: playbook tasks, approval gates, rescue lists and resumed runs. */
module Playbook {
  import opened Sequences
  import opened Text

  /** A JSON value as far as a `when` expression can look into it. */
  datatype Value = Bag(fields: map<string, Value>) | Datum(text: string, truthy: bool)

  /** `when` and `register` are empty when a task does not carry them. */
  datatype Task = Task(
    name: string, isConfirm: bool, hasRequiredFields: bool, target: Option<string>, targetGroup: Option<string>,
    when: string, register: string, ignoreErrors: bool, rescue: seq<Task>)

  type Registers = map<string, Value>
  type Vars = map<string, string>

  datatype Call = Call(node: string, task: Task, registers: Registers, vars: Vars)

  datatype Reply = Ok(value: Value) | Thrown(message: string)

  /** What the host executor answers to the last call of a history. */
  type Executor = seq<Call> -> Reply

  // ---- when expressions -------------------------------------------------------------------

  /** The part of a string before its first dot. */
  function Before(s: string): string {
    if s == "" || s[0] == '.' then "" else [s[0]] + Before(s[1..])
  }

  /** The part of a string after its first dot. */
  function After(s: string): string {
    if s == "" then "" else if s[0] == '.' then s[1..] else After(s[1..])
  }

  predicate Truthy(value: Value) {
    value.Bag? || value.truthy
  }

  predicate IsNegation(trimmed: string) {
    |trimmed| >= 4 && trimmed[..4] == "not "
  }

  predicate EvaluateWhen(when: string, registers: Registers, vars: Vars)
    decreases |when|
  {
    var trimmed := Trim(when);
    if trimmed == "" then true
    else if IsNegation(trimmed) then !EvaluateWhen(trimmed[4..], registers, vars)
    else if '.' in trimmed then
      var register, field := Before(trimmed), Before(After(trimmed));
      register in registers && registers[register].Bag? && field in registers[register].fields
      && Truthy(registers[register].fields[field])
    else if trimmed in vars then Trim(vars[trimmed]) != ""
    else true
  }

  lemma NotAppend(w: string)
    ensures "not " + w == "not" + ([' '] + w)
  {
  }

  lemma TrimNegation(w: string)
    ensures Trim("not " + w) == if Trim(w) == "" then "not" else "not " + TrimEnd(w)
  {
    NotAppend(w);
    NotAppend(TrimEnd(w));
    TrimHead("not", w);
  }

  lemma SameWhen(a: string, b: string, registers: Registers, vars: Vars)
    requires Trim(a) == Trim(b)
    ensures EvaluateWhen(a, registers, vars) == EvaluateWhen(b, registers, vars)
  {
  }

  /**
   * `not` negates the expression behind it exactly when that expression is not blank, or when the word
   * `not` itself is a variable with a blank value.
   */
  lemma NotNegates(w: string, registers: Registers, vars: Vars)
    ensures EvaluateWhen("not " + w, registers, vars) == !EvaluateWhen(w, registers, vars)
            <==> Trim(w) != "" || ("not" in vars && Trim(vars["not"]) == "")
  {
    TrimNegation(w);
    if Trim(w) != "" {
      assert Trim("not " + w)[4..] == TrimEnd(w);
      TrimStartEnd(w);
      SameWhen(TrimEnd(w), w, registers, vars);
    } else {
      assert Trim("not " + w) == "not" && !IsNegation("not");
    }
  }

  // ---- plans ------------------------------------------------------------------------------

  datatype Plan = Plan(tasks: seq<Task>, cursor: nat, registers: Registers, vars: Vars)

  /** The number of tasks in a list, rescue lists included at every depth. */
  function Weight(tasks: seq<Task>): nat {
    if tasks == [] then 0 else 1 + Weight(tasks[0].rescue) + Weight(tasks[1..])
  }

  lemma {:induction false} WeightConcat(a: seq<Task>, b: seq<Task>)
    ensures Weight(a + b) == Weight(a) + Weight(b)
    decreases |a|
  {
    if a == [] {
      assert a + b == b;
    } else {
      assert (a + b)[1..] == a[1..] + b;
      WeightConcat(a[1..], b);
    }
  }

  function NodeOf(task: Task): string {
    if task.target.Some? then task.target.value
    else if task.targetGroup.Some? then task.targetGroup.value
    else "local"
  }

  function Spliced(tasks: seq<Task>, index: nat): (r: seq<Task>)
    requires index < |tasks|
    ensures |r| == |tasks| + |tasks[index].rescue|
    ensures r[..index + 1] == tasks[..index + 1]
    ensures r[index + 1..] == tasks[index].rescue + tasks[index + 1..]
  {
    tasks[..index + 1] + tasks[index].rescue + tasks[index + 1..]
  }

  function Registered(registers: Registers, task: Task, value: Value): Registers {
    if task.register == "" then registers else registers[task.register := value]
  }

  datatype Outcome = Finished | Gate | Broken(message: string) | Invalid(taskName: string)

  /** Where a walk over a plan stopped. */
  datatype Leg = Leg(outcome: Outcome, tasks: seq<Task>, index: nat, registers: Registers, calls: seq<Call>)

  /** A confirm task the walk pauses at. */
  predicate Stops(task: Task, registers: Registers, vars: Vars) {
    EvaluateWhen(task.when, registers, vars) && task.hasRequiredFields && task.isConfirm
  }

  /** The loop of `executePlan`: from `index` to the next gate or the end. */
  function Walk(tasks: seq<Task>, index: nat, registers: Registers, vars: Vars, calls: seq<Call>, exec: Executor)
    : (leg: Leg)
    requires index <= |tasks|
    ensures leg.outcome.Gate? ==> leg.index < |leg.tasks| && Stops(leg.tasks[leg.index], leg.registers, vars)
    decreases Weight(tasks[index..])
  {
    if index == |tasks| then Leg(Finished, tasks, index, registers, calls)
    else
      var task := tasks[index];
      assert tasks[index..][1..] == tasks[index + 1..];
      if !EvaluateWhen(task.when, registers, vars) then Walk(tasks, index + 1, registers, vars, calls, exec)
      else if !task.hasRequiredFields then Leg(Invalid(task.name), tasks, index, registers, calls)
      else if task.isConfirm then Leg(Gate, tasks, index, registers, calls)
      else
        var calls' := calls + [Call(NodeOf(task), task, registers, vars)];
        match exec(calls')
        case Ok(value) => Walk(tasks, index + 1, Registered(registers, task, value), vars, calls', exec)
        case Thrown(message) =>
          if task.rescue != [] then
            WeightConcat(task.rescue, tasks[index + 1..]);
            Walk(Spliced(tasks, index), index + 1, registers, vars, calls', exec)
          else if task.ignoreErrors then Walk(tasks, index + 1, registers, vars, calls', exec)
          else Leg(Broken(message), tasks, index, registers, calls')
  }

  /** The position of the first confirm task of a name, or the length when there is none. */
  function FindGate(tasks: seq<Task>, name: string): (r: nat)
    ensures r <= |tasks|
    ensures forall i :: 0 <= i < r ==> !(tasks[i].isConfirm && tasks[i].name == name)
    ensures r < |tasks| ==> tasks[r].isConfirm && tasks[r].name == name
  {
    if tasks == [] || (tasks[0].isConfirm && tasks[0].name == name) then 0
    else 1 + FindGate(tasks[1..], name)
  }

  /** Where a resumed plan starts: behind the first gate of the stored name. */
  function AdvancedCursor(tasks: seq<Task>, cursor: nat, gateStepId: Option<string>): nat {
    if gateStepId.Some? && gateStepId.value != "" && FindGate(tasks, gateStepId.value) < |tasks| then
      FindGate(tasks, gateStepId.value) + 1
    else if cursor < |tasks| && tasks[cursor].isConfirm then cursor + 1
    else cursor
  }

  /**
   * A run paused at a gate resumes right behind it exactly when the gate's name is empty or no earlier
   * confirm task of the list bears it.
   */
  lemma ResumesBehindTheGate(tasks: seq<Task>, cursor: nat)
    requires cursor < |tasks| && tasks[cursor].isConfirm
    ensures AdvancedCursor(tasks, cursor, Some(tasks[cursor].name)) == cursor + 1 <==>
            || tasks[cursor].name == ""
            || forall i :: 0 <= i < cursor ==> !(tasks[i].isConfirm && tasks[i].name == tasks[cursor].name)
    ensures AdvancedCursor(tasks, cursor, Some(tasks[cursor].name)) <= cursor + 1
  {
    var name := tasks[cursor].name;
    var g := FindGate(tasks, name);
    assert g <= cursor;
  }

  // ---- stored runs ------------------------------------------------------------------------

  datatype Status = Pending | Running | AwaitingApproval | Succeeded | Failed

  datatype Row = Row(
    status: Status, gateStepId: Option<string>, pendingPlan: Option<Plan>, createdBy: Option<string>,
    approvedBy: Option<string>, errorMessage: Option<string>)

  /** The stored runs and everything the executor was ever asked to do. */
  datatype State = State(runs: map<string, Row>, calls: seq<Call>)

  datatype Response = Answer(status: Status) | Conflict | ValidationError(taskName: string)

  function WithRow(runs: map<string, Row>, runId: string, update: Row -> Row): map<string, Row> {
    if runId in runs then runs[runId := update(runs[runId])] else runs
  }

  function Complete(status: Status, errorMessage: Option<string>): Row -> Row {
    (row: Row) => row.(status := status, errorMessage := errorMessage)
  }

  function Pause(name: string, plan: Plan, actor: Option<string>): Row -> Row {
    (row: Row) => row.(status := AwaitingApproval, gateStepId := Some(name), pendingPlan := Some(plan),
                       createdBy := if actor.Some? then actor else row.createdBy)
  }

  function Approve(approvedBy: string): Row -> Row {
    (row: Row) => row.(status := Running, approvedBy := Some(approvedBy), gateStepId := None, pendingPlan := None)
  }

  /** What is stored and answered when a walk stops. */
  function Reported(runs: map<string, Row>, runId: string, vars: Vars, leg: Leg, actor: Option<string>)
    : (State, Response)
    requires leg.outcome.Gate? ==> leg.index < |leg.tasks|
  {
    match leg.outcome
    case Finished => (State(WithRow(runs, runId, Complete(Succeeded, None)), leg.calls), Answer(Succeeded))
    case Broken(message) => (State(WithRow(runs, runId, Complete(Failed, Some(message))), leg.calls), Answer(Failed))
    case Invalid(name) => (State(runs, leg.calls), ValidationError(name))
    case Gate =>
      (State(WithRow(runs, runId,
                     Pause(leg.tasks[leg.index].name, Plan(leg.tasks, leg.index, leg.registers, vars), actor)),
             leg.calls), Answer(AwaitingApproval))
  }

  /** The walk of a plan; a cursor behind the list has nothing left to do. */
  function LegOf(plan: Plan, calls: seq<Call>, exec: Executor): (leg: Leg)
    ensures leg.outcome.Gate? ==> leg.index < |leg.tasks| && Stops(leg.tasks[leg.index], leg.registers, plan.vars)
  {
    if plan.cursor > |plan.tasks| then Leg(Finished, plan.tasks, plan.cursor, plan.registers, calls)
    else Walk(plan.tasks, plan.cursor, plan.registers, plan.vars, calls, exec)
  }

  function Executed(st: State, runId: string, plan: Plan, exec: Executor, actor: Option<string>): (State, Response) {
    Reported(st.runs, runId, plan.vars, LegOf(plan, st.calls, exec), actor)
  }

  /** How much of a list is left to do. */
  function Left(tasks: seq<Task>, index: nat): nat {
    if index <= |tasks| then Weight(tasks[index..]) else 0
  }

  lemma LessLeft(tasks: seq<Task>, index: nat)
    requires index < |tasks|
    ensures Left(tasks, index + 1) < Left(tasks, index)
    ensures Left(Spliced(tasks, index), index + 1) < Left(tasks, index)
  {
    assert tasks[index..][1..] == tasks[index + 1..];
    WeightConcat(tasks[index].rescue, tasks[index + 1..]);
  }

  /** One turn of the loop. */
  lemma LegStep(plan: Plan, calls: seq<Call>, exec: Executor)
    requires plan.cursor < |plan.tasks|
    ensures var task := plan.tasks[plan.cursor];
            var call := Call(NodeOf(task), task, plan.registers, plan.vars);
            LegOf(plan, calls, exec) ==
            if !EvaluateWhen(task.when, plan.registers, plan.vars) then
              LegOf(plan.(cursor := plan.cursor + 1), calls, exec)
            else if !task.hasRequiredFields then
              Leg(Invalid(task.name), plan.tasks, plan.cursor, plan.registers, calls)
            else if task.isConfirm then Leg(Gate, plan.tasks, plan.cursor, plan.registers, calls)
            else
              match exec(calls + [call])
              case Ok(value) =>
                LegOf(plan.(cursor := plan.cursor + 1, registers := Registered(plan.registers, task, value)),
                      calls + [call], exec)
              case Thrown(message) =>
                if task.rescue != [] then
                  LegOf(plan.(cursor := plan.cursor + 1, tasks := Spliced(plan.tasks, plan.cursor)), calls + [call],
                        exec)
                else if task.ignoreErrors then LegOf(plan.(cursor := plan.cursor + 1), calls + [call], exec)
                else Leg(Broken(message), plan.tasks, plan.cursor, plan.registers, calls + [call])
  {
  }

  function Begun(st: State, runId: string, tasks: seq<Task>, vars: Vars, exec: Executor, createdBy: Option<string>)
    : (State, Response)
  {
    if tasks == [] then (st, Answer(Succeeded))
    else Executed(st, runId, Plan(tasks, 0, map[], vars), exec, createdBy)
  }

  function Continued(st: State, runId: string, approvedBy: string, exec: Executor): (State, Response) {
    if runId !in st.runs || st.runs[runId].status != AwaitingApproval then (st, Conflict)
    else
      var row := st.runs[runId];
      if row.pendingPlan.None? || row.pendingPlan.value.tasks == [] then (st, Conflict)
      else
        var plan := row.pendingPlan.value;
        var resumed := plan.(cursor := AdvancedCursor(plan.tasks, plan.cursor, row.gateStepId));
        var (st', response) :=
          Executed(State(WithRow(st.runs, runId, Approve(approvedBy)), st.calls), runId, resumed, exec,
                   Some(approvedBy));
        (st', if response == Answer(AwaitingApproval) then Answer(Running) else response)
  }

  function Aborted(st: State, runId: string): (State, Response) {
    if runId !in st.runs || st.runs[runId].status !in {AwaitingApproval, Running} then (st, Conflict)
    else
      (State(WithRow(st.runs, runId, Complete(Failed, Some("Run aborted by operator."))), st.calls), Answer(Failed))
  }

  /** A plan being worked on, as the runner mutates it. */
  class TaskPlan {
    var tasks: seq<Task>
    var cursor: nat
    var registers: Registers
    const vars: Vars

    constructor (plan: Plan)
      ensures View() == plan
    {
      tasks, cursor, registers, vars := plan.tasks, plan.cursor, plan.registers, plan.vars;
    }

    function View(): Plan
      reads this
    {
      Plan(tasks, cursor, registers, vars)
    }

    method SpliceRescue(index: nat)
      requires index < |tasks|
      modifies this`tasks
      ensures tasks == Spliced(old(tasks), index)
    {
      tasks := tasks[..index + 1] + tasks[index].rescue + tasks[index + 1..];
    }

    method Register(task: Task, value: Value)
      modifies this`registers
      ensures registers == Registered(old(registers), task, value)
    {
      if task.register != "" {
        registers := registers[task.register := value];
      }
    }

    method AdvancePastApprovedGate(gateStepId: Option<string>)
      modifies this`cursor
      ensures cursor == AdvancedCursor(tasks, old(cursor), gateStepId)
    {
      if gateStepId.Some? && gateStepId.value != "" {
        var gateIndex := FindGate(tasks, gateStepId.value);
        if gateIndex < |tasks| {
          cursor := gateIndex + 1;
          return;
        }
      }
      if cursor < |tasks| && tasks[cursor].isConfirm {
        cursor := cursor + 1;
      }
    }
  }

  /** The stored pipeline runs together with the host executor's history. */
  class StageRunner {
    var runs: map<string, Row>
    var calls: seq<Call>

    constructor (initial: State)
      ensures View() == initial
    {
      runs, calls := initial.runs, initial.calls;
    }

    function View(): State
      reads this
    {
      State(runs, calls)
    }

    /**
     * The `try` block around the plan entry at the cursor: calls the executor, registers its result or splices the
     * entry's rescue list, and moves on unless the failure is final.
     */
    method RunTask(plan: TaskPlan, exec: Executor) returns (fatal: Option<string>)
      requires plan.cursor < |plan.tasks|
      requires var task := plan.tasks[plan.cursor];
               EvaluateWhen(task.when, plan.registers, plan.vars) && task.hasRequiredFields && !task.isConfirm
      modifies this`calls, plan
      ensures calls == old(calls) + [Call(NodeOf(old(plan.tasks[plan.cursor])), old(plan.tasks[plan.cursor]),
                                          old(plan.registers), plan.vars)]
      ensures fatal.None? ==>
                && plan.cursor == old(plan.cursor) + 1
                && LegOf(plan.View(), calls, exec) == LegOf(old(plan.View()), old(calls), exec)
                && Left(plan.tasks, plan.cursor) < Left(old(plan.tasks), old(plan.cursor))
      ensures fatal.Some? ==>
                LegOf(old(plan.View()), old(calls), exec) ==
                Leg(Broken(fatal.value), old(plan.tasks), old(plan.cursor), old(plan.registers), calls)
    {
      var task := plan.tasks[plan.cursor];
      LegStep(plan.View(), calls, exec);
      LessLeft(plan.tasks, plan.cursor);
      calls := calls + [Call(NodeOf(task), task, plan.registers, plan.vars)];
      match exec(calls) {
        case Ok(value) =>
          plan.Register(task, value);
        case Thrown(message) =>
          if task.rescue != [] {
            plan.SpliceRescue(plan.cursor);
          } else if !task.ignoreErrors {
            return Some(message);
          }
      }
      plan.cursor := plan.cursor + 1;
      return None;
    }

    method ExecutePlan(runId: string, plan: TaskPlan, exec: Executor, actor: Option<string>)
      returns (response: Response)
      modifies this, plan
      ensures (View(), response) == Executed(old(View()), runId, old(plan.View()), exec, actor)
    {
      ghost var leg := LegOf(plan.View(), calls, exec);
      while plan.cursor < |plan.tasks|
        invariant runs == old(runs)
        invariant LegOf(plan.View(), calls, exec) == leg
        decreases Left(plan.tasks, plan.cursor)
      {
        var task := plan.tasks[plan.cursor];
        LegStep(plan.View(), calls, exec);
        if !EvaluateWhen(task.when, plan.registers, plan.vars) {
          LessLeft(plan.tasks, plan.cursor);
          plan.cursor := plan.cursor + 1;
          continue;
        }
        if !task.hasRequiredFields {
          return ValidationError(task.name);
        }
        if task.isConfirm {
          runs := WithRow(runs, runId, Pause(task.name, plan.View(), actor));
          return Answer(AwaitingApproval);
        }
        var fatal := RunTask(plan, exec);
        if fatal.Some? {
          runs := WithRow(runs, runId, Complete(Failed, fatal));
          return Answer(Failed);
        }
      }
      runs := WithRow(runs, runId, Complete(Succeeded, None));
      response := Answer(Succeeded);
    }

    method RunTasks(runId: string, tasks: seq<Task>, vars: Vars, exec: Executor, createdBy: Option<string>)
      returns (response: Response)
      modifies this
      ensures (View(), response) == Begun(old(View()), runId, tasks, vars, exec, createdBy)
    {
      if tasks == [] {
        return Answer(Succeeded);
      }
      var plan := new TaskPlan(Plan(tasks, 0, map[], vars));
      response := ExecutePlan(runId, plan, exec, createdBy);
    }

    method ContinueRun(runId: string, approvedBy: string, exec: Executor) returns (response: Response)
      modifies this
      ensures (View(), response) == Continued(old(View()), runId, approvedBy, exec)
    {
      if runId !in runs || runs[runId].status != AwaitingApproval {
        return Conflict;
      }
      var row := runs[runId];
      if row.pendingPlan.None? || row.pendingPlan.value.tasks == [] {
        return Conflict;
      }
      var plan := new TaskPlan(row.pendingPlan.value);
      plan.AdvancePastApprovedGate(row.gateStepId);
      runs := WithRow(runs, runId, Approve(approvedBy));
      response := ExecutePlan(runId, plan, exec, Some(approvedBy));
      if response == Answer(AwaitingApproval) {
        response := Answer(Running);
      }
    }

    method AbortRun(runId: string) returns (response: Response)
      modifies this
      ensures (View(), response) == Aborted(old(View()), runId)
    {
      if runId !in runs || (runs[runId].status != AwaitingApproval && runs[runId].status != Running) {
        return Conflict;
      }
      runs := WithRow(runs, runId, Complete(Failed, Some("Run aborted by operator.")));
      response := Answer(Failed);
    }
  }
}
