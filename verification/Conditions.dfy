/** When a playbook task runs: its `when` expression in terms of the registers and variables, and where it is sent. */
module Conditions {
  import opened Text
  import opened Playbook

  /** A name as `when` expressions use it: not empty, without dots and white space. */
  predicate Plain(name: string) {
    name != "" && '.' !in name && forall c :: c in name ==> !IsSpace(c)
  }

  /** The node a task is sent to: its target, else its group, else the local node. */
  predicate SentTo(task: Task, node: string) {
    && (task.target.Some? ==> node == task.target.value)
    && (task.target.None? && task.targetGroup.Some? ==> node == task.targetGroup.value)
    && (task.target.None? && task.targetGroup.None? ==> node == "local")
  }

  /** The first thing a walk of the plan asks the executor is this task, on this node, with the plan's registers. */
  predicate CallsFirst(plan: Plan, calls: seq<Call>, exec: Executor, task: Task, node: string) {
    calls + [Call(node, task, plan.registers, plan.vars)] <= LegOf(plan, calls, exec).calls
  }

  /** The plan's next task can only be skipped or called: it has its fields and is no gate. */
  predicate NextIs(plan: Plan, task: Task) {
    && plan.cursor < |plan.tasks| && plan.tasks[plan.cursor] == task
    && task.hasRequiredFields && !task.isConfirm
  }

  // ---- the first call of a walk -----------------------------------------------------------

  lemma {:induction false} CallsOnlyGrow(plan: Plan, calls: seq<Call>, exec: Executor)
    ensures calls <= LegOf(plan, calls, exec).calls
    decreases Left(plan.tasks, plan.cursor)
  {
    if plan.cursor < |plan.tasks| {
      var task := plan.tasks[plan.cursor];
      var calls' := calls + [Call(NodeOf(task), task, plan.registers, plan.vars)];
      var next := plan.(cursor := plan.cursor + 1);
      LegStep(plan, calls, exec);
      LessLeft(plan.tasks, plan.cursor);
      CallsOnlyGrow(next, calls, exec);
      CallsOnlyGrow(next, calls', exec);
      CallsOnlyGrow(next.(tasks := Spliced(plan.tasks, plan.cursor)), calls', exec);
      if exec(calls').Ok? {
        CallsOnlyGrow(next.(registers := Registered(plan.registers, task, exec(calls').value)), calls', exec);
      }
    }
  }

  /** The first call of a walk is of a task whose expression holds under the registers the walk starts with. */
  lemma {:induction false} FirstCallHolds(plan: Plan, calls: seq<Call>, exec: Executor)
    ensures var leg := LegOf(plan, calls, exec);
            |leg.calls| > |calls| ==> EvaluateWhen(leg.calls[|calls|].task.when, plan.registers, plan.vars)
    decreases Left(plan.tasks, plan.cursor)
  {
    if plan.cursor < |plan.tasks| {
      var task := plan.tasks[plan.cursor];
      LegStep(plan, calls, exec);
      LessLeft(plan.tasks, plan.cursor);
      if !EvaluateWhen(task.when, plan.registers, plan.vars) {
        FirstCallHolds(plan.(cursor := plan.cursor + 1), calls, exec);
      } else if task.hasRequiredFields && !task.isConfirm {
        CalledIfHolds(plan, calls, exec, task);
      }
    }
  }

  lemma CalledIfHolds(plan: Plan, calls: seq<Call>, exec: Executor, task: Task)
    requires NextIs(plan, task) && EvaluateWhen(task.when, plan.registers, plan.vars)
    ensures CallsFirst(plan, calls, exec, task, NodeOf(task))
  {
    var calls' := calls + [Call(NodeOf(task), task, plan.registers, plan.vars)];
    var next := plan.(cursor := plan.cursor + 1);
    LegStep(plan, calls, exec);
    CallsOnlyGrow(next, calls', exec);
    CallsOnlyGrow(next.(tasks := Spliced(plan.tasks, plan.cursor)), calls', exec);
    if exec(calls').Ok? {
      CallsOnlyGrow(next.(registers := Registered(plan.registers, task, exec(calls').value)), calls', exec);
    }
  }

  /** A walk starts with its next task exactly when that task's expression holds. */
  lemma CallsFirstIff(plan: Plan, calls: seq<Call>, exec: Executor, task: Task, node: string)
    requires NextIs(plan, task) && SentTo(task, node)
    ensures CallsFirst(plan, calls, exec, task, node) <==> EvaluateWhen(task.when, plan.registers, plan.vars)
  {
    assert node == NodeOf(task);
    if EvaluateWhen(task.when, plan.registers, plan.vars) {
      CalledIfHolds(plan, calls, exec, task);
    } else {
      var leg := LegOf(plan, calls, exec);
      FirstCallHolds(plan, calls, exec);
      assert |leg.calls| > |calls| ==> leg.calls[|calls|].task != task;
    }
  }

  // ---- the forms of an expression ---------------------------------------------------------

  lemma {:induction false} CutAtDot(name: string, rest: string)
    requires '.' !in name
    ensures Before(name) == name && Before(name + "." + rest) == name && After(name + "." + rest) == rest
  {
    if name == "" {
      assert ("" + "." + rest)[1..] == rest;
    } else {
      assert name[0] in name && forall c :: c in name[1..] ==> c in name;
      CutAtDot(name[1..], rest);
      assert (name + "." + rest)[1..] == name[1..] + "." + rest;
      assert [name[0]] + name[1..] == name;
    }
  }

  lemma PlainTrims(name: string)
    requires Plain(name)
    ensures TrimStart(name) == name && TrimEnd(name) == name && Trim(name) == name
  {
    assert name[0] in name && name[|name| - 1] in name;
  }

  /** What an expression that starts with a plain name and a dot trims to. */
  lemma DottedTrims(register: string, rest: string)
    requires Plain(register)
    ensures Trim(register + "." + rest) == register + "." + TrimEnd(rest)
  {
    var head := register + ".";
    assert register[0] in register && (head + rest)[0] == register[0];
    TrimStartIdle(head + rest);
    TrimEndAppend(head, rest);
    TrimEndIdle(head);
    if TrimEnd(rest) == "" {
      assert head + "" == head;
    }
  }

  lemma NoNegation(register: string, rest: string)
    requires Plain(register)
    ensures !IsNegation(register + "." + rest)
  {
    var s := register + "." + rest;
    assert |register| > 3 ==> s[3] == register[3] && register[3] in register;
    assert |register| <= 3 && |s| >= 4 ==> s[..4][|register|] == '.' && "not "[|register|] != '.';
  }

  /** The second name behind a register: a further dot and what follows it is cut off. */
  lemma FieldCut(field: string, more: string)
    requires Plain(field) && (more == "" || more[0] == '.')
    ensures Before(TrimEnd(field + more)) == field
  {
    PlainTrims(field);
    TrimEndAppend(field, more);
    if more == "" {
      assert field + more == field;
      CutAtDot(field, "");
    } else {
      TrimEndFirst(more);
      var rest := TrimEnd(more)[1..];
      assert TrimEnd(more) == "." + rest;
      assert field + TrimEnd(more) == field + "." + rest;
      CutAtDot(field, rest);
    }
  }

  /** The register is a bag that has the field with a value that is a bag or truthy. */
  predicate FieldHolds(registers: Registers, register: string, field: string) {
    && register in registers && registers[register].Bag?
    && field in registers[register].fields
    && (registers[register].fields[field].Bag? || registers[register].fields[field].truthy)
  }

  lemma DottedIs(register: string, field: string, more: string, registers: Registers, vars: Vars)
    requires Plain(register) && Plain(field) && (more == "" || more[0] == '.')
    ensures EvaluateWhen(register + "." + (field + more), registers, vars) <==> FieldHolds(registers, register, field)
  {
    var rest := field + more;
    DottedTrims(register, rest);
    NoNegation(register, TrimEnd(rest));
    CutAtDot(register, TrimEnd(rest));
    FieldCut(field, more);
    assert (register + "." + TrimEnd(rest))[|register|] == '.';
  }

  lemma NegationIs(w: string, registers: Registers, vars: Vars)
    requires Trim(w) != ""
    ensures EvaluateWhen("not " + w, registers, vars) <==> !EvaluateWhen(w, registers, vars)
  {
    NotNegates(w, registers, vars);
  }

  lemma NameIs(name: string, registers: Registers, vars: Vars)
    requires Plain(name)
    ensures EvaluateWhen(name, registers, vars) <==>
            (name in vars ==> exists c :: c in vars[name] && !IsSpace(c))
  {
    PlainTrims(name);
    assert |name| >= 4 ==> name[..4][3] in name;
    assert !IsNegation(name);
    if name in vars {
      TrimStartEnd(vars[name]);
      TrimEndSpaces(vars[name]);
    }
  }

  // ---- when a task runs -------------------------------------------------------------------

  /**
   * A register's field. A task conditioned on `register.field` is the first thing a walk asks for exactly when the
   * register is a bag that has the field with a value that is a bag or truthy; a third part behind another dot
   * changes nothing.
   */
  lemma FieldDecides(
    plan: Plan, calls: seq<Call>, exec: Executor, task: Task, node: string, register: string, field: string,
    more: string)
    requires NextIs(plan, task) && SentTo(task, node)
    requires Plain(register) && Plain(field) && (more == "" || more[0] == '.')
    requires task.when == register + "." + (field + more)
    ensures CallsFirst(plan, calls, exec, task, node) <==>
            && register in plan.registers && plan.registers[register].Bag?
            && field in plan.registers[register].fields
            && (plan.registers[register].fields[field].Bag? || plan.registers[register].fields[field].truthy)
  {
    CallsFirstIff(plan, calls, exec, task, node);
    DottedIs(register, field, more, plan.registers, plan.vars);
  }

  /** With `not` in front it runs exactly when the field does not hold. */
  lemma NegatedFieldDecides(
    plan: Plan, calls: seq<Call>, exec: Executor, task: Task, node: string, register: string, field: string,
    more: string)
    requires NextIs(plan, task) && SentTo(task, node)
    requires Plain(register) && Plain(field) && (more == "" || more[0] == '.')
    requires task.when == "not " + (register + "." + (field + more))
    ensures CallsFirst(plan, calls, exec, task, node) <==>
            !(&& register in plan.registers && plan.registers[register].Bag?
              && field in plan.registers[register].fields
              && (plan.registers[register].fields[field].Bag? || plan.registers[register].fields[field].truthy))
  {
    var w := register + "." + (field + more);
    CallsFirstIff(plan, calls, exec, task, node);
    DottedTrims(register, field + more);
    NegationIs(w, plan.registers, plan.vars);
    DottedIs(register, field, more, plan.registers, plan.vars);
  }

  /** A variable. A task conditioned on a plain name runs exactly when it is no variable or its value is not blank. */
  lemma VariableDecides(plan: Plan, calls: seq<Call>, exec: Executor, task: Task, node: string)
    requires NextIs(plan, task) && SentTo(task, node) && Plain(task.when)
    ensures CallsFirst(plan, calls, exec, task, node) <==>
            || task.when !in plan.vars
            || exists c :: c in plan.vars[task.when] && !IsSpace(c)
  {
    CallsFirstIff(plan, calls, exec, task, node);
    NameIs(task.when, plan.registers, plan.vars);
  }

  /** A task without a condition, or with a blank one, always runs. */
  lemma BlankAlwaysRuns(plan: Plan, calls: seq<Call>, exec: Executor, task: Task, node: string)
    requires NextIs(plan, task) && SentTo(task, node) && forall c :: c in task.when ==> IsSpace(c)
    ensures CallsFirst(plan, calls, exec, task, node)
  {
    CallsFirstIff(plan, calls, exec, task, node);
    TrimEndSpaces(task.when);
    TrimStartEnd(task.when);
  }

  /**
   * What a task leaves for later ones. If the next task registers its result and the executor answers it with a bag,
   * then a task behind it that is conditioned on one of the bag's fields is called right after it exactly when the
   * bag has that field with a value that is a bag or truthy.
   */
  lemma ResultDecides(
    plan: Plan, calls: seq<Call>, exec: Executor, task: Task, node: string, after: Task, node': string,
    fields: map<string, Value>, field: string)
    requires NextIs(plan, task) && SentTo(task, node) && forall c :: c in task.when ==> IsSpace(c)
    requires Plain(task.register) && Plain(field)
    requires exec(calls + [Call(node, task, plan.registers, plan.vars)]) == Ok(Bag(fields))
    requires plan.cursor + 1 < |plan.tasks| && plan.tasks[plan.cursor + 1] == after
    requires after.hasRequiredFields && !after.isConfirm && SentTo(after, node')
    requires after.when == task.register + "." + field
    ensures var registers := plan.registers[task.register := Bag(fields)];
            calls + [Call(node, task, plan.registers, plan.vars)] + [Call(node', after, registers, plan.vars)]
            <= LegOf(plan, calls, exec).calls
            <==> field in fields && (fields[field].Bag? || fields[field].truthy)
  {
    var calls' := calls + [Call(node, task, plan.registers, plan.vars)];
    var next := plan.(cursor := plan.cursor + 1, registers := plan.registers[task.register := Bag(fields)]);
    TrimEndSpaces(task.when);
    TrimStartEnd(task.when);
    LegStep(plan, calls, exec);
    assert LegOf(plan, calls, exec) == LegOf(next, calls', exec);
    assert field + "" == field;
    FieldDecides(next, calls', exec, after, node', task.register, field, "");
  }
}
