/** The workflow endpoint: steps run in order, up to the first that fails or times out. */
module Workflow {
  import opened Text
  import opened Wrappers
  import opened ExecProtocol

  // Actions

  /** unicode.ToLower, exact for the letters that it takes into ASCII. */
  function Lower(c: char): char {
    if 'A' <= c <= 'Z' then (c as int - 'A' as int + 'a' as int) as char
    else if c == '\U{212A}' then 'k'
    else if c == '\U{130}' then 'i'
    else c
  }

  function ToLower(s: string): string {
    seq(|s|, i requires 0 <= i < |s| => Lower(s[i]))
  }

  /** normalizeWorkflowAction. */
  function Normalize(action: string): string {
    var name := ToLower(Trim(action));
    if name == "create_sandbox" || name == "create" || name == "createsandbox" then "create_sandbox"
    else if name == "exec_command" || name == "exec" || name == "execcommand" then "exec_command"
    else if name == "create_snapshot" || name == "snapshot" || name == "createsnapshot" then "create_snapshot"
    else if name == "rollback_snapshot" || name == "rollback" || name == "rollbacksnapshot" then "rollback_snapshot"
    else if name == "delete_sandbox" || name == "delete" || name == "deletesandbox" then "delete_sandbox"
    else Trim(action)
  }

  /** The letter in either case, and the two letters beyond ASCII that ToLower takes to it. */
  predicate SameLetter(c: char, letter: char) {
    || c == letter
    || ('a' <= letter <= 'z' && c as int + 32 == letter as int)
    || (letter == 'k' && c == '\U{212A}') || (letter == 'i' && c == '\U{130}')
  }

  /** The action, white space around it aside, is this name in any letter case. */
  predicate Spells(action: string, name: string) {
    |Trim(action)| == |name| && forall i :: 0 <= i < |name| ==> SameLetter(Trim(action)[i], name[i])
  }

  lemma SpellsExactly(action: string, name: string)
    requires ToLower(name) == name
    ensures ToLower(Trim(action)) == name <==> Spells(action, name)
  {
    var lower := ToLower(Trim(action));
    assert forall i :: 0 <= i < |name| ==> Lower(name[i]) == ToLower(name)[i];
    assert forall i :: 0 <= i < |lower| ==> lower[i] == Lower(Trim(action)[i]);
  }

  lemma AnySpelled(action: string, a: string, b: string, c: string)
    requires ToLower(a) == a && ToLower(b) == b && ToLower(c) == c
    ensures var lower := ToLower(Trim(action));
            lower == a || lower == b || lower == c <==> Spells(action, a) || Spells(action, b) || Spells(action, c)
  {
    SpellsExactly(action, a);
    SpellsExactly(action, b);
    SpellsExactly(action, c);
  }

  // The three names of each action, in any letter case and with white space around them, and no other.

  lemma CreateNames(action: string)
    ensures Normalize(action) == "create_sandbox"
            <==> Spells(action, "create_sandbox") || Spells(action, "create") || Spells(action, "createsandbox")
  {
    AnySpelled(action, "create_sandbox", "create", "createsandbox");
  }

  lemma ExecNames(action: string)
    ensures Normalize(action) == "exec_command"
            <==> Spells(action, "exec_command") || Spells(action, "exec") || Spells(action, "execcommand")
  {
    AnySpelled(action, "exec_command", "exec", "execcommand");
  }

  lemma SnapshotNames(action: string)
    ensures Normalize(action) == "create_snapshot"
            <==> Spells(action, "create_snapshot") || Spells(action, "snapshot") || Spells(action, "createsnapshot")
  {
    AnySpelled(action, "create_snapshot", "snapshot", "createsnapshot");
  }

  lemma RollbackNames(action: string)
    ensures Normalize(action) == "rollback_snapshot"
            <==> Spells(action, "rollback_snapshot") || Spells(action, "rollback") || Spells(action, "rollbacksnapshot")
  {
    AnySpelled(action, "rollback_snapshot", "rollback", "rollbacksnapshot");
    var lower := ToLower(Trim(action));
    if lower == "rollback_snapshot" || lower == "rollback" || lower == "rollbacksnapshot" {
      assert lower[0] == 'r';
    } else {
      assert Trim(action) != "rollback_snapshot";
    }
  }

  lemma DeleteNames(action: string)
    ensures Normalize(action) == "delete_sandbox"
            <==> Spells(action, "delete_sandbox") || Spells(action, "delete") || Spells(action, "deletesandbox")
  {
    AnySpelled(action, "delete_sandbox", "delete", "deletesandbox");
    var lower := ToLower(Trim(action));
    if lower == "delete_sandbox" || lower == "delete" || lower == "deletesandbox" {
      assert lower[0] == 'd';
    } else {
      assert Trim(action) != "delete_sandbox";
    }
  }

  // Steps and what they meet

  datatype Step = Step(
    action: string, sandbox: string, command: string, snapshot: string, webhook: string, wait: Option<bool>)

  /** An exec as the endpoint reports it. */
  datatype ExecReport = ExecReport(exec: string, status: Status)

  /** The answers of the service to the calls that a step may make; the step looks at those that it needs. */
  datatype Reply = Reply(
    created: Result<string, string>,
    authorized: bool,
    executed: Result<ExecReport, string>,
    subscribed: bool,
    waited: Result<(ExecReport, bool), string>,
    snapshotted: Result<string, string>,
    rolledBack: bool,
    deleted: bool)

  datatype Verdict = Done | Failed | TimedOut

  datatype Item = Item(
    index: nat, action: string, verdict: Verdict, sandbox: string, snapshot: string, result: Option<ExecReport>)

  function Fresh(index: nat, action: string): Item {
    Item(index, action, Done, "", "", None)
  }

  function FailedItem(index: nat, action: string): Item {
    Fresh(index, action).(verdict := Verdict.Failed)
  }

  predicate Waits(step: Step) { step.wait.None? || step.wait.value }

  /** One step, given the sandbox that it means when it names none. */
  function Outcome(index: nat, step: Step, reply: Reply, implicit: string): Item {
    var action := Normalize(Trim(step.action));
    var sandbox := if Trim(step.sandbox) != "" then Trim(step.sandbox) else implicit;
    var done := Fresh(index, action).(sandbox := sandbox);
    if action == "create_sandbox" then
      if reply.created.Ok? then done.(sandbox := reply.created.value) else FailedItem(index, action)
    else if sandbox == "" then FailedItem(index, action)
    else if action == "exec_command" then
      if !reply.authorized || Trim(step.command) == "" || reply.executed.Err? || (Trim(step.webhook) != "" && !reply.subscribed)
      then FailedItem(index, action)
      else if !Waits(step) then done.(result := Some(reply.executed.value))
      else if reply.waited.Err? then FailedItem(index, action)
      else if reply.waited.value.1 then done.(verdict := TimedOut, result := Some(reply.waited.value.0))
      else done.(result := Some(reply.executed.value))
    else if action == "create_snapshot" then
      if !reply.authorized || reply.snapshotted.Err? then FailedItem(index, action)
      else done.(snapshot := reply.snapshotted.value)
    else if action == "rollback_snapshot" then
      if Trim(step.snapshot) == "" || !reply.authorized || !reply.rolledBack then FailedItem(index, action)
      else done.(snapshot := step.snapshot)
    else if action == "delete_sandbox" then
      if !reply.authorized || !reply.deleted then FailedItem(index, action) else done
    else FailedItem(index, action)
  }

  // When a step is done

  /** The sandbox that a step works on, named or implied. */
  predicate WorksOn(step: Step, implicit: string, sandbox: string) {
    sandbox != "" && ((Trim(step.sandbox) != "" && sandbox == Trim(step.sandbox)) || (Trim(step.sandbox) == "" && sandbox == implicit))
  }

  lemma CreateDoneExactly(index: nat, step: Step, reply: Reply, implicit: string)
    requires Normalize(Trim(step.action)) == "create_sandbox"
    ensures var item := Outcome(index, step, reply, implicit);
            && item.index == index && item.action == "create_sandbox" && item.verdict != TimedOut
            && (item.verdict == Done <==> reply.created.Ok?)
            && (item.verdict == Done ==> item.sandbox == reply.created.value && item.snapshot == "" && item.result == None)
  {
  }

  /** A command has run, and been waited for, if asked, without an error or a timeout. */
  lemma ExecDoneExactly(index: nat, step: Step, reply: Reply, implicit: string)
    requires Normalize(Trim(step.action)) == "exec_command"
    ensures var item := Outcome(index, step, reply, implicit);
            var ran := && (Trim(step.sandbox) != "" || implicit != "") && reply.authorized && Trim(step.command) != ""
                       && reply.executed.Ok? && (Trim(step.webhook) == "" || reply.subscribed);
            var waits := step.wait != Some(false);
            && item.index == index && item.action == "exec_command" && item.snapshot == ""
            && (item.verdict == Done <==> ran && (waits ==> reply.waited.Ok? && !reply.waited.value.1))
            && (item.verdict == TimedOut <==> ran && waits && reply.waited.Ok? && reply.waited.value.1)
            && (item.verdict == Done ==> WorksOn(step, implicit, item.sandbox) && item.result == Some(reply.executed.value))
            && (item.verdict == TimedOut ==> WorksOn(step, implicit, item.sandbox) && item.result == Some(reply.waited.value.0))
  {
  }

  lemma SnapshotDoneExactly(index: nat, step: Step, reply: Reply, implicit: string)
    requires Normalize(Trim(step.action)) == "create_snapshot"
    ensures var item := Outcome(index, step, reply, implicit);
            && item.index == index && item.action == "create_snapshot" && item.verdict != TimedOut
            && (item.verdict == Done
                <==> (Trim(step.sandbox) != "" || implicit != "") && reply.authorized && reply.snapshotted.Ok?)
            && (item.verdict == Done ==>
                  WorksOn(step, implicit, item.sandbox) && item.snapshot == reply.snapshotted.value && item.result == None)
  {
  }

  lemma RollbackDoneExactly(index: nat, step: Step, reply: Reply, implicit: string)
    requires Normalize(Trim(step.action)) == "rollback_snapshot"
    ensures var item := Outcome(index, step, reply, implicit);
            && item.index == index && item.action == "rollback_snapshot" && item.verdict != TimedOut
            && (item.verdict == Done
                <==> (Trim(step.sandbox) != "" || implicit != "") && Trim(step.snapshot) != "" && reply.authorized && reply.rolledBack)
            && (item.verdict == Done ==>
                  WorksOn(step, implicit, item.sandbox) && item.snapshot == step.snapshot && item.result == None)
  {
  }

  lemma DeleteDoneExactly(index: nat, step: Step, reply: Reply, implicit: string)
    requires Normalize(Trim(step.action)) == "delete_sandbox"
    ensures var item := Outcome(index, step, reply, implicit);
            && item.index == index && item.action == "delete_sandbox" && item.verdict != TimedOut
            && (item.verdict == Done <==> (Trim(step.sandbox) != "" || implicit != "") && reply.authorized && reply.deleted)
            && (item.verdict == Done ==> WorksOn(step, implicit, item.sandbox) && item.snapshot == "" && item.result == None)
  {
  }

  /** An action by another name fails, whatever the service would answer; a step that fails says no more than that. */
  lemma OthersFail(index: nat, step: Step, reply: Reply, implicit: string)
    ensures var item, action := Outcome(index, step, reply, implicit), Normalize(Trim(step.action));
            && (item.verdict != Verdict.Failed ==>
                  || action == "create_sandbox" || action == "exec_command" || action == "create_snapshot"
                  || action == "rollback_snapshot" || action == "delete_sandbox")
            && (item.verdict == Verdict.Failed ==> item == Item(index, action, Verdict.Failed, "", "", None))
  {
  }

  // The sandbox that a step without a name means, told from the results alone

  /** The last result that created a sandbox, counted from one; zero for none. */
  function LastCreate(items: seq<Item>): (c: nat)
    ensures c <= |items|
    ensures c > 0 ==> items[c - 1].action == "create_sandbox"
    ensures forall j :: c <= j < |items| ==> items[j].action != "create_sandbox"
  {
    if items == [] then 0
    else if items[|items| - 1].action == "create_sandbox" then |items|
    else LastCreate(items[..|items| - 1])
  }

  predicate DeletedSince(items: seq<Item>, c: nat, sandbox: string) {
    exists j :: c <= j < |items| && items[j].action == "delete_sandbox" && items[j].sandbox == sandbox
  }

  /** The last sandbox created, unless it has been deleted since; an older one does not come back. */
  function Implicit(items: seq<Item>): string {
    var c := LastCreate(items);
    if c == 0 || DeletedSince(items, c, items[c - 1].sandbox) then "" else items[c - 1].sandbox
  }

  lemma ImplicitMoves(items: seq<Item>, item: Item)
    ensures item.action == "create_sandbox" && item.sandbox != "" ==> Implicit(items + [item]) == item.sandbox
    ensures item.action != "create_sandbox" ==>
              Implicit(items + [item])
              == if item.action == "delete_sandbox" && item.sandbox == Implicit(items) then "" else Implicit(items)
  {
  }

  // The loop

  datatype Report = Report(stoppedEarly: bool, items: seq<Item>)

  /** What fail-fast means: results in order, all but the last well done, and an early stop is a bad last result. */
  predicate FailFast(report: Report, count: nat) {
    var items := report.items;
    && 0 < |items| <= count
    && (forall i :: 0 <= i < |items| ==> items[i].index == i)
    && (forall i :: 0 <= i < |items| - 1 ==> items[i].verdict == Done)
    && (report.stoppedEarly <==> items[|items| - 1].verdict != Done)
    && (!report.stoppedEarly ==> |items| == count)
  }

  /** Each result is that of its step, run with the sandbox implied by the results before it. */
  predicate Faithful(items: seq<Item>, steps: seq<Step>, replies: seq<Reply>) {
    && |items| <= |steps| && |items| <= |replies|
    && forall i :: 0 <= i < |items| ==> items[i] == Outcome(i, steps[i], replies[i], Implicit(items[..i]))
  }

  predicate AllDone(items: seq<Item>) {
    forall i :: 0 <= i < |items| ==> items[i].verdict == Done
  }

  lemma FaithfulMore(items: seq<Item>, item: Item, steps: seq<Step>, replies: seq<Reply>)
    requires Faithful(items, steps, replies) && |items| < |steps| && |items| < |replies|
    requires item == Outcome(|items|, steps[|items|], replies[|items|], Implicit(items))
    ensures Faithful(items + [item], steps, replies)
  {
    var all := items + [item];
    forall i | 0 <= i < |all| ensures all[i] == Outcome(i, steps[i], replies[i], Implicit(all[..i])) {
      if i < |items| {
        assert all[..i] == items[..i];
      } else {
        assert all[..i] == items;
      }
    }
  }

  predicate Indexed(items: seq<Item>) {
    forall i :: 0 <= i < |items| ==> items[i].index == i
  }

  /** Where the loop stands: `current` is the sandbox that the next step means if it names none. */
  predicate SoFar(items: seq<Item>, current: string) {
    AllDone(items) && Indexed(items) && current == Implicit(items)
  }

  /** What a step that is done makes of the current sandbox. */
  predicate Moves(item: Item, current: string, next: string) {
    item.verdict == Done ==>
      if item.action == "create_sandbox" then next == item.sandbox && next != ""
      else next == if item.action == "delete_sandbox" && item.sandbox == current then "" else current
  }

  lemma LastDecides(done: seq<Item>, last: Item, count: nat)
    requires AllDone(done) && Indexed(done) && last.index == |done| < count
    requires last.verdict == Done ==> |done| + 1 == count
    ensures FailFast(Report(last.verdict != Done, done + [last]), count)
  {
  }

  lemma SoFarMore(items: seq<Item>, item: Item, count: nat, current: string, next: string)
    requires SoFar(items, current) && item.index == |items| < count && Moves(item, current, next)
    ensures item.verdict == Done ==> SoFar(items + [item], next)
    ensures item.verdict != Done || |items| + 1 == count ==> FailFast(Report(item.verdict != Done, items + [item]), count)
  {
    ImplicitMoves(items, item);
    if item.verdict != Done || |items| + 1 == count {
      LastDecides(items, item, count);
    }
  }

  method RunWorkflow(session: string, steps: seq<Step>, replies: seq<Reply>) returns (r: Option<Report>)
    requires |replies| == |steps|
    requires forall i :: 0 <= i < |replies| && replies[i].created.Ok? ==> replies[i].created.value != ""
    ensures r.None? <==> Trim(session) == "" || steps == []
    ensures r.Some? ==> FailFast(r.value, |steps|) && Faithful(r.value.items, steps, replies)
  {
    if Trim(session) == "" || |steps| == 0 {
      return None;
    }
    var current := "";
    var items: seq<Item> := [];
    for i := 0 to |steps|
      invariant |items| == i && SoFar(items, current) && Faithful(items, steps, replies)
      invariant i == |steps| ==> FailFast(Report(false, items), |steps|)
    {
      var item, next := RunStep(i, steps[i], replies[i], current);
      FaithfulMore(items, item, steps, replies);
      SoFarMore(items, item, |steps|, current, next);
      items := items + [item];
      if item.verdict != Done {
        return Some(Report(true, items));
      }
      current := next;
    }
    return Some(Report(false, items));
  }

  /** The body of the loop: the item, and the new current sandbox. */
  method RunStep(index: nat, step: Step, reply: Reply, current: string) returns (item: Item, next: string)
    requires reply.created.Ok? ==> reply.created.value != ""
    ensures item == Outcome(index, step, reply, current) && item.index == index && Moves(item, current, next)
  {
    var action := Normalize(Trim(step.action));
    item, next := Fresh(index, action), current;
    var failed := FailedItem(index, action);
    if action == "create_sandbox" {
      if reply.created.Err? {
        return failed, next;
      }
      next := reply.created.value;
      item := item.(sandbox := reply.created.value);
      return;
    }
    var sandbox := Trim(step.sandbox);
    if sandbox == "" {
      sandbox := current;
    }
    if sandbox == "" {
      return failed, next;
    }
    if action == "exec_command" {
      if !reply.authorized || Trim(step.command) == "" || reply.executed.Err? {
        return failed, next;
      }
      if Trim(step.webhook) != "" && !reply.subscribed {
        return failed, next;
      }
      if Waits(step) {
        if reply.waited.Err? {
          return failed, next;
        }
        // These two are local to the wait.
        var (execResult, timedOut) := reply.waited.value;
        if timedOut {
          item := item.(verdict := TimedOut, sandbox := sandbox, result := Some(execResult));
          return;
        }
      }
      item := item.(sandbox := sandbox, result := Some(reply.executed.value));
    } else if action == "create_snapshot" {
      if !reply.authorized || reply.snapshotted.Err? {
        return failed, next;
      }
      item := item.(sandbox := sandbox, snapshot := reply.snapshotted.value);
    } else if action == "rollback_snapshot" {
      if Trim(step.snapshot) == "" || !reply.authorized || !reply.rolledBack {
        return failed, next;
      }
      item := item.(sandbox := sandbox, snapshot := step.snapshot);
    } else if action == "delete_sandbox" {
      if !reply.authorized || !reply.deleted {
        return failed, next;
      }
      if sandbox == current {
        next := "";
      }
      item := item.(sandbox := sandbox);
    } else {
      return failed, next;
    }
  }

  /**
  In the results of a workflow, an exec step that is done reports what the service answered before any wait,
  so it is reported terminal if and only if it was terminal then.
  */
  lemma DoneExecReportsInitial(items: seq<Item>, steps: seq<Step>, replies: seq<Reply>, i: nat)
    requires Faithful(items, steps, replies) && i < |items|
    requires items[i].action == "exec_command" && items[i].verdict == Done
    ensures replies[i].executed.Ok? && items[i].result.Some?
    ensures items[i].result.value.status.Terminal() <==> replies[i].executed.value.status.Terminal()
    ensures Waits(steps[i]) ==> replies[i].waited.Ok? && !replies[i].waited.value.1
  {
    ExecOutcome(i, steps[i], replies[i], Implicit(items[..i]));
  }

  /** One step that runs a command and waits for it: the wait sees it succeed, the result says that it is running. */
  lemma WaitIsForgotten() returns (items: seq<Item>, steps: seq<Step>, replies: seq<Reply>)
    ensures Faithful(items, steps, replies) && FailFast(Report(false, items), |steps|)
    ensures |items| == 1 && items[0].action == "exec_command" && Waits(steps[0])
    ensures replies[0].waited.Ok? && !replies[0].waited.value.1 && replies[0].waited.value.0.status == Succeeded
    ensures items[0].verdict == Done && items[0].result.Some? && items[0].result.value.status == Running
  {
    var running, ended := ExecReport("e", Running), ExecReport("e", Succeeded);
    steps := [Step("exec_command", "box", "make", "", "", None)];
    replies := [Reply(Err(""), true, Ok(running), true, Ok((ended, false)), Err(""), false, false)];
    TrimFixes("exec_command");
    TrimFixes("box");
    TrimFixes("make");
    TrimFixes("");
    assert ToLower("exec_command") == "exec_command";
    items := [Fresh(0, "exec_command").(sandbox := "box", result := Some(running))];
    assert Implicit(items[..0]) == "";
  }

  lemma ExecOutcome(index: nat, step: Step, reply: Reply, implicit: string)
    ensures var item := Outcome(index, step, reply, implicit);
            item.action == "exec_command" && item.verdict == Done ==>
              && reply.executed.Ok? && item.result == Some(reply.executed.value)
              && (Waits(step) ==> reply.waited.Ok? && !reply.waited.value.1)
  {
  }

  /** No step works on a sandbox without a name: an item that is done names the step's own sandbox or the implicit one. */
  lemma DoneNamesItsSandbox(index: nat, step: Step, reply: Reply, implicit: string)
    requires Outcome(index, step, reply, implicit).verdict != Verdict.Failed
    requires Normalize(Trim(step.action)) != "create_sandbox"
    ensures var sandbox := Outcome(index, step, reply, implicit).sandbox;
            sandbox != "" && sandbox == if Trim(step.sandbox) != "" then Trim(step.sandbox) else implicit
  {
  }
}
