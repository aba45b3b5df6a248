/**
The exec service as code that updates its map of tasks and its tables in place.
Every method is a section of the source under the mutex or a store call, and
refines steps of the protocol.
*/
module ExecService {
  import opened Wrappers
  import opened Text
  import opened ExecProtocol

  /** A row of exec_webhook_subscriptions. */
  datatype Hook = Hook(exec: string, url: string, delivered: bool)

  datatype Refusal = BadRequest | NotFound | StoreFailed

  /** The map and the table hold the two copies of every task. */
  ghost predicate HoldsTasks(execs: map<string, Exec>, execMap: map<string, Task>, execRows: map<string, Task>) {
    && execs.Keys == execMap.Keys && execRows.Keys <= execMap.Keys
    && forall e :: e in execMap ==>
                     && execs[e].task == execMap[e]
                     && execs[e].row == if e in execRows then Some(execRows[e]) else None
  }

  ghost predicate HoldsHooks(subs: map<string, Subscription>, hooks: map<string, Hook>) {
    && subs.Keys == hooks.Keys
    && forall k :: k in hooks ==> hooks[k] == Hook(subs[k].exec, subs[k].url, subs[k].delivered)
  }

  lemma PutTask(execs: map<string, Exec>, execMap: map<string, Task>, execRows: map<string, Task>, exec: string, e: Exec)
    requires HoldsTasks(execs, execMap, execRows)
    requires e.row == if exec in execRows then Some(execRows[exec]) else None
    ensures HoldsTasks(execs[exec := e], execMap[exec := e.task], execRows)
  {
  }

  lemma PutRow(execs: map<string, Exec>, execMap: map<string, Task>, execRows: map<string, Task>, exec: string, e: Exec)
    requires HoldsTasks(execs, execMap, execRows) && exec in execs && e.task == execs[exec].task && e.row.Some?
    ensures HoldsTasks(execs[exec := e], execMap, execRows[exec := e.row.value])
  {
  }

  /** What a worker has posted once it has served the rows `ks`. */
  function Posts(urls: map<string, string>, exec: string, result: Task): set<Delivery> {
    set k | k in urls :: Delivery(exec, urls[k], result)
  }

  lemma PostsMore(urls: map<string, string>, queue: map<string, string>, exec: string, result: Task, k: string)
    requires k in queue && k in urls && queue[k] == urls[k]
    ensures Posts(urls - (queue - {k}).Keys, exec, result)
            == Posts(urls - queue.Keys, exec, result) + {Delivery(exec, urls[k], result)}
  {
    var less, more := urls - queue.Keys, urls - (queue - {k}).Keys;
    assert more == less[k := urls[k]];
    forall d ensures d in Posts(more, exec, result) <==> d in Posts(less, exec, result) + {Delivery(exec, urls[k], result)} {
      if d in Posts(less, exec, result) {
        var j :| j in less && d == Delivery(exec, less[j], result);
        assert j in more;
      } else if d == Delivery(exec, urls[k], result) {
        assert k in more;
      }
    }
  }

  /** `served` is the set `ks`, each once. */
  ghost predicate Lists(served: seq<string>, ks: set<string>) {
    && (forall k :: k in served <==> k in ks)
    && (forall i, j :: 0 <= i < j < |served| ==> served[i] != served[j])
  }

  lemma ListsMore(served: seq<string>, pending: set<string>, queue: set<string>, k: string)
    requires queue <= pending && Lists(served, pending - queue) && k in queue
    ensures Lists(served + [k], pending - (queue - {k}))
  {
  }

  /** Where a worker left to itself stands when `queue` of the rows that were pending in `s0` is left. */
  ghost predicate Halfway(s0: State, s: State, worker: string, queue: map<string, string>) {
    worker in s0.workers && s0.workers[worker].ToList? &&
    var w := s0.workers[worker];
    var pending := Pending(s0.subs, w.exec);
    && (forall k :: k in queue ==> k in pending && queue[k] == pending[k])
    && worker in s.workers && s.workers[worker] == Delivering(w.exec, w.result, queue)
    && s.subs.Keys == s0.subs.Keys
    && (forall k :: k in s0.subs ==>
          s.subs[k] == if k in pending then s0.subs[k].(listed := true, delivered := k !in queue) else s0.subs[k])
    && s.sent == s0.sent + Posts(pending - queue.Keys, w.exec, w.result)
  }

  /** The rows that the worker has served so far. */
  ghost predicate ServedAllBut(s0: State, worker: string, served: seq<string>, queue: map<string, string>) {
    worker in s0.workers && Lists(served, Pending(s0.subs, s0.workers[worker].exec).Keys - queue.Keys)
  }

  lemma ServesMore(
      s0: State, s: State, worker: string, served: seq<string>, queue: map<string, string>, k: string)
    requires Halfway(s0, s, worker, queue) && k in queue && ServedAllBut(s0, worker, served, queue)
    ensures ServedAllBut(s0, worker, served + [k], queue - {k})
  {
    ListsMore(served, Pending(s0.subs, s0.workers[worker].exec).Keys, queue.Keys, k);
    assert (queue - {k}).Keys == queue.Keys - {k};
  }

  lemma HalfwayStarts(s0: State, worker: string)
    requires worker in s0.workers && s0.workers[worker].ToList? && s0.workers[worker].exec in s0.execs
    ensures Halfway(s0, Listed(s0, worker), worker, Pending(s0.subs, s0.workers[worker].exec))
  {
    var w := s0.workers[worker];
    assert Pending(s0.subs, w.exec) - Pending(s0.subs, w.exec).Keys == map[];
  }

  lemma HalfwayMoves(s0: State, s: State, worker: string, queue: map<string, string>, k: string)
    requires Halfway(s0, s, worker, queue) && k in queue
    ensures Halfway(s0, Sent(s, worker, k), worker, queue - {k})
  {
    var w := s0.workers[worker];
    PostsMore(Pending(s0.subs, w.exec), queue, w.exec, w.result, k);
  }

  /** With nothing left the worker has served every row that was pending, has posted its result to each, and left the rest alone. */
  lemma HalfwayEnds(s0: State, s: State, worker: string, served: seq<string>)
    requires Halfway(s0, s, worker, map[]) && ServedAllBut(s0, worker, served, map[])
    ensures Lists(served, Pending(s0.subs, s0.workers[worker].exec).Keys)
    ensures var w := s0.workers[worker];
            && Pending(s.subs, w.exec) == map[] && s.subs.Keys == s0.subs.Keys
            && s.sent == s0.sent + Posts(Pending(s0.subs, w.exec), w.exec, w.result)
            && forall k :: k in s.subs && k !in Pending(s0.subs, w.exec) ==> s.subs[k] == s0.subs[k]
  {
    var pending, none: map<string, string> := Pending(s0.subs, s0.workers[worker].exec), map[];
    assert none.Keys == {} && pending - none.Keys == pending && pending.Keys - none.Keys == pending.Keys;
  }

  lemma CleanTasks(
      execs: map<string, Exec>, execMap: map<string, Task>, execRows: map<string, Task>, gone: set<string>, before: string)
    requires HoldsTasks(execs, execMap, execRows)
    requires gone == set e | e in execRows && Expired(execRows[e], before)
    ensures HoldsTasks(CleanupRows(execs, before), execMap, execRows - gone)
  {
  }

  lemma CleanHooks(s: State, execs: map<string, Exec>, execMap: map<string, Task>, execRows: map<string, Task>, hooks: map<string, Hook>)
    requires HoldsHooks(s.subs, hooks) && HoldsTasks(execs, execMap, execRows)
    ensures HoldsHooks(WithRows(s, execs).subs, map k | k in hooks && hooks[k].exec in execRows :: hooks[k])
  {
  }

  /** The assignments of the closing section, in their order. */
  method Conclude(t: Task, output: Output, err: ExecError, now: string) returns (r: Task)
    ensures r == Finished(t, output, err, now)
  {
    r := t.(stdout := output.stdout, stderr := output.stderr);
    var wasCancelling := t.status == Cancelling;
    if output.exitCode != 0 || err == NoError {
      r := r.(exitCode := Some(output.exitCode));
    }
    r := r.(completedAt := now);
    if err == NoError {
      r := r.(status := Succeeded);
    } else if wasCancelling {
      r := r.(status := Cancelled);
      r := r.(error := "");
    } else {
      match err {
        case ContextCanceled => r := r.(status := Cancelled);
        case NotFoundError => r := r.(status := Failed); r := r.(error := NOT_FOUND_MESSAGE);
        case OtherError(message) => r := r.(status := Failed); r := r.(error := message);
      }
    }
  }

  /** The three steps of the closing section that assign. */
  ghost function Ends(s: State, exec: string, now: string): State
    requires exec in s.execs && s.execs[exec].runner.Returned?
  {
    EndError(EndStatus(EndOutcome(s, exec, now), exec), exec)
  }

  /** The three steps of the section make the finished record, and touch nothing but the exec and the lock. */
  lemma EndsFinished(s: State, exec: string, now: string)
    requires exec in s.execs && s.execs[exec].runner.Returned?
    ensures var e, s' := s.execs[exec], Ends(s, exec, now);
            && exec in s'.execs && s' == s.(execs := s.execs[exec := s'.execs[exec]], lock := Storing(exec))
            && s'.execs[exec].task == Finished(e.task, e.runner.output, e.runner.err, now)
            && s'.execs[exec].row == e.row
  {
  }

  predicate HasHook(hooks: map<string, Hook>, exec: string, url: string) {
    exists h :: h in hooks && hooks[h].exec == exec && hooks[h].url == url
  }

  lemma SameHooks(subs: map<string, Subscription>, hooks: map<string, Hook>, exec: string, url: string)
    requires HoldsHooks(subs, hooks)
    ensures HasHook(hooks, exec, url) <==> HasSubscription(subs, exec, url)
  {
    if h :| h in hooks && hooks[h].exec == exec && hooks[h].url == url {
      assert subs[h].exec == exec && subs[h].url == url;
    }
    if k :| k in subs && subs[k].exec == exec && subs[k].url == url {
      assert hooks[k].exec == exec && hooks[k].url == url;
    }
  }

  lemma PutHook(subs: map<string, Subscription>, hooks: map<string, Hook>, k: string, sub: Subscription)
    requires HoldsHooks(subs, hooks)
    ensures HoldsHooks(subs[k := sub], hooks[k := Hook(sub.exec, sub.url, sub.delivered)])
  {
  }

  lemma MarkHook(subs: map<string, Subscription>, hooks: map<string, Hook>, k: string)
    requires HoldsHooks(subs, hooks)
    ensures HoldsHooks(MarkDelivered(subs, k), if k in hooks then hooks[k := hooks[k].(delivered := true)] else hooks)
  {
  }

  class Service {
    var sandboxes: set<string>
    var execMap: map<string, Task>
    var execRows: map<string, Task>
    var hooks: map<string, Hook>
    /** The protocol state that the fields represent. */
    ghost var state: State

    ghost predicate Valid()
      reads this
    {
      && state.sandboxes == sandboxes
      && HoldsTasks(state.execs, execMap, execRows)
      && HoldsHooks(state.subs, hooks)
    }

    constructor (boxes: set<string>)
      ensures Valid() && state == Initial(boxes)
    {
      sandboxes, execMap, execRows, hooks, state := boxes, map[], map[], map[], Initial(boxes);
    }

    /** `inserts` is the outcome of the insert, which fails for certain when the sandbox has gone. */
    method Execute(sandbox: string, command: string, exec: string, now: string, inserts: bool)
      returns (r: Result<Task, Refusal>)
      requires Valid() && state.lock == Free && exec !in execMap
      modifies this
      ensures Valid()
      ensures r.Err? && r.error != StoreFailed <==> Trim(command) == "" || sandbox !in old(sandboxes)
      ensures r.Err? && r.error != StoreFailed ==> state == old(state)
      ensures var submitted := Submitted(old(state), exec, sandbox, Trim(command), now);
              match r
              case Ok(t) => inserts && t == NewTask(sandbox, Trim(command), now) && state == Inserted(submitted, exec)
              case Err(StoreFailed) =>
                !inserts && state == submitted.Put(exec, submitted.execs[exec].(runner := Abandoned))
              case Err(_) => true
    {
      var trimmed := Trim(command);
      if trimmed == "" {
        return Err(BadRequest);
      }
      if sandbox !in sandboxes {
        return Err(NotFound);
      }
      var task := NewTask(sandbox, trimmed, now);
      Register(exec, task);
      CreateExecTask(exec, inserts);
      return if inserts then Ok(task) else Err(StoreFailed);
    }

    method Register(exec: string, task: Task)
      requires Valid() && exec !in execMap && task == NewTask(task.sandbox, task.command, task.startedAt)
      modifies `execMap, `state
      ensures Valid() && state == Submitted(old(state), exec, task.sandbox, task.command, task.startedAt)
      ensures exec in state.execs && execMap == old(execMap)[exec := task]
    {
      PutTask(state.execs, execMap, execRows, exec, Exec(task, None, Creating, [Running], false));
      execMap := execMap[exec := task];
      state := Submitted(state, exec, task.sandbox, task.command, task.startedAt);
    }

    /** The insert of the row, which gives the task its runner. */
    method CreateExecTask(exec: string, inserts: bool)
      requires Valid() && exec in execMap && execMap[exec].recovery == "" && exec !in execRows
      modifies `execRows, `state
      ensures Valid()
      ensures state == if inserts then Inserted(old(state), exec)
                       else old(state).Put(exec, old(state).execs[exec].(runner := Abandoned))
    {
      ghost var e := state.execs[exec];
      if inserts {
        PutRow(state.execs, execMap, execRows, exec, e.(row := Some(execMap[exec]), runner := Starting));
        execRows := execRows[exec := execMap[exec]];
        state := Inserted(state, exec);
      } else {
        PutTask(state.execs, execMap, execRows, exec, e.(runner := Abandoned));
        assert execMap == execMap[exec := e.task];
        state := state.Put(exec, e.(runner := Abandoned));
      }
    }

    method PreExec(exec: string, note: Option<string>)
      requires Valid() && Enabled(state, PreExpand(exec, note))
      modifies `execMap, `state
      ensures Valid() && state == Apply(old(state), PreExpand(exec, note))
    {
      var t := execMap[exec];
      if note.Some? {
        t := t.(recovery := note.value);
      }
      PutTask(state.execs, execMap, execRows, exec, state.execs[exec].(task := t, runner := Executing));
      execMap := execMap[exec := t];
      state := Apply(state, PreExpand(exec, note));
    }

    /** One tick of pollExecMemoryDuringRun after an expansion that was triggered; `found` is the check of the task. */
    method PollOnce(exec: string, note: string) returns (found: bool)
      requires Valid() && state.lock == Free
      requires exec in execMap && (state.execs[exec].runner.Executing? || state.execs[exec].runner.Returned?)
      modifies `execMap, `state
      ensures Valid() && found == (old(execMap)[exec].status == Running)
      ensures exec in old(state).execs && state == if found then Polled(old(state), exec, note) else old(state)
    {
      var t := execMap[exec];
      found := t.status == Running;
      if found {
        if t.recovery != "" {
          t := t.(recovery := t.recovery + "; " + note);
        } else {
          t := t.(recovery := note);
        }
        PutTask(state.execs, execMap, execRows, exec, state.execs[exec].(task := t));
        execMap := execMap[exec := t];
        state := Polled(state, exec, note);
      }
    }

    /** UpdateExecTask; false when there is no such row. */
    method UpdateExecTask(exec: string, t: Task) returns (found: bool)
      requires HoldsTasks(state.execs, execMap, execRows) && exec in execMap && t.sandbox == execMap[exec].sandbox
      modifies `execRows
      ensures found == (exec in old(execRows))
      ensures HoldsTasks(
                state.execs[exec := state.execs[exec].(row := UpdateRow(state.execs[exec].row, t))], execMap, execRows)
    {
      found := exec in execRows;
      ghost var e := state.execs[exec];
      ghost var e' := e.(row := UpdateRow(e.row, t));
      if found {
        var row := execRows[exec];
        var row' := t.(sandbox := row.sandbox, command := row.command, startedAt := row.startedAt);
        PutRow(state.execs, execMap, execRows, exec, e');
        execRows := execRows[exec := row'];
      } else {
        assert state.execs[exec := e'] == state.execs;
      }
    }

    method FinishTask(exec: string, output: Output, err: ExecError, now: string) returns (t: Task)
      requires Valid() && state.lock == Free && now != "" && exec in execMap && state.execs[exec].runner == Returned(output, err)
      modifies `execMap, `state
      ensures Valid() && state == Ends(old(state), exec, now)
      ensures exec in execMap && t == execMap[exec] && exec in state.execs
    {
      t := Conclude(execMap[exec], output, err, now);
      EndsFinished(state, exec, now);
      PutTask(state.execs, execMap, execRows, exec, Ends(state, exec, now).execs[exec]);
      execMap := execMap[exec := t];
      state := Ends(state, exec, now);
    }

    /** The closing section of runExecTask; `worker` is the goroutine that it leaves to deliver. */
    method FinishExec(exec: string, output: Output, err: ExecError, now: string, ghost worker: string)
      requires Valid() && state.lock == Free && now != "" && worker !in state.workers
      requires exec in execMap && state.execs[exec].runner == Returned(output, err)
      modifies `execMap, `execRows, `state
      ensures Valid()
      ensures state == EndReleases(EndInStore(Ends(old(state), exec, now), exec), exec, worker)
    {
      var t := FinishTask(exec, output, err, now);
      StoreEnd(exec, t, worker);
    }

    /** The row, and the goroutine that delivers. */
    method StoreEnd(exec: string, t: Task, ghost worker: string)
      requires Valid() && exec in execMap && t == execMap[exec]
      modifies `execRows, `state
      ensures Valid() && state == EndReleases(EndInStore(old(state), exec), exec, worker)
    {
      var _ := UpdateExecTask(exec, t);
      state := EndInStore(state, exec);
      state := EndReleases(state, exec, worker);
    }

    /** CancelExec; the caller has the id from the row, so the exec is published. */
    method CancelExec(sandbox: string, exec: string) returns (r: Result<Task, Refusal>)
      requires Valid() && state.lock == Free && (exec in execMap ==> state.execs[exec].Published())
      modifies `execMap, `execRows, `state
      ensures Valid()
      ensures r.Err? <==> sandbox !in sandboxes || exec !in old(execMap) || old(execMap)[exec].sandbox != sandbox
      ensures r.Err? ==> state == old(state)
      ensures r.Ok? ==>
                && exec in execMap && r.value == execMap[exec] && r.value.status != Running
                && state == if old(execMap)[exec].status == Running
                            then CancellingInStore(CancellingInMap(old(state), exec), exec) else old(state)
    {
      if sandbox !in sandboxes || exec !in execMap || execMap[exec].sandbox != sandbox {
        return Err(NotFound);
      }
      var t := execMap[exec];
      if t.status != Running {
        return Ok(t);
      }
      t := t.(status := Cancelling);
      PutTask(state.execs, execMap, execRows, exec, state.execs[exec].WithStatus(t));
      execMap := execMap[exec := t];
      state := CancellingInMap(state, exec);
      StoreCancelling(exec, t);
      return Ok(t);
    }

    method StoreCancelling(exec: string, t: Task)
      requires Valid() && exec in execMap && t == execMap[exec]
      modifies `execRows, `state
      ensures Valid() && exec in state.execs && state == CancellingInStore(old(state), exec)
    {
      var _ := UpdateExecTask(exec, t.(recovery := ""));
      state := CancellingInStore(state, exec);
    }

    method GetExec(sandbox: string, exec: string) returns (r: Result<Task, Refusal>)
      requires Valid()
      ensures sandbox !in sandboxes ==> r == Err(NotFound)
      ensures sandbox in sandboxes && exec in state.execs && state.execs[exec].task.sandbox == sandbox
              ==> r == Ok(state.execs[exec].task)
      ensures sandbox in sandboxes && exec !in state.execs ==> r == Err(NotFound)
      ensures sandbox in sandboxes && exec in state.execs && state.execs[exec].task.sandbox != sandbox ==>
                r == if state.HasRow(exec) && state.execs[exec].row.value.sandbox == sandbox
                     then Ok(state.execs[exec].row.value) else Err(NotFound)
    {
      if sandbox !in sandboxes {
        return Err(NotFound);
      }
      if exec in execMap && execMap[exec].sandbox == sandbox {
        return Ok(execMap[exec]);
      }
      if exec in execRows && execRows[exec].sandbox == sandbox {
        return Ok(execRows[exec]);
      }
      return Err(NotFound);
    }

    /** The insert of SubscribeExecWebhook, after subscriber `id` has read the exec. */
    method CreateSubscription(ghost id: string, k: string, exec: string, url: string) returns (created: bool)
      requires Valid() && Enabled(state, SubscriberInserts(id, k))
      requires exec == state.subscribers[id].exec && url == state.subscribers[id].url
      modifies `hooks, `state
      ensures Valid() && state == Subscribed(old(state), id, k)
      ensures created <==> forall h :: h in old(hooks) ==> !(old(hooks)[h].exec == exec && old(hooks)[h].url == url)
      ensures hooks == if created then old(hooks)[k := Hook(exec, url, false)] else old(hooks)
    {
      created := !HasHook(hooks, exec, url);
      SameHooks(state.subs, hooks, exec, url);
      if created {
        PutHook(state.subs, hooks, k, NewSubscription(state, id));
        hooks := hooks[k := Hook(exec, url, false)];
      }
      state := Subscribed(state, id, k);
    }

    method ListPending(ghost worker: string, exec: string) returns (queue: map<string, string>)
      requires Valid() && worker in state.workers && state.workers[worker].ToList? && state.workers[worker].exec == exec && exec in state.execs
      modifies `state
      ensures Valid() && state == Listed(old(state), worker)
      ensures queue == Pending(old(state.subs), exec)
    {
      queue := map k | k in hooks && hooks[k].exec == exec && !hooks[k].delivered :: hooks[k].url;
      assert queue == Pending(state.subs, exec);
      ghost var e := state.execs[exec];
      ghost var listed := e.(finisherListed := e.finisherListed || state.workers[worker].finisher);
      PutTask(state.execs, execMap, execRows, exec, listed);
      assert execMap == execMap[exec := listed.task];
      state := Listed(state, worker);
    }

    /** The post, and MarkExecWebhookSubscriptionDelivered. */
    method Serve(ghost s0: State, ghost worker: string, ghost queue: map<string, string>, k: string, ghost served: seq<string>)
      requires Valid() && Halfway(s0, state, worker, queue) && k in queue && ServedAllBut(s0, worker, served, queue)
      modifies `hooks, `state
      ensures Valid() && state == Sent(old(state), worker, k)
      ensures Halfway(s0, state, worker, queue - {k}) && ServedAllBut(s0, worker, served + [k], queue - {k})
    {
      ServesMore(s0, state, worker, served, queue, k);
      HalfwayMoves(s0, state, worker, queue, k);
      MarkHook(state.subs, hooks, k);
      if k in hooks {
        hooks := hooks[k := hooks[k].(delivered := true)];
      }
      state := Sent(state, worker, k);
    }

    /** deliverExecWebhookNotifications left to itself: every pending row of the exec is served once, and no other. */
    method DeliverNotifications(ghost worker: string, exec: string) returns (served: seq<string>)
      requires Valid() && worker in state.workers && state.workers[worker].ToList? && state.workers[worker].exec == exec && exec in state.execs
      modifies `hooks, `state
      ensures Valid()
      ensures Halfway(old(state), state, worker, map[]) && ServedAllBut(old(state), worker, served, map[])
    {
      ghost var s0 := state;
      HalfwayStarts(s0, worker);
      var queue := ListPending(worker, exec);
      served := [];
      while queue != map[]
        invariant Valid() && Halfway(s0, state, worker, queue)
        invariant ServedAllBut(s0, worker, served, queue)
        decreases queue.Keys
      {
        var k :| k in queue;
        Serve(s0, worker, queue, k, served);
        served := served + [k];
        queue := queue - {k};
      }
    }

    method CleanupHistory(before: string) returns (deleted: nat)
      requires Valid()
      modifies `execRows, `hooks, `state
      ensures Valid() && state == WithRows(old(state), CleanupRows(old(state).execs, before))
      ensures deleted == |set e | e in old(execRows) && Expired(old(execRows)[e], before)|
    {
      var gone := set e | e in execRows && Expired(execRows[e], before);
      deleted := |gone|;
      CleanTasks(state.execs, execMap, execRows, gone, before);
      CleanHooks(state, CleanupRows(state.execs, before), execMap, execRows - gone, hooks);
      execRows := execRows - gone;
      hooks := map k | k in hooks && hooks[k].exec in execRows :: hooks[k];
      state := WithRows(state, CleanupRows(state.execs, before));
    }
  }
}
