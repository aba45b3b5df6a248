/**
The guarantees of the exec protocol over whole runs, and the run on which a
subscription is never served.
*/
module ExecRuns {
  import opened Wrappers
  import opened ExecProtocol
  import opened ExecProofs

  ghost predicate Run(ss: seq<State>, steps: seq<Step>) {
    && |ss| == |steps| + 1
    && ss[0] == Initial(ss[0].sandboxes)
    && forall i :: 0 <= i < |steps| ==> Enabled(ss[i], steps[i]) && ss[i + 1] == Apply(ss[i], steps[i])
  }

  lemma InitialHolds(sandboxes: set<string>)
    ensures Inv(Initial(sandboxes))
  {
  }

  lemma {:induction false} RunKeeps(ss: seq<State>, steps: seq<Step>, i: nat)
    requires Run(ss, steps) && i < |ss|
    ensures Inv(ss[i])
  {
    if i == 0 {
      InitialHolds(ss[0].sandboxes);
    } else {
      RunKeeps(ss, steps, i - 1);
      StepKeeps(ss[i - 1], steps[i - 1]);
    }
  }

  // The status machine

  /** What can become of a status. */
  predicate Leads(a: Status, b: Status) {
    a == b || a == Running || (a == Cancelling && (b == Succeeded || b == Cancelled))
  }

  /** What can become of an exec: the status advances, the history grows, the result of an ended one stays. */
  predicate Forward(e: Exec, e': Exec) {
    && Leads(e.task.status, e'.task.status) && e.history <= e'.history
    && (e.task.status.Terminal() ==> e'.task.status == e.task.status && e'.Result() == e.Result())
  }

  lemma ForwardStep(s: State, step: Step, exec: string)
    requires OneInv(s, exec) && exec in s.execs && Enabled(s, step)
    ensures exec in Apply(s, step).execs && Forward(s.execs[exec], Apply(s, step).execs[exec])
  {
    if !OwnStep(step, exec) {
      OthersKeepTask(s, step, exec);
    } else if Ended(s, exec) {
      OwnStepKeepsResult(s, step, exec);
    } else {
      OwnStepForward(s, step, exec);
    }
  }

  lemma OwnStepForward(s: State, step: Step, exec: string)
    requires OwnStep(step, exec) && OneInv(s, exec) && exec in s.execs && Enabled(s, step) && !Ended(s, exec)
    ensures var e, e' := s.execs[exec], Apply(s, step).execs[exec];
            Leads(e.task.status, e'.task.status) && e.history <= e'.history
  {
    assert OpeningStep(step) || RunnerStep(step) || FinishStep(step) || CancelStep(step);
  }

  /**
  In every reachable state the task has lived through a legal history, and says so. Its fields fit its
  status, too, except in the middle of its own closing section.
  */
  lemma StatusMachine(ss: seq<State>, steps: seq<Step>, i: nat, exec: string)
    requires Run(ss, steps) && i < |ss| && exec in ss[i].execs
    ensures var e := ss[i].execs[exec];
            && LegalHistory(e.history) && e.history[|e.history| - 1] == e.task.status
            && (ss[i].lock != Ending(exec) ==> WellShaped(e.task))
            && (ss[i].lock == Ending(exec) ==> e.task.completedAt != "" && e.task.error == "")
  {
    RunKeeps(ss, steps, i);
    assert OneInv(ss[i], exec);
  }

  /** Statuses only move forward, the recorded history only grows, and the result of an ended exec stays as it is. */
  lemma {:induction false} StatusMovesForward(ss: seq<State>, steps: seq<Step>, i: nat, j: nat, exec: string)
    requires Run(ss, steps) && i <= j < |ss| && exec in ss[i].execs
    ensures exec in ss[j].execs && Forward(ss[i].execs[exec], ss[j].execs[exec])
    decreases j
  {
    if i < j {
      StatusMovesForward(ss, steps, i, j - 1, exec);
      RunForward(ss, steps, j - 1, exec);
      ForwardTransitive(ss[i].execs[exec], ss[j - 1].execs[exec], ss[j].execs[exec]);
    }
  }

  lemma RunForward(ss: seq<State>, steps: seq<Step>, i: nat, exec: string)
    requires Run(ss, steps) && i < |steps| && exec in ss[i].execs
    ensures exec in ss[i + 1].execs && Forward(ss[i].execs[exec], ss[i + 1].execs[exec])
  {
    RunKeeps(ss, steps, i);
    assert OneInv(ss[i], exec);
    ForwardStep(ss[i], steps[i], exec);
  }

  lemma ForwardTransitive(a: Exec, b: Exec, c: Exec)
    requires Forward(a, b) && Forward(b, c)
    ensures Forward(a, c)
  {
  }

  // The two copies of a task

  /** GetExec: the map first, then the store. The map entry is copied without the mutex, so in any state. */
  function GetExec(s: State, sandbox: string, exec: string): Result<Task, ExecError> {
    if sandbox !in s.sandboxes then Err(NotFoundError)
    else if exec in s.execs && s.execs[exec].task.sandbox == sandbox then Ok(s.execs[exec].task)
    else FromStore(s, sandbox, exec)
  }

  function FromStore(s: State, sandbox: string, exec: string): Result<Task, ExecError> {
    if s.HasRow(exec) && s.execs[exec].row.value.sandbox == sandbox then Ok(s.execs[exec].row.value)
    else Err(NotFoundError)
  }

  /** While the mutex is free, a caller cannot tell the two sources apart, but for the note on a task still running. */
  lemma SourcesAgree(ss: seq<State>, steps: seq<Step>, i: nat, sandbox: string, exec: string)
    requires Run(ss, steps) && i < |ss| && ss[i].lock == Free && ss[i].HasRow(exec)
    ensures FromStore(ss[i], sandbox, exec).Ok? ==>
              var row, t := FromStore(ss[i], sandbox, exec).value, ss[i].execs[exec].task;
              && SameButRecovery(row, t)
              && (row.status.Terminal() || t.status.Terminal() ==> row == t)
              && (sandbox in ss[i].sandboxes ==> GetExec(ss[i], sandbox, exec) == Ok(t))
  {
    RunKeeps(ss, steps, i);
    assert OneInv(ss[i], exec);
  }

  /** A failure copied between the assignments of its status and of its error. */
  predicate ReadEarly(s: State, exec: string) {
    exec in s.execs && s.execs[exec].runner.Closed? && s.execs[exec].Result().error != ""
  }

  /**
  A terminal answer is final, that is the answer of either source once the closing section is over and as
  long as the sandbox and the row last, if and only if it is not a failure read early.
  */
  lemma TerminalAnswerIsFinal(ss: seq<State>, steps: seq<Step>, i: nat, j: nat, sandbox: string, exec: string)
    requires Run(ss, steps) && i <= j < |ss|
    requires GetExec(ss[i], sandbox, exec).Ok? && GetExec(ss[i], sandbox, exec).value.status.Terminal()
    requires sandbox in ss[j].sandboxes && exec in ss[j].execs && ss[j].execs[exec].runner.Over?
    ensures GetExec(ss[j], sandbox, exec).Ok?
    ensures GetExec(ss[j], sandbox, exec) == GetExec(ss[i], sandbox, exec) <==> !ReadEarly(ss[i], exec)
    ensures ss[j].lock == Free && ss[j].HasRow(exec) ==>
              FromStore(ss[j], sandbox, exec) == GetExec(ss[j], sandbox, exec)
    ensures ReadEarly(ss[i], exec) ==>
              var early, final := GetExec(ss[i], sandbox, exec).value, GetExec(ss[j], sandbox, exec).value;
              final.status == Failed && final.error != "" && early == final.(error := "")
  {
    RunKeeps(ss, steps, i);
    assert OneInv(ss[i], exec);
    var e := ss[i].execs[exec];
    StatusMovesForward(ss, steps, i, j, exec);
    RunKeeps(ss, steps, j);
    assert OneInv(ss[j], exec);
    assert e.task.sandbox == sandbox by {
      assert e.row.Some? ==> RowInv(e, exec, ss[i].lock);
    }
    ReadCopies(e, exec, ss[i].lock);
    assert ss[j].execs[exec].task == e.Result();
  }

  /** So a reader can tell from the answer alone: one that is not a failure, or has an error text, is final. */
  lemma AnswerTellsItIsFinal(ss: seq<State>, steps: seq<Step>, i: nat, j: nat, sandbox: string, exec: string)
    requires Run(ss, steps) && i <= j < |ss|
    requires GetExec(ss[i], sandbox, exec).Ok? && GetExec(ss[i], sandbox, exec).value.status.Terminal()
    requires sandbox in ss[j].sandboxes && exec in ss[j].execs && ss[j].execs[exec].runner.Over?
    ensures var answer := GetExec(ss[i], sandbox, exec).value;
            answer.status != Failed || answer.error != "" ==> GetExec(ss[j], sandbox, exec) == Ok(answer)
  {
    TerminalAnswerIsFinal(ss, steps, i, j, sandbox, exec);
  }

  /** Clean-up takes the row of an ended exec only, and exactly the rows completed before the cutoff. */
  lemma CleanupSparesTheLiving(ss: seq<State>, steps: seq<Step>, i: nat, before: string, exec: string)
    requires Run(ss, steps) && i < |ss| && ss[i].HasRow(exec)
    ensures var after := Apply(ss[i], CleanupHistory(before));
            && (after.HasRow(exec) <==> !Expired(ss[i].execs[exec].row.value, before))
            && (!after.HasRow(exec) ==> Ended(ss[i], exec))
            && (after.HasRow(exec) ==> after.execs[exec] == ss[i].execs[exec])
  {
    RunKeeps(ss, steps, i);
    assert OneInv(ss[i], exec);
  }

  // Webhooks

  /** No pending subscription on an ended exec is forgotten, unless it was missed. */
  lemma WebhookCoverage(ss: seq<State>, steps: seq<Step>, i: nat, k: string)
    requires Run(ss, steps) && i < |ss| && k in ss[i].subs
    requires !ss[i].subs[k].delivered && Ended(ss[i], ss[i].subs[k].exec)
    ensures Queued(ss[i], k) || Awaited(ss[i], ss[i].subs[k].exec) || Missed(ss[i].subs[k])
  {
    RunKeeps(ss, steps, i);
    assert SubscriptionInv(ss[i], k);
  }

  /** Nothing is left to do: no section under the mutex, no delivery worker with work, no subscriber under way. */
  ghost predicate Quiet(s: State) {
    && s.lock == Free
    && (forall w :: w in s.workers ==> s.workers[w].Delivering? && s.workers[w].queue == map[])
    && s.subscribers == map[]
  }

  /** The row exists from its insertion after `m` steps on, by a subscriber that had read `read`. */
  ghost predicate Inserted(ss: seq<State>, steps: seq<Step>, m: nat, i: nat, k: string, read: Task)
    requires |ss| == |steps| + 1 && m < i < |ss|
  {
    && steps[m].SubscriberInserts? && steps[m].sub == k && k !in ss[m].subs
    && steps[m].id in ss[m].subscribers && ss[m].subscribers[steps[m].id].result == read
    && (forall l :: m < l <= i ==> k in ss[l].subs)
  }

  predicate ListsExec(s: State, step: Step, exec: string) {
    step.WorkerLists? && step.worker in s.workers && s.workers[step.worker].exec == exec
  }

  /** Some worker lists the exec in the steps from `m` up to `i`. */
  ghost predicate ListedBetween(ss: seq<State>, steps: seq<Step>, m: nat, i: nat, exec: string)
    requires |ss| == |steps| + 1 && i < |ss|
  {
    exists l :: m <= l < i && ListsExec(ss[l], steps[l], exec)
  }

  /** The finisher has listed the exec before step `m`. */
  ghost predicate FinisherListedBefore(ss: seq<State>, steps: seq<Step>, m: nat, exec: string)
    requires |ss| == |steps| + 1 && m < |ss|
  {
    exists l :: 0 <= l < m && FinisherLists(ss[l], steps[l], exec)
  }

  /**
  Once all is quiet, a subscription to an ended exec is unserved if and only if it was inserted after the
  finisher had listed, by a subscriber that had read a status that was not terminal, and nobody, that is no
  subscriber that read a terminal status, has listed the exec since. A served one got a copy of the result.
  */
  lemma ServedWhenQuiet(ss: seq<State>, steps: seq<Step>, m: nat, i: nat, k: string, read: Task)
    requires Run(ss, steps) && m < i < |ss| && Inserted(ss, steps, m, i, k, read)
    requires Quiet(ss[i]) && Ended(ss[i], ss[i].subs[k].exec)
    ensures var exec := ss[i].subs[k].exec;
            && (!ss[i].subs[k].delivered <==>
                  && FinisherListedBefore(ss, steps, m, exec) && !read.status.Terminal()
                  && !ListedBetween(ss, steps, m + 1, i, exec))
            && (ss[i].subs[k].delivered ==>
                  exists d :: d in ss[i].sent && d.exec == exec && d.url == ss[i].subs[k].url
                              && Copies(d.result, ss[i].execs[exec].Result()))
  {
    var exec := ss[i].subs[k].exec;
    InvAt(ss, steps, i, k);
    InsertionRecords(ss, steps, m, k);
    RunMoves(ss, steps, m + 1, i, k);
    SinceInsertion(ss, steps, m + 1, i, k);
    FinisherFlag(ss, steps, m, exec);
  }

  lemma InvAt(ss: seq<State>, steps: seq<Step>, i: nat, k: string)
    requires Run(ss, steps) && i < |ss|
    ensures SubscriptionInv(ss[i], k) && PostedInv(ss[i], k)
  {
    RunKeeps(ss, steps, i);
  }

  /** A flag that starts out false and is raised by certain steps is up if and only if there has been such a step. */
  lemma {:induction false} Latch(flags: seq<bool>, raises: seq<bool>)
    requires |flags| == |raises| + 1 && !flags[0]
    requires forall i :: 0 <= i < |raises| ==> (flags[i + 1] <==> flags[i] || raises[i])
    ensures flags[|raises|] <==> exists i :: 0 <= i < |raises| && raises[i]
  {
    if raises != [] {
      var n := |raises| - 1;
      Latch(flags[..n + 1], raises[..n]);
      if i :| 0 <= i < n && raises[..n][i] {
        assert raises[i];
      }
    }
  }

  lemma InsertionRecords(ss: seq<State>, steps: seq<Step>, m: nat, k: string)
    requires Run(ss, steps) && m < |steps| && steps[m].SubscriberInserts? && steps[m].sub == k
    requires k !in ss[m].subs && k in ss[m + 1].subs
    ensures steps[m].id in ss[m].subscribers
    ensures var r := ss[m].subscribers[steps[m].id];
            && r.exec in ss[m].execs
            && ss[m + 1].subs[k]
               == Subscription(r.exec, r.url, false, r.result.status.Terminal(), ss[m].execs[r.exec].finisherListed, false)
  {
  }

  /** What can become of a row. */
  predicate Moves(sub: Subscription, sub': Subscription, listed: bool) {
    && sub' == sub.(listed := sub'.listed, delivered := sub'.delivered)
    && (sub'.listed <==> sub.listed || (listed && !sub.delivered))
    && (sub.delivered ==> sub'.delivered)
    && (sub'.delivered && !sub.delivered ==> sub.listed)
  }

  lemma RowMoves(s: State, step: Step, k: string)
    requires Enabled(s, step) && k in s.subs && k in Apply(s, step).subs
    requires step.WorkerSends? ==> WorkerInv(s, step.worker)
    ensures Moves(s.subs[k], Apply(s, step).subs[k], ListsExec(s, step, s.subs[k].exec))
  {
    if !TouchesRows(step) {
      OthersKeepRows(s, step);
    }
  }

  lemma RowMovesAt(ss: seq<State>, steps: seq<Step>, i: nat, k: string)
    requires Run(ss, steps) && i < |steps| && k in ss[i].subs && k in ss[i + 1].subs
    ensures Moves(ss[i].subs[k], ss[i + 1].subs[k], ListsExec(ss[i], steps[i], ss[i].subs[k].exec))
  {
    RunKeeps(ss, steps, i);
    assert steps[i].WorkerSends? ==> WorkerInv(ss[i], steps[i].worker);
    RowMoves(ss[i], steps[i], k);
  }

  /** Through its life a row is the same but for its two flags: listed as soon as somebody lists it, delivered only then. */
  lemma {:induction false} LifeOfRow(rows: seq<Subscription>, lists: seq<bool>)
    requires |rows| == |lists| + 1 && !rows[0].listed && !rows[0].delivered
    requires forall i :: 0 <= i < |lists| ==> Moves(rows[i], rows[i + 1], lists[i])
    ensures var last := rows[|lists|];
            && last == rows[0].(listed := last.listed, delivered := last.delivered)
            && (last.delivered ==> last.listed)
            && (last.listed <==> exists i :: 0 <= i < |lists| && lists[i])
  {
    if lists != [] {
      var n := |lists| - 1;
      LifeOfRow(rows[..n + 1], lists[..n]);
      assert Moves(rows[n], rows[n + 1], lists[n]);
      if i :| 0 <= i < n && lists[..n][i] {
        assert lists[i];
      }
      if i :| 0 <= i < n && lists[i] {
        assert lists[..n][i];
      }
    }
  }

  /** The row moves only as it may in the steps from `m` up to `i`. */
  ghost predicate MovesBetween(ss: seq<State>, steps: seq<Step>, m: nat, i: nat, k: string)
    requires |ss| == |steps| + 1 && m <= i < |ss|
  {
    && (forall l :: m <= l <= i ==> k in ss[l].subs)
    && (forall l :: m <= l < i ==>
          Moves(ss[l].subs[k], ss[l + 1].subs[k], ListsExec(ss[l], steps[l], ss[l].subs[k].exec)))
  }

  lemma RunMoves(ss: seq<State>, steps: seq<Step>, m: nat, i: nat, k: string)
    requires Run(ss, steps) && m <= i < |ss| && forall l :: m <= l <= i ==> k in ss[l].subs
    ensures MovesBetween(ss, steps, m, i, k)
  {
    forall l | m <= l < i
      ensures Moves(ss[l].subs[k], ss[l + 1].subs[k], ListsExec(ss[l], steps[l], ss[l].subs[k].exec))
    {
      RowMovesAt(ss, steps, l, k);
    }
  }

  /** What the row says at the end is what has happened to it since its insertion. */
  lemma SinceInsertion(ss: seq<State>, steps: seq<Step>, m: nat, i: nat, k: string)
    requires |ss| == |steps| + 1 && m <= i < |ss| && MovesBetween(ss, steps, m, i, k)
    requires !ss[m].subs[k].listed && !ss[m].subs[k].delivered
    ensures var first, last := ss[m].subs[k], ss[i].subs[k];
            && last == first.(listed := last.listed, delivered := last.delivered)
            && (last.delivered ==> last.listed)
            && (last.listed <==> ListedBetween(ss, steps, m, i, first.exec))
  {
    var n, exec := i - m, ss[m].subs[k].exec;
    var rows := seq(n + 1, l requires 0 <= l <= n => ss[m + l].subs[k]);
    var lists := seq(n, l requires 0 <= l < n => ListsExec(ss[m + l], steps[m + l], rows[l].exec));
    LifeOfRow(rows, lists);
    SameExec(rows, lists);
    ListedAsBools(ss, steps, m, i, exec, lists);
  }

  lemma {:induction false} SameExec(rows: seq<Subscription>, lists: seq<bool>)
    requires |rows| == |lists| + 1
    requires forall i :: 0 <= i < |lists| ==> Moves(rows[i], rows[i + 1], lists[i])
    ensures forall i :: 0 <= i < |rows| ==> rows[i].exec == rows[0].exec
  {
    if lists != [] {
      SameExec(rows[..|lists|], lists[..|lists| - 1]);
      assert Moves(rows[|lists| - 1], rows[|lists|], lists[|lists| - 1]);
    }
  }

  lemma ListedAsBools(ss: seq<State>, steps: seq<Step>, m: nat, i: nat, exec: string, lists: seq<bool>)
    requires |ss| == |steps| + 1 && m <= i < |ss| && |lists| == i - m
    requires forall l :: 0 <= l < |lists| ==> lists[l] == ListsExec(ss[m + l], steps[m + l], exec)
    ensures (exists l :: 0 <= l < |lists| && lists[l]) <==> ListedBetween(ss, steps, m, i, exec)
  {
    if l :| m <= l < i && ListsExec(ss[l], steps[l], exec) {
      assert lists[l - m];
    }
  }

  /** The finisher of the exec lists it in this step. */
  predicate FinisherLists(s: State, step: Step, exec: string) {
    ListsExec(s, step, exec) && s.workers[step.worker].ToList? && s.workers[step.worker].finisher
  }

  predicate Flag(s: State, exec: string) { exec in s.execs && s.execs[exec].finisherListed }

  lemma FlagMoves(s: State, step: Step, exec: string)
    requires Enabled(s, step)
    ensures Flag(Apply(s, step), exec) <==> Flag(s, exec) || FinisherLists(s, step, exec)
  {
    if OwnStep(step, exec) {
      OwnStepsKeepFlag(s, step, exec);
    } else if exec in s.execs && !step.WorkerLists? {
      OthersKeepFlag(s, step, exec);
    }
  }

  lemma OwnStepsKeepFlag(s: State, step: Step, exec: string)
    requires OwnStep(step, exec) && Enabled(s, step)
    ensures Flag(Apply(s, step), exec) == Flag(s, exec)
  {
  }

  lemma OthersKeepFlag(s: State, step: Step, exec: string)
    requires !OwnStep(step, exec) && !step.WorkerLists? && Enabled(s, step) && exec in s.execs
    ensures exec in Apply(s, step).execs && Apply(s, step).execs[exec].finisherListed == s.execs[exec].finisherListed
  {
    if SubscriberStep(step) || step.WorkerSends? || step.FinishReleases? {
      assert Apply(s, step).execs == s.execs;
    }
  }

  lemma FlagMovesAt(ss: seq<State>, steps: seq<Step>, i: nat, exec: string)
    requires Run(ss, steps) && i < |steps|
    ensures Flag(ss[i + 1], exec) <==> Flag(ss[i], exec) || FinisherLists(ss[i], steps[i], exec)
  {
    FlagMoves(ss[i], steps[i], exec);
  }

  lemma FinisherFlag(ss: seq<State>, steps: seq<Step>, m: nat, exec: string)
    requires Run(ss, steps) && m < |ss|
    ensures Flag(ss[m], exec) <==> FinisherListedBefore(ss, steps, m, exec)
  {
    var flags := seq(m + 1, l requires 0 <= l <= m => Flag(ss[l], exec));
    var raises := seq(m, l requires 0 <= l < m => FinisherLists(ss[l], steps[l], exec));
    forall l | 0 <= l < m ensures flags[l + 1] <==> flags[l] || raises[l] {
      FlagMovesAt(ss, steps, l, exec);
    }
    Latch(flags, raises);
    if l :| 0 <= l < m && FinisherLists(ss[l], steps[l], exec) {
      assert raises[l];
    }
  }

  /** Whatever is posted is a copy of the final result; and there is one row for each exec and URL. */
  lemma PostsAreFinal(ss: seq<State>, steps: seq<Step>, i: nat, j: nat, d: Delivery)
    requires Run(ss, steps) && i <= j < |ss| && d in ss[i].sent
    ensures d.result.status.Terminal() && d.exec in ss[j].execs && Copies(d.result, ss[j].execs[d.exec].Result())
    ensures UniqueUrls(ss[j].subs)
  {
    RunKeeps(ss, steps, i);
    RunKeeps(ss, steps, j);
    StatusMovesForward(ss, steps, i, j, d.exec);
  }

  /**
  Whoever subscribes has a row: after the insert there is exactly one with the subscriber's exec and URL. It is a
  new one, still pending, if and only if there was none, and all others are as before.
  */
  lemma SubscriberHasRow(ss: seq<State>, steps: seq<Step>, m: nat)
    requires Run(ss, steps) && m < |steps| && steps[m].SubscriberInserts?
    ensures steps[m].id in ss[m].subscribers && ss[m].subscribers[steps[m].id].HasRead?
    ensures var r, k := ss[m].subscribers[steps[m].id], steps[m].sub;
            var subs, subs' := ss[m].subs, ss[m + 1].subs;
            && (exists h :: h in subs' && subs'[h].exec == r.exec && subs'[h].url == r.url)
            && (forall h, j :: h in subs' && j in subs' && subs'[h].exec == subs'[j].exec && subs'[h].url == subs'[j].url
                  ==> h == j)
            && (forall h :: h in subs ==> h in subs' && subs'[h] == subs[h])
            && (forall h :: h in subs' && h !in subs ==> h == k)
            && (k in subs' <==> forall h :: h in subs ==> !(subs[h].exec == r.exec && subs[h].url == r.url))
            && (k in subs' ==> subs'[k].exec == r.exec && subs'[k].url == r.url && !subs'[k].delivered)
  {
    RunKeeps(ss, steps, m + 1);
    var r, k := ss[m].subscribers[steps[m].id], steps[m].sub;
    if forall h :: h in ss[m].subs ==> !(ss[m].subs[h].exec == r.exec && ss[m].subs[h].url == r.url) {
      assert ss[m + 1].subs[k].exec == r.exec;
    }
  }

  /** A subscriber is done when its insert fails, when it has inserted after a read that was not terminal, or when it has left a worker. */
  lemma SubscriberEnds(s: State, step: Step, id: string)
    requires Enabled(s, step) && id in s.subscribers
    ensures id !in Apply(s, step).subscribers
            <==> || step == SubscriberFails(id)
                 || (step.SubscriberInserts? && step.id == id && !s.subscribers[id].result.status.Terminal())
                 || (step.SubscriberSpawns? && step.id == id)
    ensures id in Apply(s, step).subscribers && !(step.SubscriberInserts? && step.id == id) ==>
              Apply(s, step).subscribers[id] == s.subscribers[id]
  {
    if SubscriberStep(step) {
    } else {
      assert Apply(s, step).subscribers == s.subscribers;
    }
  }

  // Two runs on which callers get less than they might expect

  lemma Go(ss: seq<State>, steps: seq<Step>, step: Step) returns (ss': seq<State>, steps': seq<Step>)
    requires Run(ss, steps) && Enabled(ss[|steps|], step)
    ensures steps' == steps + [step] && Run(ss', steps') && ss <= ss' && ss'[|steps'|] == Apply(ss[|steps|], step)
  {
    ss', steps' := ss + [Apply(ss[|steps|], step)], steps + [step];
    forall i | 0 <= i < |steps'| ensures Enabled(ss'[i], steps'[i]) && ss'[i + 1] == Apply(ss'[i], steps'[i]) {
      if i < |steps| {
        assert ss'[i] == ss[i] && ss'[i + 1] == ss[i + 1] && steps'[i] == steps[i];
      }
    }
  }

  const RUNNING_TASK := NewTask("box", "make", "t0")

  function HalfTask(output: Output, err: ExecError): Task {
    WithOutcome(RUNNING_TASK, output, err, "t1").(status := FinalStatus(Running, err))
  }

  function DoneTask(output: Output, err: ExecError): Task {
    WithError(HalfTask(output, err), err, false)
  }

  /** A state of a service with one exec and no subscription. */
  function OneExec(e: Exec, lock: Lock, subscribers: map<string, Subscriber>, workers: map<string, Worker>): State {
    State({"box"}, map["e" := e], lock, map[], subscribers, workers, {})
  }

  lemma Begin(early: bool) returns (ss: seq<State>, steps: seq<Step>)
    ensures Run(ss, steps)
    ensures ss[|steps|] == OneExec(Exec(RUNNING_TASK, Some(RUNNING_TASK), Executing, [Running], false), Free,
                                   if early then map["r" := HasRead("e", "u", RUNNING_TASK)] else map[], map[])
  {
    ss, steps := [Initial({"box"})], [];
    ss, steps := Go(ss, steps, Submit("e", "box", "make", "t0"));
    ss, steps := Go(ss, steps, InsertRow("e"));
    if early {
      ss, steps := Go(ss, steps, SubscriberReads("r", "e", "u"));
    }
    ss, steps := Go(ss, steps, PreExpand("e", None));
    assert ss[|steps|].execs == map["e" := Exec(RUNNING_TASK, Some(RUNNING_TASK), Executing, [Running], false)];
  }

  lemma AssignOutcome(ss0: seq<State>, steps0: seq<Step>, output: Output, err: ExecError, subscribers: map<string, Subscriber>)
    returns (ss: seq<State>, steps: seq<Step>)
    requires Run(ss0, steps0)
    requires ss0[|steps0|] == OneExec(Exec(RUNNING_TASK, Some(RUNNING_TASK), Executing, [Running], false), Free, subscribers, map[])
    ensures Run(ss, steps) && ss0 <= ss
    ensures var t := WithOutcome(RUNNING_TASK, output, err, "t1");
            ss[|steps|] == OneExec(Exec(t, Some(RUNNING_TASK), Closing(err), [Running], false), Ending("e"), subscribers, map[])
  {
    var t := WithOutcome(RUNNING_TASK, output, err, "t1");
    ss, steps := Go(ss0, steps0, BackendReturns("e", output, err, None));
    ss, steps := Go(ss, steps, FinishOutcome("e", "t1"));
    assert ss[|steps|].execs == map["e" := Exec(t, Some(RUNNING_TASK), Closing(err), [Running], false)];
  }

  /** Up to the assignment of the status. */
  lemma Close(ss0: seq<State>, steps0: seq<Step>, output: Output, err: ExecError, subscribers: map<string, Subscriber>)
    returns (ss: seq<State>, steps: seq<Step>)
    requires Run(ss0, steps0)
    requires ss0[|steps0|] == OneExec(Exec(RUNNING_TASK, Some(RUNNING_TASK), Executing, [Running], false), Free, subscribers, map[])
    ensures Run(ss, steps) && ss0 <= ss
    ensures var half := HalfTask(output, err);
            ss[|steps|] == OneExec(Exec(half, Some(RUNNING_TASK), Closed(err, false), [Running, half.status], false),
                                   Ending("e"), subscribers, map[])
  {
    var half := HalfTask(output, err);
    ss, steps := AssignOutcome(ss0, steps0, output, err, subscribers);
    ss, steps := Go(ss, steps, FinishStatus("e"));
    assert [Running] + [half.status] == [Running, half.status];
    assert ss[|steps|].execs == map["e" := Exec(half, Some(RUNNING_TASK), Closed(err, false), [Running, half.status], false)];
  }

  lemma AssignError(ss0: seq<State>, steps0: seq<Step>, output: Output, err: ExecError, subscribers: map<string, Subscriber>)
    returns (ss: seq<State>, steps: seq<Step>)
    requires Run(ss0, steps0)
    requires var half := HalfTask(output, err);
             ss0[|steps0|] == OneExec(Exec(half, Some(RUNNING_TASK), Closed(err, false), [Running, half.status], false),
                                      Ending("e"), subscribers, map[])
    ensures Run(ss, steps) && ss0 <= ss
    ensures var done := DoneTask(output, err);
            ss[|steps|] == OneExec(Exec(done, Some(RUNNING_TASK), Over, [Running, done.status], false),
                                   Storing("e"), subscribers, map[])
  {
    var done := DoneTask(output, err);
    ss, steps := Go(ss0, steps0, FinishError("e"));
    assert ss[|steps|].execs == map["e" := Exec(done, Some(RUNNING_TASK), Over, [Running, done.status], false)];
  }

  /** From there to the release of the mutex. */
  lemma Release(ss0: seq<State>, steps0: seq<Step>, output: Output, err: ExecError, subscribers: map<string, Subscriber>)
    returns (ss: seq<State>, steps: seq<Step>)
    requires Run(ss0, steps0)
    requires var half := HalfTask(output, err);
             ss0[|steps0|] == OneExec(Exec(half, Some(RUNNING_TASK), Closed(err, false), [Running, half.status], false),
                                      Ending("e"), subscribers, map[])
    ensures Run(ss, steps) && ss0 <= ss
    ensures var done := DoneTask(output, err);
            ss[|steps|] == OneExec(Exec(done, Some(done), Over, [Running, done.status], false), Free, subscribers,
                                   map["w" := ToList("e", done, true)])
  {
    var done := DoneTask(output, err);
    ss, steps := AssignError(ss0, steps0, output, err, subscribers);
    ss, steps := Go(ss, steps, FinishInStore("e"));
    ss, steps := Go(ss, steps, FinishReleases("e", "w"));
    assert ss[|steps|].execs == map["e" := Exec(done, Some(done), Over, [Running, done.status], false)];
  }

  /** The subscriber reads before the end and inserts after the listing: the exec has ended, all is quiet, nothing was posted. */
  lemma SubscriptionLost() returns (ss: seq<State>, steps: seq<Step>)
    ensures Run(ss, steps) && Quiet(ss[|steps|])
    ensures "k" in ss[|steps|].subs && Ended(ss[|steps|], ss[|steps|].subs["k"].exec)
    ensures !ss[|steps|].subs["k"].delivered && ss[|steps|].sent == {}
  {
    var output, subscribers := Output("", "", 0), map["r" := HasRead("e", "u", RUNNING_TASK)];
    ss, steps := Begin(true);
    ss, steps := Close(ss, steps, output, NoError, subscribers);
    ss, steps := Release(ss, steps, output, NoError, subscribers);
    ss, steps := InsertLate(ss, steps, DoneTask(output, NoError));
  }

  lemma InsertLate(ss0: seq<State>, steps0: seq<Step>, done: Task) returns (ss: seq<State>, steps: seq<Step>)
    requires Run(ss0, steps0) && done.status == Succeeded
    requires ss0[|steps0|] == OneExec(Exec(done, Some(done), Over, [Running, Succeeded], false), Free,
                                      map["r" := HasRead("e", "u", RUNNING_TASK)], map["w" := ToList("e", done, true)])
    ensures Run(ss, steps) && Quiet(ss[|steps|])
    ensures "k" in ss[|steps|].subs && Ended(ss[|steps|], ss[|steps|].subs["k"].exec)
    ensures !ss[|steps|].subs["k"].delivered && ss[|steps|].sent == {}
  {
    assert Pending(ss0[|steps0|].subs, "e") == map[];
    ss, steps := Go(ss0, steps0, WorkerLists("w"));
    assert ss[|steps|].subs == map[];
    ss, steps := Go(ss, steps, SubscriberInserts("r", "k"));
    assert ss[|steps|].subscribers == map[];
  }

  /** A subscriber copies a failure before its error is there: its answer is not final, and it is what gets posted. */
  lemma FailureReadEarly() returns (ss: seq<State>, steps: seq<Step>, i: nat)
    ensures Run(ss, steps) && i < |ss| && ReadEarly(ss[i], "e")
    ensures var early, final := GetExec(ss[i], "box", "e"), GetExec(ss[|steps|], "box", "e");
            && early.Ok? && final.Ok? && early.value.status == Failed && early != final
            && Delivery("e", "u", early.value) in ss[|steps|].sent
  {
    var output, err := Output("", "", 1), OtherError("boom");
    var half, done := HalfTask(output, err), DoneTask(output, err);
    ss, steps := Begin(false);
    ss, steps := Close(ss, steps, output, err, map[]);
    i := |steps|;
    assert ss[i].execs["e"].task == half && half.error == "" && done.error == "boom";
    ss, steps := ReadEarlyAndClose(ss, steps, output, err);
    ss, steps := PostEarly(ss, steps, half, done);
  }

  lemma ReadEarlyAndClose(ss0: seq<State>, steps0: seq<Step>, output: Output, err: ExecError)
    returns (ss: seq<State>, steps: seq<Step>)
    requires Run(ss0, steps0)
    requires var half := HalfTask(output, err);
             ss0[|steps0|] == OneExec(Exec(half, Some(RUNNING_TASK), Closed(err, false), [Running, half.status], false),
                                      Ending("e"), map[], map[])
    ensures Run(ss, steps) && ss0 <= ss
    ensures var half, done := HalfTask(output, err), DoneTask(output, err);
            ss[|steps|] == OneExec(Exec(done, Some(done), Over, [Running, done.status], false), Free,
                                   map["r" := HasRead("e", "u", half)], map["w" := ToList("e", done, true)])
  {
    ss, steps := Go(ss0, steps0, SubscriberReads("r", "e", "u"));
    ss, steps := Release(ss, steps, output, err, map["r" := HasRead("e", "u", HalfTask(output, err))]);
  }

  lemma PostEarly(ss0: seq<State>, steps0: seq<Step>, half: Task, done: Task) returns (ss: seq<State>, steps: seq<Step>)
    requires Run(ss0, steps0) && half.status == Failed && done.status == Failed && done.sandbox == "box"
    requires ss0[|steps0|] == OneExec(Exec(done, Some(done), Over, [Running, Failed], false), Free,
                                      map["r" := HasRead("e", "u", half)], map["w" := ToList("e", done, true)])
    ensures Run(ss, steps) && ss0 <= ss
    ensures GetExec(ss[|steps|], "box", "e") == Ok(done) && Delivery("e", "u", half) in ss[|steps|].sent
  {
    ss, steps := Subscribe(ss0, steps0, half, done);
    ListAndPost(ss[|steps|]);
    ss, steps := Go(ss, steps, WorkerLists("v"));
    ss, steps := Go(ss, steps, WorkerSends("v", "k"));
  }

  lemma Subscribe(ss0: seq<State>, steps0: seq<Step>, half: Task, done: Task) returns (ss: seq<State>, steps: seq<Step>)
    requires Run(ss0, steps0) && half.status == Failed
    requires ss0[|steps0|] == OneExec(Exec(done, Some(done), Over, [Running, Failed], false), Free,
                                      map["r" := HasRead("e", "u", half)], map["w" := ToList("e", done, true)])
    ensures Run(ss, steps) && ss0 <= ss
    ensures var s, s0 := ss[|steps|], ss0[|steps0|];
            && s.execs == s0.execs && s.sandboxes == s0.sandboxes
            && "v" in s.workers && s.workers["v"] == ToList("e", half, false)
            && "k" in s.subs && s.subs["k"].exec == "e" && s.subs["k"].url == "u" && !s.subs["k"].delivered
  {
    ss, steps := Go(ss0, steps0, SubscriberInserts("r", "k"));
    ss, steps := Go(ss, steps, SubscriberSpawns("r", "v"));
  }

  lemma ListAndPost(s: State)
    requires "v" in s.workers && s.workers["v"].ToList? && s.workers["v"].exec in s.execs
    requires "k" in s.subs && s.subs["k"].exec == s.workers["v"].exec && !s.subs["k"].delivered
    ensures var w, listed := s.workers["v"], Listed(s, "v");
            && listed.workers["v"].Delivering? && "k" in listed.workers["v"].queue
            && Delivery(w.exec, s.subs["k"].url, w.result) in Sent(listed, "v", "k").sent
            && w.exec in Sent(listed, "v", "k").execs
            && Sent(listed, "v", "k").execs[w.exec].task == s.execs[w.exec].task
            && Sent(listed, "v", "k").sandboxes == s.sandboxes
  {
  }
}
