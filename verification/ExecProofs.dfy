/**
What every interleaving of the exec protocol keeps: the life of a task, the
agreement of its two copies, and who is responsible for each subscription.
*/
module ExecProofs {
  import opened Wrappers
  import opened ExecProtocol

  // One exec

  /** Exactly the terminal tasks have a completion time, and a status says what the outcome fields hold. */
  predicate WellShaped(t: Task) {
    && (t.status.Terminal() <==> t.completedAt != "")
    && (!t.status.Terminal() ==> t.stdout == "" && t.stderr == "" && t.exitCode == None)
    && (t.status == Succeeded ==> t.exitCode.Some?)
    && (t.status != Failed ==> t.error == "")
  }

  /** Running, perhaps cancelling, then at most one terminal status, which is not failed after a cancellation. */
  predicate LegalHistory(h: seq<Status>) {
    || h == [Running]
    || h == [Running, Cancelling]
    || (|h| == 2 && h[0] == Running && h[1].Terminal())
    || (|h| == 3 && h[0] == Running && h[1] == Cancelling && (h[2] == Succeeded || h[2] == Cancelled))
  }

  /** The same task, recovery note aside. */
  predicate SameButRecovery(a: Task, b: Task) {
    a.(recovery := "") == b.(recovery := "")
  }

  /** A task in the middle of its closing section. */
  predicate HalfShaped(t: Task, err: ExecError) {
    && (t.status == Running || t.status == Cancelling) && t.completedAt != "" && t.error == ""
    && (err == NoError ==> t.exitCode.Some?)
  }

  predicate ExecInv(e: Exec, exec: string, lock: Lock) {
    var t := e.task;
    && LegalHistory(e.history) && e.history[|e.history| - 1] == t.status
    && (t.status.Terminal() <==> e.runner.Closed? || e.runner.Over?)
    && (lock == Ending(exec) <==> e.runner.Closing? || e.runner.Closed?)
    && (if e.runner.Closing? then HalfShaped(t, e.runner.err) else WellShaped(e.Result()))
    && (e.runner.Closed? ==> t.error == "" && WellShaped(e.Result()))
    && (!e.Published() ==> t.status == Running && e.row == None)
    && (lock == Storing(exec) || lock == Stored(exec) ==> e.runner.Over?)
    && (lock == StoringCancel(exec) ==> t.status == Cancelling)
  }

  /** Outside the sections that have the map ahead of the store, the row says what the map says. */
  predicate RowInv(e: Exec, exec: string, lock: Lock) {
    e.row.Some? ==>
      var t, row := e.task, e.row.value;
      && WellShaped(row)
      && row.sandbox == t.sandbox && row.command == t.command && row.startedAt == t.startedAt
      && if lock == Ending(exec) || lock == Storing(exec) || lock == StoringCancel(exec) then !row.status.Terminal()
         else SameButRecovery(row, t) && (t.status.Terminal() ==> row == t)
  }

  predicate OneInv(s: State, exec: string) {
    exec in s.execs ==> ExecInv(s.execs[exec], exec, s.lock) && RowInv(s.execs[exec], exec, s.lock)
  }

  ghost predicate ExecsInv(s: State) {
    && (s.lock != Free ==> s.lock.exec in s.execs)
    && forall exec :: OneInv(s, exec)
  }

  /** Changing one exec, and the lock only on its behalf, is a matter of that exec alone. */
  lemma OneExecChanges(s: State, s': State, exec: string)
    requires ExecsInv(s) && exec in s'.execs
    requires s'.execs == s.execs[exec := s'.execs[exec]]
    requires s'.lock == s.lock || ((s.lock == Free || s.lock.exec == exec) && (s'.lock == Free || s'.lock.exec == exec))
    requires OneInv(s', exec)
    ensures ExecsInv(s')
  {
    forall id | id != exec ensures OneInv(s', id) {
      assert OneInv(s, id);
    }
  }

  predicate OpeningStep(step: Step) {
    step.Submit? || step.InsertRow? || step.InsertRowFails?
  }

  predicate RunnerStep(step: Step) {
    step.PreExpand? || step.Poll? || step.BackendReturns?
  }

  predicate FinishStep(step: Step) {
    step.FinishOutcome? || step.FinishStatus? || step.FinishError? || step.FinishInStore? || step.FinishReleases?
  }

  predicate CancelStep(step: Step) {
    step.CancelInMap? || step.CancelInStore?
  }

  lemma OpeningStepKeeps(s: State, step: Step)
    requires OpeningStep(step) && OneInv(s, step.exec) && Enabled(s, step)
    ensures OneInv(Apply(s, step), step.exec)
  {
  }

  lemma RunnerStepKeeps(s: State, step: Step)
    requires RunnerStep(step) && OneInv(s, step.exec) && Enabled(s, step)
    ensures OneInv(Apply(s, step), step.exec)
  {
  }

  /** What a final status says about the run of the command, and the outcome that it comes with. */
  lemma FinishedTellsOutcome(t: Task, output: Output, err: ExecError, now: string)
    requires WellShaped(t) && (t.status == Running || t.status == Cancelling) && now != ""
    ensures var done := Finished(t, output, err, now);
            && (done.status == Succeeded <==> err == NoError)
            && (done.status == Cancelled <==> err == ContextCanceled || (err != NoError && t.status == Cancelling))
            && (done.status == Failed && done.error != "" ==>
                  done.error == if err == NotFoundError then NOT_FOUND_MESSAGE else err.message)
            && (done.status != Failed ==> done.error == "")
            && done.stdout == output.stdout && done.stderr == output.stderr && done.completedAt == now
            && (done.exitCode == None <==> output.exitCode == 0 && err != NoError)
            && (done.exitCode != None ==> done.exitCode == Some(output.exitCode))
            && done.recovery == t.recovery
  {
  }

  lemma OutcomeKeeps(s: State, step: Step)
    requires step.FinishOutcome? && OneInv(s, step.exec) && Enabled(s, step)
    ensures OneInv(EndOutcome(s, step.exec, step.now), step.exec)
  {
  }

  lemma StatusKeeps(s: State, exec: string)
    requires OneInv(s, exec) && Enabled(s, FinishStatus(exec))
    ensures OneInv(EndStatus(s, exec), exec)
  {
  }

  lemma ErrorKeeps(s: State, exec: string)
    requires OneInv(s, exec) && Enabled(s, FinishError(exec))
    ensures OneInv(EndError(s, exec), exec)
  {
  }

  lemma FinishStepKeeps(s: State, step: Step)
    requires FinishStep(step) && OneInv(s, step.exec) && Enabled(s, step)
    ensures OneInv(Apply(s, step), step.exec)
  {
    if step.FinishOutcome? {
      OutcomeKeeps(s, step);
    } else if step.FinishStatus? {
      StatusKeeps(s, step.exec);
    } else if step.FinishError? {
      ErrorKeeps(s, step.exec);
    }
  }

  lemma CancelStepKeeps(s: State, step: Step)
    requires CancelStep(step) && OneInv(s, step.exec) && Enabled(s, step)
    ensures OneInv(Apply(s, step), step.exec)
  {
  }

  lemma OtherStepKeeps(s: State, step: Step, exec: string)
    requires OneInv(s, exec) && Enabled(s, step)
    requires !OpeningStep(step) && !RunnerStep(step) && !FinishStep(step) && !CancelStep(step)
    ensures OneInv(Apply(s, step), exec) && Apply(s, step).lock == s.lock && Apply(s, step).execs.Keys == s.execs.Keys
  {
    if SubscriberStep(step) || step.WorkerSends? {
      assert Apply(s, step).execs == s.execs;
    } else if step.WorkerLists? {
    } else {
      assert step.CleanupHistory? || step.DeleteSandbox?;
    }
  }

  lemma ExecsStep(s: State, step: Step)
    requires ExecsInv(s) && Enabled(s, step)
    ensures ExecsInv(Apply(s, step))
  {
    var s' := Apply(s, step);
    if OpeningStep(step) || RunnerStep(step) || FinishStep(step) || CancelStep(step) {
      assert OneInv(s, step.exec);
      if OpeningStep(step) {
        OpeningStepKeeps(s, step);
      } else if RunnerStep(step) {
        RunnerStepKeeps(s, step);
      } else if FinishStep(step) {
        FinishStepKeeps(s, step);
      } else {
        CancelStepKeeps(s, step);
      }
      OneExecChanges(s, s', step.exec);
    } else {
      forall exec ensures OneInv(s', exec) && s'.lock == s.lock && s'.execs.Keys == s.execs.Keys {
        assert OneInv(s, exec);
        OtherStepKeeps(s, step, exec);
      }
    }
  }

  predicate Ended(s: State, exec: string) {
    exec in s.execs && s.execs[exec].task.status.Terminal()
  }

  /** The result of an ended exec never changes again, whatever anyone does; only its error may still be on the way. */
  lemma TerminalNeverChanges(s: State, step: Step, exec: string)
    requires OneInv(s, exec) && Enabled(s, step) && Ended(s, exec)
    ensures Ended(Apply(s, step), exec) && Apply(s, step).execs[exec].Result() == s.execs[exec].Result()
    ensures s.execs[exec].runner.Over? ==> Apply(s, step).execs[exec].task == s.execs[exec].task
    ensures Apply(s, step).execs[exec].history == s.execs[exec].history
  {
    if OwnStep(step, exec) {
      OwnStepKeepsResult(s, step, exec);
    } else {
      OthersKeepTask(s, step, exec);
    }
  }

  predicate OwnStep(step: Step, exec: string) {
    (OpeningStep(step) || RunnerStep(step) || FinishStep(step) || CancelStep(step)) && step.exec == exec
  }

  lemma OwnStepKeepsResult(s: State, step: Step, exec: string)
    requires OwnStep(step, exec) && OneInv(s, exec) && Enabled(s, step) && Ended(s, exec)
    ensures var e, e' := s.execs[exec], Apply(s, step).execs[exec];
            && e'.task.status.Terminal() && e'.Result() == e.Result() && e'.history == e.history
            && (e.runner.Over? ==> e'.task == e.task)
  {
    assert step.FinishError? || step.FinishInStore? || step.FinishReleases? || step.CancelInMap?;
  }

  /** A task changes only by the steps of its own runner, poller and cancellers. */
  lemma OthersKeepTask(s: State, step: Step, exec: string)
    requires !OwnStep(step, exec) && Enabled(s, step) && exec in s.execs
    ensures exec in Apply(s, step).execs
    ensures var e, e' := s.execs[exec], Apply(s, step).execs[exec];
            e'.task == e.task && e'.runner == e.runner && e'.history == e.history
  {
    if SubscriberStep(step) || step.WorkerSends? || step.FinishReleases? {
      assert Apply(s, step).execs == s.execs;
    } else if step.CleanupHistory? || step.DeleteSandbox? || step.WorkerLists? {
    } else {
      assert Apply(s, step).execs == s.execs || Apply(s, step).execs == s.execs[step.exec := Apply(s, step).execs[step.exec]];
    }
  }

  // Deliveries carry the final result

  /** A copy of a terminal task: the result, or a failure from before its error was assigned. */
  predicate Copies(copy: Task, result: Task) {
    copy == result || (result.status == Failed && copy == result.(error := ""))
  }

  /** What anyone who reads an ended exec gets. */
  lemma ReadCopies(e: Exec, exec: string, lock: Lock)
    requires ExecInv(e, exec, lock) && e.task.status.Terminal()
    ensures Copies(e.task, e.Result()) && (e.runner.Over? ==> e.task == e.Result())
    ensures e.task == e.Result() <==> !(e.runner.Closed? && e.Result().error != "")
  {
  }

  predicate WorkerInv(s: State, w: string) {
    w in s.workers ==>
      var worker := s.workers[w];
      && Ended(s, worker.exec) && Copies(worker.result, s.execs[worker.exec].Result())
      && QueueInv(s, worker)
  }

  predicate SubscriberInv(s: State, id: string) {
    id in s.subscribers ==>
      var r := s.subscribers[id];
      && r.exec in s.execs
      && (r.HasInserted? || r.result.status.Terminal() ==> Ended(s, r.exec) && Copies(r.result, s.execs[r.exec].Result()))
  }

  predicate SentInv(s: State) {
    forall d :: d in s.sent ==> Ended(s, d.exec) && Copies(d.result, s.execs[d.exec].Result())
  }

  ghost predicate ActorsInv(s: State) {
    && (forall w :: WorkerInv(s, w))
    && (forall id :: SubscriberInv(s, id))
    && SentInv(s)
  }

  lemma WorkersStep(s: State, step: Step, w: string)
    requires WorkerInv(s, w) && Enabled(s, step)
    requires w in s.workers ==> OneInv(s, s.workers[w].exec)
    requires step.FinishReleases? ==> OneInv(s, step.exec)
    requires step.SubscriberSpawns? ==> SubscriberInv(s, step.id)
    ensures WorkerInv(Apply(s, step), w)
  {
    if w !in s.workers {
      if w in Apply(s, step).workers {
        NewWorker(s, step, w);
      }
    } else {
      TerminalNeverChanges(s, step, s.workers[w].exec);
      if (step.WorkerLists? || step.WorkerSends?) && step.worker == w {
        BusyWorker(s, step, w);
      } else {
        WorkerStays(s, step, w);
      }
    }
  }

  lemma NewWorker(s: State, step: Step, w: string)
    requires Enabled(s, step) && w !in s.workers && w in Apply(s, step).workers
    requires step.FinishReleases? ==> OneInv(s, step.exec)
    requires step.SubscriberSpawns? ==> SubscriberInv(s, step.id)
    ensures WorkerInv(Apply(s, step), w)
  {
    assert step.FinishReleases? || step.SubscriberSpawns?;
  }

  /** The queue of a worker, as far as its rows still exist. */
  predicate QueueInv(s: State, worker: Worker) {
    worker.Delivering? ==> forall k :: k in worker.queue && k in s.subs ==>
      s.subs[k].exec == worker.exec && s.subs[k].url == worker.queue[k] && s.subs[k].listed
  }

  lemma BusyWorker(s: State, step: Step, w: string)
    requires Enabled(s, step) && w in s.workers && QueueInv(s, s.workers[w])
    requires (step.WorkerLists? || step.WorkerSends?) && step.worker == w
    ensures var s' := Apply(s, step);
            && w in s'.workers && QueueInv(s', s'.workers[w])
            && s'.workers[w].exec == s.workers[w].exec && s'.workers[w].result == s.workers[w].result
  {
  }

  lemma WorkerStays(s: State, step: Step, w: string)
    requires Enabled(s, step) && w in s.workers && QueueInv(s, s.workers[w])
    requires !((step.WorkerLists? || step.WorkerSends?) && step.worker == w)
    ensures var s' := Apply(s, step);
            w in s'.workers && s'.workers[w] == s.workers[w] && QueueInv(s', s'.workers[w])
  {
    if !TouchesRows(step) {
      OthersKeepRows(s, step);
    }
  }

  lemma SubscribersStep(s: State, step: Step, id: string)
    requires SubscriberInv(s, id) && Enabled(s, step)
    requires id in s.subscribers ==> OneInv(s, s.subscribers[id].exec)
    requires step.SubscriberReads? ==> OneInv(s, step.exec)
    ensures SubscriberInv(Apply(s, step), id)
  {
    if step.SubscriberReads? && step.id == id {
      var e := s.execs[step.exec];
      if e.task.status.Terminal() {
        ReadCopies(e, step.exec, s.lock);
      }
    } else if id in Apply(s, step).subscribers {
      SubscriberStays(s, step, id);
      var exec := s.subscribers[id].exec;
      if Ended(s, exec) {
        TerminalNeverChanges(s, step, exec);
      } else {
        StillThere(s, step, exec);
      }
    }
  }

  lemma StillThere(s: State, step: Step, exec: string)
    requires Enabled(s, step) && exec in s.execs
    ensures exec in Apply(s, step).execs
  {
  }

  lemma SubscriberStays(s: State, step: Step, id: string)
    requires Enabled(s, step) && id in Apply(s, step).subscribers && !(step.SubscriberReads? && step.id == id)
    ensures id in s.subscribers
    ensures var r, r' := s.subscribers[id], Apply(s, step).subscribers[id];
            && r'.exec == r.exec && r'.result == r.result
            && (r'.HasInserted? ==> r.HasInserted? || r.result.status.Terminal())
  {
    if SubscriberStep(step) {
    } else {
      assert Apply(s, step).subscribers == s.subscribers;
    }
  }

  predicate SubscriberStep(step: Step) {
    step.SubscriberReads? || step.SubscriberInserts? || step.SubscriberFails? || step.SubscriberSpawns?
  }

  lemma SentStep(s: State, step: Step)
    requires ExecsInv(s) && SentInv(s) && Enabled(s, step)
    requires step.WorkerSends? ==> WorkerInv(s, step.worker)
    ensures SentInv(Apply(s, step))
  {
    forall d | d in Apply(s, step).sent
      ensures Ended(Apply(s, step), d.exec) && Copies(d.result, Apply(s, step).execs[d.exec].Result())
    {
      assert OneInv(s, d.exec);
      TerminalNeverChanges(s, step, d.exec);
    }
  }

  // Who is responsible for a subscription

  predicate Queued(s: State, k: string) {
    exists w :: w in s.workers && s.workers[w].Delivering? && k in s.workers[w].queue
  }

  predicate InMutex(s: State, exec: string) {
    s.lock == Ending(exec) || s.lock == Storing(exec) || s.lock == Stored(exec)
  }

  /** Someone is still going to list the pending subscriptions of the exec. */
  predicate Awaited(s: State, exec: string) {
    || InMutex(s, exec)
    || (exists w :: w in s.workers && s.workers[w].ToList? && s.workers[w].exec == exec)
    || (exists id :: id in s.subscribers && s.subscribers[id].HasInserted? && s.subscribers[id].exec == exec)
  }

  /** Inserted after the finisher had listed, by a subscriber that had read a status that was not terminal. */
  predicate Missed(sub: Subscription) {
    sub.late && !sub.readTerminal
  }

  predicate SubscriptionInv(s: State, k: string) {
    k in s.subs ==>
      var sub := s.subs[k];
      && s.HasRow(sub.exec)
      && (sub.delivered ==> sub.listed)
      && (sub.listed && !sub.delivered ==> Queued(s, k))
      && (!sub.delivered && Ended(s, sub.exec) && !Missed(sub) ==> Queued(s, k) || Awaited(s, sub.exec))
  }

  predicate ListerOnTheWay(s: State, exec: string) {
    || InMutex(s, exec)
    || (exists w :: w in s.workers && s.workers[w].ToList? && s.workers[w].exec == exec && s.workers[w].finisher)
  }

  /** UNIQUE(exec_id, webhook_url). */
  predicate UniqueUrls(subs: map<string, Subscription>) {
    forall k, l :: k in subs && l in subs && subs[k].exec == subs[l].exec && subs[k].url == subs[l].url ==> k == l
  }

  /** After the end of an exec its finisher lists, or is on the way to. */
  predicate FinisherInv(s: State, exec: string) {
    exec in s.execs ==>
      && (s.execs[exec].finisherListed ==> Ended(s, exec))
      && (Ended(s, exec) && !s.execs[exec].finisherListed ==> ListerOnTheWay(s, exec))
  }

  ghost predicate HooksInv(s: State) {
    && (forall k :: SubscriptionInv(s, k))
    && (forall exec :: FinisherInv(s, exec))
    && UniqueUrls(s.subs)
  }

  lemma QueuedStays(s: State, step: Step, k: string)
    requires Enabled(s, step) && Queued(s, k) && !(step.WorkerSends? && step.sub == k)
    ensures Queued(Apply(s, step), k)
  {
    var w :| w in s.workers && s.workers[w].Delivering? && k in s.workers[w].queue;
    var s' := Apply(s, step);
    assert w in s'.workers && s'.workers[w].Delivering? && k in s'.workers[w].queue;
  }

  lemma MutexStays(s: State, step: Step, exec: string)
    requires Enabled(s, step) && InMutex(s, exec)
    ensures InMutex(Apply(s, step), exec)
            || (step.FinishReleases? && step.worker in Apply(s, step).workers
                && Apply(s, step).workers[step.worker].ToList? && Apply(s, step).workers[step.worker].exec == exec
                && Apply(s, step).workers[step.worker].finisher)
  {
  }

  lemma ListerStays(s: State, step: Step, w: string)
    requires Enabled(s, step) && w in s.workers && s.workers[w].ToList? && !(step.WorkerLists? && step.worker == w)
    ensures w in Apply(s, step).workers && Apply(s, step).workers[w] == s.workers[w]
  {
  }

  lemma InsertedStays(s: State, step: Step, id: string)
    requires Enabled(s, step) && id in s.subscribers && s.subscribers[id].HasInserted?
    ensures var s', exec := Apply(s, step), s.subscribers[id].exec;
            || (id in s'.subscribers && s'.subscribers[id].HasInserted? && s'.subscribers[id].exec == exec)
            || (step.SubscriberSpawns? && step.worker in s'.workers && s'.workers[step.worker].ToList?
                && s'.workers[step.worker].exec == exec)
  {
  }

  lemma AwaitedStays(s: State, step: Step, exec: string)
    requires Enabled(s, step) && Awaited(s, exec)
    requires step.WorkerLists? ==> s.workers[step.worker].exec != exec
    ensures Awaited(Apply(s, step), exec)
  {
    if InMutex(s, exec) {
      MutexStays(s, step, exec);
    } else if w :| w in s.workers && s.workers[w].ToList? && s.workers[w].exec == exec {
      ListerStays(s, step, w);
    } else {
      var id :| id in s.subscribers && s.subscribers[id].HasInserted? && s.subscribers[id].exec == exec;
      InsertedStays(s, step, id);
    }
  }

  lemma FinisherStep(s: State, step: Step, exec: string)
    requires FinisherInv(s, exec) && OneInv(s, exec) && Enabled(s, step)
    requires step.WorkerLists? ==> WorkerInv(s, step.worker)
    ensures FinisherInv(Apply(s, step), exec)
  {
    var s' := Apply(s, step);
    if Ended(s, exec) {
      TerminalNeverChanges(s, step, exec);
      if !s.execs[exec].finisherListed {
        FinisherStays(s, step, exec);
      }
    } else if exec in s.execs && step.FinishStatus? && step.exec == exec {
      assert InMutex(s', exec);
    }
  }

  lemma FinisherStays(s: State, step: Step, exec: string)
    requires Enabled(s, step) && exec in s.execs && ListerOnTheWay(s, exec)
    ensures exec in Apply(s, step).execs
    ensures Apply(s, step).execs[exec].finisherListed || ListerOnTheWay(Apply(s, step), exec)
  {
    StillThere(s, step, exec);
    if InMutex(s, exec) {
      MutexStays(s, step, exec);
    } else {
      var w :| w in s.workers && s.workers[w].ToList? && s.workers[w].exec == exec && s.workers[w].finisher;
      if !(step.WorkerLists? && step.worker == w) {
        ListerStays(s, step, w);
      }
    }
  }

  /** The row that a subscriber inserts starts out accounted for. */
  lemma NewSubscription(s: State, step: Step)
    requires Enabled(s, step) && step.SubscriberInserts? && step.sub in Apply(s, step).subs && step.sub !in s.subs
    requires SubscriberInv(s, step.id) && FinisherInv(s, s.subscribers[step.id].exec)
    ensures SubscriptionInv(Apply(s, step), step.sub)
  {
    var s' := Apply(s, step);
    var r := s.subscribers[step.id];
    if Ended(s, r.exec) {
      if r.result.status.Terminal() {
        assert step.id in s'.subscribers && s'.subscribers[step.id].HasInserted?;
      } else if !s.execs[r.exec].finisherListed {
        assert Awaited(s, r.exec);
        AwaitedStays(s, step, r.exec);
      }
    }
  }

  lemma ListedSubscription(s: State, step: Step, k: string)
    requires SubscriptionInv(s, k) && k in s.subs && Enabled(s, step)
    requires step.WorkerLists? && s.workers[step.worker].exec == s.subs[k].exec
    ensures SubscriptionInv(Apply(s, step), k)
  {
    var s' := Apply(s, step);
    if !s.subs[k].delivered {
      assert step.worker in s'.workers && k in s'.workers[step.worker].queue;
      assert Queued(s', k);
    }
  }

  lemma SentSubscription(s: State, step: Step, k: string)
    requires SubscriptionInv(s, k) && k in s.subs && Enabled(s, step)
    requires step.WorkerSends? && step.sub == k && WorkerInv(s, step.worker)
    ensures SubscriptionInv(Apply(s, step), k)
  {
  }

  lemma WaitingSubscription(s: State, step: Step, k: string)
    requires Enabled(s, step) && SubscriptionInv(s, k) && k in s.subs && k in Apply(s, step).subs
    requires !(step.WorkerLists? && s.workers[step.worker].exec == s.subs[k].exec)
    requires !(step.WorkerSends? && step.sub == k)
    requires OneInv(s, s.subs[k].exec)
    ensures SubscriptionInv(Apply(s, step), k)
  {
    var s', exec := Apply(s, step), s.subs[k].exec;
    RowStays(s, step, k);
    if Queued(s, k) {
      QueuedStays(s, step, k);
    }
    if Awaited(s, exec) {
      AwaitedStays(s, step, exec);
    }
    if !Ended(s, exec) && Ended(s', exec) {
      EndsInMutex(s, step, exec);
    }
    StillAccounted(s, s', k);
  }

  predicate TouchesRows(step: Step) {
    step.SubscriberInserts? || step.WorkerLists? || step.WorkerSends? || step.CleanupHistory? || step.DeleteSandbox?
  }

  lemma OthersKeepRows(s: State, step: Step)
    requires Enabled(s, step) && !TouchesRows(step)
    ensures Apply(s, step).subs == s.subs
  {
  }

  lemma RowStays(s: State, step: Step, k: string)
    requires Enabled(s, step) && k in s.subs && k in Apply(s, step).subs && s.HasRow(s.subs[k].exec)
    requires !(step.WorkerLists? && s.workers[step.worker].exec == s.subs[k].exec)
    requires !(step.WorkerSends? && step.sub == k)
    ensures Apply(s, step).subs[k] == s.subs[k] && Apply(s, step).HasRow(s.subs[k].exec)
  {
    if !TouchesRows(step) {
      OthersKeepRows(s, step);
    }
    ExecRowStays(s, step, s.subs[k].exec, k);
  }

  lemma ExecRowStays(s: State, step: Step, exec: string, k: string)
    requires Enabled(s, step) && k in s.subs && k in Apply(s, step).subs && s.subs[k].exec == exec && s.HasRow(exec)
    ensures Apply(s, step).HasRow(exec)
  {
    if !OwnStep(step, exec) && step.WorkerLists? {
    } else if step.CleanupHistory? || step.DeleteSandbox? {
    } else if !OwnStep(step, exec) {
      assert exec in Apply(s, step).execs && Apply(s, step).execs[exec] == s.execs[exec];
    }
  }

  lemma StillAccounted(s: State, s': State, k: string)
    requires SubscriptionInv(s, k) && k in s.subs && k in s'.subs && s'.subs[k] == s.subs[k]
    requires s'.HasRow(s.subs[k].exec)
    requires Queued(s, k) ==> Queued(s', k)
    requires Awaited(s, s.subs[k].exec) ==> Awaited(s', s.subs[k].exec)
    requires Ended(s', s.subs[k].exec) ==> Ended(s, s.subs[k].exec) || InMutex(s', s.subs[k].exec)
    ensures SubscriptionInv(s', k)
  {
  }

  lemma EndsInMutex(s: State, step: Step, exec: string)
    requires Enabled(s, step) && OneInv(s, exec) && exec in s.execs
    requires !Ended(s, exec) && Ended(Apply(s, step), exec)
    ensures InMutex(Apply(s, step), exec)
  {
  }

  lemma SubscriptionStep(s: State, step: Step, k: string)
    requires SubscriptionInv(s, k) && Enabled(s, step)
    requires k in s.subs ==> OneInv(s, s.subs[k].exec)
    requires step.WorkerSends? ==> WorkerInv(s, step.worker)
    requires step.SubscriberInserts? ==> SubscriberInv(s, step.id) && FinisherInv(s, s.subscribers[step.id].exec)
    ensures SubscriptionInv(Apply(s, step), k)
  {
    if k !in s.subs {
      if k in Apply(s, step).subs {
        NewSubscription(s, step);
      }
    } else if step.WorkerSends? && step.sub == k {
      SentSubscription(s, step, k);
    } else if step.WorkerLists? && s.workers[step.worker].exec == s.subs[k].exec {
      ListedSubscription(s, step, k);
    } else if k in Apply(s, step).subs {
      WaitingSubscription(s, step, k);
    }
  }

  lemma UniqueStep(s: State, step: Step)
    requires UniqueUrls(s.subs) && Enabled(s, step)
    ensures UniqueUrls(Apply(s, step).subs)
  {
    var subs := Apply(s, step).subs;
    forall k, l | k in subs && l in subs && subs[k].exec == subs[l].exec && subs[k].url == subs[l].url
      ensures k == l
    {
      if k in s.subs && l in s.subs {
        assert s.subs[k].exec == s.subs[l].exec && s.subs[k].url == s.subs[l].url;
      }
    }
  }

  // All of it

  /** A row is marked delivered only when the final result has been posted to its URL. */
  predicate PostedInv(s: State, k: string) {
    k in s.subs && s.subs[k].delivered ==>
      var exec, url := s.subs[k].exec, s.subs[k].url;
      && Ended(s, exec)
      && exists d :: d in s.sent && d.exec == exec && d.url == url && Copies(d.result, s.execs[exec].Result())
  }

  lemma PostedStep(s: State, step: Step, k: string)
    requires PostedInv(s, k) && Enabled(s, step)
    requires k in s.subs ==> OneInv(s, s.subs[k].exec)
    requires step.WorkerSends? ==> WorkerInv(s, step.worker)
    ensures PostedInv(Apply(s, step), k)
  {
    var s' := Apply(s, step);
    if k in s.subs && k in s'.subs {
      var exec, url := s.subs[k].exec, s.subs[k].url;
      if Ended(s, exec) {
        TerminalNeverChanges(s, step, exec);
      }
      if s.subs[k].delivered {
        var d :| d in s.sent && d.exec == exec && d.url == url && Copies(d.result, s.execs[exec].Result());
        assert d in s'.sent;
      } else if s'.subs[k].delivered {
        var w := s.workers[step.worker];
        assert Delivery(w.exec, w.queue[k], w.result) in s'.sent;
      }
    }
  }

  ghost predicate Inv(s: State) {
    && ExecsInv(s) && ActorsInv(s) && HooksInv(s)
    && forall k :: PostedInv(s, k)
  }

  lemma ActorsStep(s: State, step: Step)
    requires ExecsInv(s) && ActorsInv(s) && Enabled(s, step)
    ensures ActorsInv(Apply(s, step))
  {
    var s' := Apply(s, step);
    forall w ensures WorkerInv(s', w) {
      assert WorkerInv(s, w);
      assert w in s.workers ==> OneInv(s, s.workers[w].exec);
      assert step.FinishReleases? ==> OneInv(s, step.exec);
      assert step.SubscriberSpawns? ==> SubscriberInv(s, step.id);
      WorkersStep(s, step, w);
    }
    forall id ensures SubscriberInv(s', id) {
      assert SubscriberInv(s, id);
      assert id in s.subscribers ==> OneInv(s, s.subscribers[id].exec);
      assert step.SubscriberReads? ==> OneInv(s, step.exec);
      SubscribersStep(s, step, id);
    }
    assert step.WorkerSends? ==> WorkerInv(s, step.worker);
    SentStep(s, step);
  }

  lemma HooksStep(s: State, step: Step)
    requires ExecsInv(s) && ActorsInv(s) && HooksInv(s) && Enabled(s, step)
    ensures HooksInv(Apply(s, step))
  {
    var s' := Apply(s, step);
    assert step.WorkerSends? || step.WorkerLists? ==> WorkerInv(s, step.worker);
    assert step.SubscriberInserts? ==> SubscriberInv(s, step.id) && FinisherInv(s, s.subscribers[step.id].exec);
    forall k ensures SubscriptionInv(s', k) {
      assert SubscriptionInv(s, k);
      assert k in s.subs ==> OneInv(s, s.subs[k].exec);
      SubscriptionStep(s, step, k);
    }
    forall exec ensures FinisherInv(s', exec) {
      assert FinisherInv(s, exec) && OneInv(s, exec);
      FinisherStep(s, step, exec);
    }
    UniqueStep(s, step);
  }

  lemma StepKeeps(s: State, step: Step)
    requires Inv(s) && Enabled(s, step)
    ensures Inv(Apply(s, step))
  {
    ExecsStep(s, step);
    ActorsStep(s, step);
    HooksStep(s, step);
    forall k ensures PostedInv(Apply(s, step), k) {
      assert PostedInv(s, k);
      assert k in s.subs ==> OneInv(s, s.subs[k].exec);
      assert step.WorkerSends? ==> WorkerInv(s, step.worker);
      PostedStep(s, step, k);
    }
  }
}
