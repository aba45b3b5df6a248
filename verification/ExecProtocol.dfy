/**
The exec task and webhook protocol as a transition system. A step is one stretch
of code under the service mutex up to a store call, or one store call; any number of
submitters, runners, memory pollers, cancellers, subscribers, delivery workers
and cleaners interleave.
*/
module ExecProtocol {
  import opened Order
  import opened Wrappers

  datatype Status = Running | Cancelling | Succeeded | Failed | Cancelled {
    predicate Terminal() { Succeeded? || Failed? || Cancelled? }
  }

  /** ExecResult, and the row of exec_tasks: a NULL completion time reads back as "". */
  datatype Task = Task(
    sandbox: string, command: string, startedAt: string,
    status: Status, stdout: string, stderr: string, exitCode: Option<int>, error: string,
    completedAt: string, recovery: string)

  datatype Output = Output(stdout: string, stderr: string, exitCode: int)

  datatype ExecError = NoError | ContextCanceled | NotFoundError | OtherError(message: string)

  const NOT_FOUND_MESSAGE := "not found"

  function NewTask(sandbox: string, command: string, startedAt: string): Task {
    Task(sandbox, command, startedAt, Running, "", "", None, "", "", "")
  }

  // The closing section of runExecTask assigns the outcome, then the status, then the error.

  function WithOutcome(t: Task, output: Output, err: ExecError, now: string): Task {
    t.(stdout := output.stdout, stderr := output.stderr, completedAt := now,
       exitCode := if output.exitCode != 0 || err == NoError then Some(output.exitCode) else t.exitCode)
  }

  function FinalStatus(status: Status, err: ExecError): Status {
    if err == NoError then Succeeded
    else if status == Cancelling || err == ContextCanceled then Cancelled
    else Failed
  }

  function ErrorText(err: ExecError): string {
    match err
    case NotFoundError => NOT_FOUND_MESSAGE
    case OtherError(message) => message
    case _ => ""
  }

  function WithError(t: Task, err: ExecError, wasCancelling: bool): Task {
    if err == NoError then t
    else if wasCancelling then t.(error := "")
    else if err == ContextCanceled then t
    else t.(error := ErrorText(err))
  }

  function Finished(t: Task, output: Output, err: ExecError, now: string): Task {
    WithError(WithOutcome(t, output, err, now).(status := FinalStatus(t.status, err)), err, t.status == Cancelling)
  }

  function AddNote(recovery: string, note: string): string {
    if recovery != "" then recovery + "; " + note else note
  }

  // Tables

  /** `readTerminal`, `late` and `listed` record how the row came about, for the proofs. */
  datatype Subscription = Subscription(
    exec: string, url: string, delivered: bool, readTerminal: bool, late: bool, listed: bool)

  /** UpdateExecTask writes every column but the fixed ones, and nothing when there is no row. */
  function UpdateRow(row: Option<Task>, t: Task): Option<Task> {
    match row
    case None => None
    case Some(r) => Some(t.(sandbox := r.sandbox, command := r.command, startedAt := r.startedAt))
  }

  /** The rows that CleanupExecTasksBefore deletes. */
  predicate Expired(row: Task, before: string) {
    row.completedAt != "" && StrLess(row.completedAt, before)
  }

  predicate HasSubscription(subs: map<string, Subscription>, exec: string, url: string) {
    exists k :: k in subs && subs[k].exec == exec && subs[k].url == url
  }

  /** INSERT OR IGNORE under UNIQUE(exec_id, webhook_url). */
  function InsertSubscription(subs: map<string, Subscription>, k: string, sub: Subscription): map<string, Subscription> {
    if HasSubscription(subs, sub.exec, sub.url) then subs else subs[k := sub]
  }

  /** The pending rows of an exec, with the URL of each. */
  function Pending(subs: map<string, Subscription>, exec: string): map<string, string> {
    map k | k in subs && subs[k].exec == exec && !subs[k].delivered :: subs[k].url
  }

  function MarkListed(subs: map<string, Subscription>, exec: string): map<string, Subscription> {
    map k | k in subs :: if subs[k].exec == exec && !subs[k].delivered then subs[k].(listed := true) else subs[k]
  }

  /** MarkExecWebhookSubscriptionDelivered: no row, no effect. */
  function MarkDelivered(subs: map<string, Subscription>, k: string): map<string, Subscription> {
    if k in subs then subs[k := subs[k].(delivered := true)] else subs
  }

  // State

  /**
  From Execute to the end of runExecTask; `Abandoned` when the row could not be inserted, `Closing` when
  the outcome has been assigned, `Closed` when the status has, `Over` when the error has, too.
  */
  datatype Runner =
    | Creating | Abandoned | Starting | Executing | Returned(output: Output, err: ExecError)
    | Closing(err: ExecError) | Closed(err: ExecError, wasCancelling: bool) | Over

  /** One exec: its entry in execMap, its row if any, its goroutine, and what has happened to it. */
  datatype Exec = Exec(
    task: Task, row: Option<Task>, runner: Runner, history: seq<Status>, finisherListed: bool)
  {
    /** The id reaches callers only through the row: Execute returns it after the insert. */
    predicate Published() { !runner.Creating? && !runner.Abandoned? }

    function WithStatus(t: Task): Exec {
      this.(task := t, history := history + [t.status])
    }

    /** What the task is going to be once the closing section has assigned the error. */
    function Result(): Task {
      match runner
      case Closed(err, wasCancelling) => WithError(task, err, wasCancelling)
      case _ => task
    }

    /** The row is gone if it meets the condition. */
    function DropRow(condition: bool): Exec {
      if condition then this.(row := None) else this
    }
  }

  /** A goroutine inside the mutex between its first write to the map and its release. */
  datatype Lock = Free | Ending(exec: string) | Storing(exec: string) | Stored(exec: string) | StoringCancel(exec: string)

  datatype Subscriber =
    | HasRead(exec: string, url: string, result: Task)
    | HasInserted(exec: string, result: Task)

  /** deliverExecWebhookNotifications: before its listing, then with what is left of it. */
  datatype Worker =
    | ToList(exec: string, result: Task, finisher: bool)
    | Delivering(exec: string, result: Task, queue: map<string, string>)

  datatype Delivery = Delivery(exec: string, url: string, result: Task)

  datatype State = State(
    sandboxes: set<string>,
    execs: map<string, Exec>,
    lock: Lock,
    subs: map<string, Subscription>,
    subscribers: map<string, Subscriber>,
    workers: map<string, Worker>,
    sent: set<Delivery>)
  {
    predicate HasRow(exec: string) { exec in execs && execs[exec].row.Some? }

    function Put(exec: string, e: Exec): State { this.(execs := execs[exec := e]) }
  }

  function Initial(sandboxes: set<string>): State {
    State(sandboxes, map[], Free, map[], map[], map[], {})
  }

  datatype Step =
    | Submit(exec: string, sandbox: string, command: string, now: string)
    | InsertRow(exec: string)
    | InsertRowFails(exec: string)
    | PreExpand(exec: string, preNote: Option<string>)
    | Poll(exec: string, note: string)
    | BackendReturns(exec: string, output: Output, err: ExecError, oomNote: Option<string>)
    | FinishOutcome(exec: string, now: string)
    | FinishStatus(exec: string)
    | FinishError(exec: string)
    | FinishInStore(exec: string)
    | FinishReleases(exec: string, worker: string)
    | CancelInMap(exec: string)
    | CancelInStore(exec: string)
    | SubscriberReads(id: string, exec: string, url: string)
    | SubscriberInserts(id: string, sub: string)
    | SubscriberFails(id: string)
    | SubscriberSpawns(id: string, worker: string)
    | WorkerLists(worker: string)
    | WorkerSends(worker: string, sub: string)
    | CleanupHistory(before: string)
    | DeleteSandbox(sandbox: string)

  function Noted(t: Task, note: Option<string>): Task {
    match note
    case None => t
    case Some(text) => t.(recovery := text)
  }

  predicate Enabled(s: State, step: Step) {
    match step
    case Submit(exec, sandbox, command, now) => s.lock == Free && exec !in s.execs
    case InsertRow(exec) =>
      exec in s.execs && s.execs[exec].runner.Creating? && s.execs[exec].task.sandbox in s.sandboxes
    case InsertRowFails(exec) => exec in s.execs && s.execs[exec].runner.Creating?
    case PreExpand(exec, note) => exec in s.execs && s.execs[exec].runner.Starting?
    case Poll(exec, note) =>
      && s.lock == Free && exec in s.execs && s.execs[exec].task.status == Running
      && (s.execs[exec].runner.Executing? || s.execs[exec].runner.Returned?)
    case BackendReturns(exec, output, err, oomNote) => exec in s.execs && s.execs[exec].runner.Executing?
    case FinishOutcome(exec, now) => s.lock == Free && exec in s.execs && s.execs[exec].runner.Returned? && now != ""
    case FinishStatus(exec) => s.lock == Ending(exec) && exec in s.execs && s.execs[exec].runner.Closing?
    case FinishError(exec) => s.lock == Ending(exec) && exec in s.execs && s.execs[exec].runner.Closed?
    case FinishInStore(exec) => s.lock == Storing(exec) && exec in s.execs
    case FinishReleases(exec, worker) => s.lock == Stored(exec) && exec in s.execs && worker !in s.workers
    case CancelInMap(exec) => s.lock == Free && exec in s.execs && s.execs[exec].Published()
    case CancelInStore(exec) => s.lock == StoringCancel(exec) && exec in s.execs
    case SubscriberReads(id, exec, url) => id !in s.subscribers && exec in s.execs && s.execs[exec].Published()
    case SubscriberInserts(id, sub) =>
      && id in s.subscribers && s.subscribers[id].HasRead? && s.HasRow(s.subscribers[id].exec) && sub !in s.subs
      && forall w :: w in s.workers && s.workers[w].Delivering? ==> sub !in s.workers[w].queue
    case SubscriberFails(id) => id in s.subscribers && s.subscribers[id].HasRead?
    case SubscriberSpawns(id, worker) => id in s.subscribers && s.subscribers[id].HasInserted? && worker !in s.workers
    case WorkerLists(worker) => worker in s.workers && s.workers[worker].ToList? && s.workers[worker].exec in s.execs
    case WorkerSends(worker, sub) =>
      worker in s.workers && s.workers[worker].Delivering? && sub in s.workers[worker].queue
    case CleanupHistory(before) => true
    case DeleteSandbox(sandbox) => true
  }

  function CleanupRows(execs: map<string, Exec>, before: string): map<string, Exec> {
    map id | id in execs :: execs[id].DropRow(execs[id].row.Some? && Expired(execs[id].row.value, before))
  }

  function RowsWithout(execs: map<string, Exec>, sandbox: string): map<string, Exec> {
    map id | id in execs :: execs[id].DropRow(execs[id].row.Some? && execs[id].row.value.sandbox == sandbox)
  }

  /** New contents of exec_tasks, with ON DELETE CASCADE. */
  function WithRows(s: State, execs: map<string, Exec>): State {
    s.(execs := execs,
       subs := map k | k in s.subs && s.subs[k].exec in execs && execs[s.subs[k].exec].row.Some? :: s.subs[k])
  }

  function Submitted(s: State, exec: string, sandbox: string, command: string, now: string): State {
    s.Put(exec, Exec(NewTask(sandbox, command, now), None, Creating, [Running], false))
  }

  function Inserted(s: State, exec: string): State
    requires exec in s.execs
  {
    var e := s.execs[exec];
    s.Put(exec, e.(row := Some(e.task.(recovery := "")), runner := Starting))
  }

  function Polled(s: State, exec: string, note: string): State
    requires exec in s.execs
  {
    var e := s.execs[exec];
    s.Put(exec, e.(task := e.task.(recovery := AddNote(e.task.recovery, note))))
  }

  function EndOutcome(s: State, exec: string, now: string): State
    requires exec in s.execs && s.execs[exec].runner.Returned?
  {
    var e := s.execs[exec];
    s.Put(exec, e.(task := WithOutcome(e.task, e.runner.output, e.runner.err, now), runner := Closing(e.runner.err)))
    .(lock := Ending(exec))
  }

  function EndStatus(s: State, exec: string): State
    requires exec in s.execs && s.execs[exec].runner.Closing?
  {
    var e, err := s.execs[exec], s.execs[exec].runner.err;
    s.Put(exec, e.WithStatus(e.task.(status := FinalStatus(e.task.status, err)))
                 .(runner := Closed(err, e.task.status == Cancelling)))
  }

  function EndError(s: State, exec: string): State
    requires exec in s.execs
  {
    var e := s.execs[exec];
    s.Put(exec, e.(task := e.Result(), runner := Over)).(lock := Storing(exec))
  }

  function EndInStore(s: State, exec: string): State
    requires exec in s.execs
  {
    var e := s.execs[exec];
    s.Put(exec, e.(row := UpdateRow(e.row, e.task))).(lock := Stored(exec))
  }

  function EndReleases(s: State, exec: string, worker: string): State
    requires exec in s.execs
  {
    s.(workers := s.workers[worker := ToList(exec, s.execs[exec].task, true)], lock := Free)
  }

  function CancellingInMap(s: State, exec: string): State
    requires exec in s.execs
  {
    var e := s.execs[exec];
    if e.task.status != Running then s
    else s.Put(exec, e.WithStatus(e.task.(status := Cancelling))).(lock := StoringCancel(exec))
  }

  /** The record that CancelExec writes carries no recovery note, so the column is reset. */
  function CancellingInStore(s: State, exec: string): State
    requires exec in s.execs
  {
    var e := s.execs[exec];
    s.Put(exec, e.(row := UpdateRow(e.row, e.task.(recovery := "")))).(lock := Free)
  }

  /** What subscriber `id` inserts. */
  function NewSubscription(s: State, id: string): Subscription
    requires id in s.subscribers && s.subscribers[id].HasRead? && s.subscribers[id].exec in s.execs
  {
    var r := s.subscribers[id];
    Subscription(r.exec, r.url, false, r.result.status.Terminal(), s.execs[r.exec].finisherListed, false)
  }

  /** After the insert, only a subscriber that has read a terminal status has something left to do. */
  function Subscribed(s: State, id: string, sub: string): State
    requires id in s.subscribers && s.subscribers[id].HasRead? && s.subscribers[id].exec in s.execs
  {
    var r := s.subscribers[id];
    s.(subs := InsertSubscription(s.subs, sub, NewSubscription(s, id)),
       subscribers := if r.result.status.Terminal() then s.subscribers[id := HasInserted(r.exec, r.result)]
                      else s.subscribers - {id})
  }

  function Listed(s: State, worker: string): State
    requires worker in s.workers && s.workers[worker].ToList? && s.workers[worker].exec in s.execs
  {
    var w := s.workers[worker];
    var ks := Pending(s.subs, w.exec);
    var e := s.execs[w.exec];
    s.Put(w.exec, e.(finisherListed := e.finisherListed || w.finisher))
    .(subs := MarkListed(s.subs, w.exec), workers := s.workers[worker := Delivering(w.exec, w.result, ks)])
  }

  /** The URL was listed with the row, so a row deleted since is posted to all the same. */
  function Sent(s: State, worker: string, sub: string): State
    requires worker in s.workers && s.workers[worker].Delivering? && sub in s.workers[worker].queue
  {
    var w := s.workers[worker];
    s.(subs := MarkDelivered(s.subs, sub),
       workers := s.workers[worker := w.(queue := w.queue - {sub})],
       sent := s.sent + {Delivery(w.exec, w.queue[sub], w.result)})
  }

  function Apply(s: State, step: Step): State
    requires Enabled(s, step)
  {
    match step
    case Submit(exec, sandbox, command, now) => Submitted(s, exec, sandbox, command, now)
    case InsertRow(exec) => Inserted(s, exec)
    case InsertRowFails(exec) =>
      s.Put(exec, s.execs[exec].(runner := Abandoned))
    case PreExpand(exec, note) =>
      var e := s.execs[exec];
      s.Put(exec, e.(task := Noted(e.task, note), runner := Executing))
    case Poll(exec, note) => Polled(s, exec, note)
    case BackendReturns(exec, output, err, oomNote) =>
      var e := s.execs[exec];
      s.Put(exec, e.(task := Noted(e.task, oomNote), runner := Returned(output, err)))
    case FinishOutcome(exec, now) => EndOutcome(s, exec, now)
    case FinishStatus(exec) => EndStatus(s, exec)
    case FinishError(exec) => EndError(s, exec)
    case FinishInStore(exec) => EndInStore(s, exec)
    case FinishReleases(exec, worker) => EndReleases(s, exec, worker)
    case CancelInMap(exec) => CancellingInMap(s, exec)
    case CancelInStore(exec) => CancellingInStore(s, exec)
    case SubscriberReads(id, exec, url) =>
      s.(subscribers := s.subscribers[id := HasRead(exec, url, s.execs[exec].task)])
    case SubscriberInserts(id, sub) => Subscribed(s, id, sub)
    case SubscriberFails(id) =>
      s.(subscribers := s.subscribers - {id})
    case SubscriberSpawns(id, worker) =>
      var r := s.subscribers[id];
      s.(workers := s.workers[worker := ToList(r.exec, r.result, false)], subscribers := s.subscribers - {id})
    case WorkerLists(worker) => Listed(s, worker)
    case WorkerSends(worker, sub) => Sent(s, worker, sub)
    case CleanupHistory(before) => WithRows(s, CleanupRows(s.execs, before))
    case DeleteSandbox(sandbox) => WithRows(s, RowsWithout(s.execs, sandbox)).(sandboxes := s.sandboxes - {sandbox})
  }
}
