/**
The warm pool as a transition system: creators that take a pooled sandbox in one
transaction and assign it later, the refiller that works under its own mutex one
store call at a time, and clients and idle cleaners that delete.
*/
module WarmPool {
  import opened Order
  import opened Text

  /** A row of sandboxes: its owning session, "" for none. */
  datatype Row = Row(owner: string, lastAccess: string)

  /** A row of warm_pool_entries. */
  datatype Entry = Entry(image: string, memory: int, createdAt: string)

  datatype Config = Config(image: string, memory: int, target: int) {
    predicate Matches(e: Entry) { e.image == image && e.memory == memory }
  }

  /** sessionIDFromLabels. */
  function SessionID(labels: map<string, string>): string {
    if "session_id" in labels && Trim(labels["session_id"]) != "" then Trim(labels["session_id"])
    else if "sessionId" in labels then Trim(labels["sessionId"])
    else ""
  }

  /** The session that the labels name: the first of the two that is not blank. */
  lemma SessionNamed(labels: map<string, string>)
    ensures var session := SessionID(labels);
            if "session_id" in labels && Trim(labels["session_id"]) != "" then session == Trim(labels["session_id"])
            else if "sessionId" in labels && Trim(labels["sessionId"]) != "" then session == Trim(labels["sessionId"])
            else session == ""
  {
  }

  /** Create, from the acquisition on; a creator that is done stays on record. */
  datatype Creator =
    | Holding(id: string, session: string)
    | Assigned(id: string, session: string)
    | Served(id: string, session: string)
    | Dropped(id: string, session: string)
    | Missing(session: string)
    | Direct(session: string)
    | Made
  {
    predicate Took() { Holding? || Assigned? || Served? || Dropped? }
  }

  /** ensureWarmPool: holding the mutex with its local count, before a creation, after the sandbox row, after the entry. */
  datatype Refiller =
    | Idle
    | Ready(available: int)
    | HasSandbox(available: int, id: string)
    | HasEntry(available: int)

  datatype State = State(
    config: Config,
    sandboxes: map<string, Row>,
    pool: map<string, Entry>,
    used: set<string>,
    creators: map<string, Creator>,
    refiller: Refiller,
    deleters: map<string, set<string>>,
    hits: nat, misses: nat, refillTotal: nat)

  function Matching(config: Config, pool: map<string, Entry>): set<string> {
    set id | id in pool && config.Matches(pool[id])
  }

  /** ORDER BY created_at ASC LIMIT 1, ties broken in any way. */
  predicate Oldest(config: Config, pool: map<string, Entry>, id: string) {
    && id in pool && config.Matches(pool[id])
    && forall other :: other in pool && config.Matches(pool[other]) ==> !StrLess(pool[other].createdAt, pool[id].createdAt)
  }

  /** ListIdleSandboxesBefore. */
  function IdleBefore(sandboxes: map<string, Row>, before: string): set<string> {
    set id | id in sandboxes && sandboxes[id].owner != "" && sandboxes[id].lastAccess != ""
             && StrLess(sandboxes[id].lastAccess, before)
  }

  predicate Authorized(sandboxes: map<string, Row>, session: string, id: string) {
    Trim(session) != "" && id in sandboxes && Trim(sandboxes[id].owner) == Trim(session)
  }

  datatype Step =
    | Acquire(c: string, id: string, labels: map<string, string>)
    | AcquireNone(c: string, labels: map<string, string>)
    | SkipPool(c: string, image: string, memory: int, labels: map<string, string>)
    | BackendGetFails(c: string)
    | Assign(c: string)
    | StatusFails(c: string)
    | CountHit(c: string)
    | CountMiss(c: string)
    | CreateDirectly(c: string, id: string, created: string)
    | RefillStarts
    | RefillCreates(id: string, created: string)
    | RefillInserts(createdAt: string)
    | RefillCounts
    | RefillEnds
    | RefillFails
    | AuthorizeDelete(d: string, session: string, id: string)
    | Touch(session: string, id: string, now: string)
    | ListIdle(d: string, before: string)
    | DeleteSandbox(d: string, id: string)

  predicate Enabled(s: State, step: Step) {
    match step
    case Acquire(c, id, labels) => s.config.target > 0 && c !in s.creators && Oldest(s.config, s.pool, id)
    case AcquireNone(c, labels) => s.config.target > 0 && c !in s.creators && Matching(s.config, s.pool) == {}
    case SkipPool(c, image, memory, labels) =>
      c !in s.creators && (s.config.target <= 0 || image != s.config.image || memory != s.config.memory)
    case BackendGetFails(c) => c in s.creators && s.creators[c].Holding?
    case Assign(c) => c in s.creators && s.creators[c].Holding?
    case StatusFails(c) => c in s.creators && s.creators[c].Assigned?
    case CountHit(c) => c in s.creators && s.creators[c].Assigned?
    case CountMiss(c) => c in s.creators && s.creators[c].Missing?
    case CreateDirectly(c, id, created) => c in s.creators && s.creators[c].Direct? && id !in s.used
    case RefillStarts => s.refiller.Idle? && s.config.target > 0
    case RefillCreates(id, created) => s.refiller.Ready? && s.refiller.available < s.config.target && id !in s.used
    case RefillInserts(createdAt) => s.refiller.HasSandbox?
    case RefillCounts => s.refiller.HasEntry?
    case RefillEnds => s.refiller.Ready? && s.refiller.available >= s.config.target
    case RefillFails => s.refiller.Ready? || s.refiller.HasSandbox?
    case AuthorizeDelete(d, session, id) => d !in s.deleters && Authorized(s.sandboxes, session, id)
    case Touch(session, id, now) => Authorized(s.sandboxes, session, id)
    case ListIdle(d, before) => d !in s.deleters
    case DeleteSandbox(d, id) => d in s.deleters && id in s.deleters[d]
  }

  function SetCreator(s: State, c: string, creator: Creator): State {
    s.(creators := s.creators[c := creator])
  }

  /** UpdateSandboxAssignment: an error when the row has gone. */
  function AssignTo(s: State, c: string, id: string, session: string): State {
    if id in s.sandboxes then
      SetCreator(s, c, Assigned(id, session)).(sandboxes := s.sandboxes[id := s.sandboxes[id].(owner := session)])
    else SetCreator(s, c, Dropped(id, session))
  }

  function Apply(s: State, step: Step): State
    requires Enabled(s, step)
  {
    match step
    case Acquire(c, id, labels) => SetCreator(s, c, Holding(id, SessionID(labels))).(pool := s.pool - {id})
    case AcquireNone(c, labels) => SetCreator(s, c, Missing(SessionID(labels)))
    case SkipPool(c, image, memory, labels) => SetCreator(s, c, Direct(SessionID(labels)))
    case BackendGetFails(c) => SetCreator(s, c, Dropped(s.creators[c].id, s.creators[c].session))
    case Assign(c) => AssignTo(s, c, s.creators[c].id, s.creators[c].session)
    case StatusFails(c) => SetCreator(s, c, Dropped(s.creators[c].id, s.creators[c].session))
    case CountHit(c) => SetCreator(s, c, Served(s.creators[c].id, s.creators[c].session)).(hits := s.hits + 1)
    case CountMiss(c) => SetCreator(s, c, Direct(s.creators[c].session)).(misses := s.misses + 1)
    case CreateDirectly(c, id, created) =>
      SetCreator(s, c, Made).(sandboxes := s.sandboxes[id := Row(s.creators[c].session, created)], used := s.used + {id})
    case RefillStarts => s.(refiller := Ready(|Matching(s.config, s.pool)|))
    case RefillCreates(id, created) =>
      s.(refiller := HasSandbox(s.refiller.available, id),
         sandboxes := s.sandboxes[id := Row("", created)], used := s.used + {id})
    case RefillInserts(createdAt) =>
      s.(refiller := HasEntry(s.refiller.available),
         pool := s.pool[s.refiller.id := Entry(s.config.image, s.config.memory, createdAt)])
    case RefillCounts => s.(refiller := Ready(s.refiller.available + 1), refillTotal := s.refillTotal + 1)
    case RefillEnds => s.(refiller := Idle)
    case RefillFails => s.(refiller := Idle)
    case AuthorizeDelete(d, session, id) => s.(deleters := s.deleters[d := {id}])
    case Touch(session, id, now) => s.(sandboxes := s.sandboxes[id := s.sandboxes[id].(lastAccess := now)])
    case ListIdle(d, before) => s.(deleters := s.deleters[d := IdleBefore(s.sandboxes, before)])
    case DeleteSandbox(d, id) =>
      // ON DELETE CASCADE takes the pool entry along.
      s.(deleters := s.deleters[d := s.deleters[d] - {id}], sandboxes := s.sandboxes - {id}, pool := s.pool - {id})
  }

  // What every step keeps

  /** No owner yet. */
  predicate Unowned(s: State, id: string) {
    id in s.sandboxes && s.sandboxes[id].owner == "" && id in s.used
  }

  /** Out of reach of the refiller, the pool and future creations. */
  predicate Handed(s: State, id: string) {
    id in s.used && id !in s.pool && !(s.refiller.HasSandbox? && s.refiller.id == id)
  }

  predicate PoolInv(s: State, id: string) {
    (id in s.pool ==> Unowned(s, id)) && (id in s.sandboxes ==> id in s.used)
  }

  predicate CreatorInv(s: State, c: string) {
    c in s.creators && s.creators[c].Took() ==>
      Handed(s, s.creators[c].id) && (s.creators[c].Holding? ==> Unowned(s, s.creators[c].id))
  }

  predicate DeleterInv(s: State, d: string, id: string) {
    d in s.deleters && id in s.deleters[d] ==>
      id in s.used && (id in s.sandboxes ==> s.sandboxes[id].owner != "")
  }

  predicate RefillerInv(s: State) {
    s.refiller.HasSandbox? ==> Unowned(s, s.refiller.id) && s.refiller.id !in s.pool
  }

  predicate HandedOnce(s: State) {
    forall c, e :: c in s.creators && e in s.creators && s.creators[c].Took() && s.creators[e].Took() ==>
                     s.creators[c].id == s.creators[e].id ==> c == e
  }

  ghost predicate OwnershipInv(s: State) {
    && (forall id :: PoolInv(s, id))
    && (forall c :: CreatorInv(s, c))
    && (forall d, id :: DeleterInv(s, d, id))
    && RefillerInv(s) && HandedOnce(s)
  }

  lemma PoolStep(s: State, step: Step, id: string)
    requires Enabled(s, step) && PoolInv(s, id) && RefillerInv(s)
    requires step.Assign? ==> CreatorInv(s, step.c)
    requires step.DeleteSandbox? ==> DeleterInv(s, step.d, step.id)
    ensures PoolInv(Apply(s, step), id)
  {
  }

  lemma CreatorStep(s: State, step: Step, c: string)
    requires Enabled(s, step) && CreatorInv(s, c)
    requires step.Acquire? ==> PoolInv(s, step.id) && (s.refiller.HasSandbox? ==> s.refiller.id !in s.pool)
    requires step.Assign? ==> CreatorInv(s, step.c) && HandedOnce(s)
    requires step.DeleteSandbox? ==> DeleterInv(s, step.d, step.id)
    ensures CreatorInv(Apply(s, step), c)
  {
  }

  lemma DeleterStep(s: State, step: Step, d: string, id: string)
    requires Enabled(s, step) && DeleterInv(s, d, id) && PoolInv(s, id)
    requires step.Assign? ==> CreatorInv(s, step.c)
    ensures DeleterInv(Apply(s, step), d, id)
  {
  }

  lemma RefillerStep(s: State, step: Step)
    requires Enabled(s, step) && RefillerInv(s)
    requires step.Assign? ==> CreatorInv(s, step.c)
    requires step.RefillCreates? ==> PoolInv(s, step.id)
    requires step.DeleteSandbox? ==> DeleterInv(s, step.d, step.id)
    ensures RefillerInv(Apply(s, step))
  {
  }

  lemma HandedOnceStep(s: State, step: Step)
    requires Enabled(s, step) && HandedOnce(s)
    requires step.Acquire? ==> forall c :: CreatorInv(s, c)
    ensures HandedOnce(Apply(s, step))
  {
    var s' := Apply(s, step);
    forall c, e | c in s'.creators && e in s'.creators && s'.creators[c].Took() && s'.creators[e].Took()
                  && s'.creators[c].id == s'.creators[e].id
      ensures c == e
    {
      if step.Acquire? {
        assert CreatorInv(s, c) && CreatorInv(s, e);
      }
    }
  }

  lemma OwnershipStep(s: State, step: Step)
    requires OwnershipInv(s) && Enabled(s, step)
    ensures OwnershipInv(Apply(s, step))
  {
    var s' := Apply(s, step);
    assert step.Assign? ==> CreatorInv(s, step.c);
    assert step.DeleteSandbox? ==> DeleterInv(s, step.d, step.id);
    assert step.Acquire? || step.RefillCreates? ==> PoolInv(s, step.id);
    forall id ensures PoolInv(s', id) {
      assert PoolInv(s, id);
      PoolStep(s, step, id);
    }
    forall c ensures CreatorInv(s', c) {
      assert CreatorInv(s, c);
      CreatorStep(s, step, c);
    }
    forall d, id ensures DeleterInv(s', d, id) {
      assert DeleterInv(s, d, id) && PoolInv(s, id);
      DeleterStep(s, step, d, id);
    }
    RefillerStep(s, step);
    HandedOnceStep(s, step);
  }

  // How many there are

  function Takers(creators: map<string, Creator>): set<string> {
    set c | c in creators && creators[c].Took()
  }

  function ServedOnes(creators: map<string, Creator>): set<string> {
    set c | c in creators && creators[c].Served?
  }

  /** An entry that the refiller has inserted and not yet counted. */
  function Uncounted(s: State): nat {
    if s.refiller.HasEntry? then 1 else 0
  }

  /** The local count is never below the number of entries, so the refiller inserts only below the target. */
  predicate BoundInv(s: State, limit: int) {
    && s.config.target <= limit && |Matching(s.config, s.pool)| <= limit
    && (!s.refiller.Idle? ==> |Matching(s.config, s.pool)| <= s.refiller.available + Uncounted(s))
    && (s.refiller.HasSandbox? || s.refiller.HasEntry? ==> s.refiller.available < s.config.target)
  }

  /** From `start` entries on: every counted refill is in the pool or was taken, and every hit was a taking. */
  predicate CountInv(s: State, start: nat) {
    && start + s.refillTotal + Uncounted(s) == |s.pool| + |Takers(s.creators)|
    && s.hits == |ServedOnes(s.creators)|
  }

  lemma RemoveEntry(config: Config, pool: map<string, Entry>, id: string)
    requires id in pool
    ensures |pool - {id}| == |pool| - 1
    ensures |Matching(config, pool - {id})| == |Matching(config, pool)| - (if config.Matches(pool[id]) then 1 else 0)
  {
    assert (pool - {id}).Keys == pool.Keys - {id};
    assert |pool - {id}| == |(pool - {id}).Keys| && |pool| == |pool.Keys|;
    if config.Matches(pool[id]) {
      assert Matching(config, pool - {id}) == Matching(config, pool) - {id};
    } else {
      assert Matching(config, pool - {id}) == Matching(config, pool);
    }
  }

  lemma AddEntry(config: Config, pool: map<string, Entry>, id: string, e: Entry)
    requires id !in pool && config.Matches(e)
    ensures |pool[id := e]| == |pool| + 1
    ensures |Matching(config, pool[id := e])| == |Matching(config, pool)| + 1
  {
    assert pool[id := e].Keys == pool.Keys + {id};
    assert |pool[id := e]| == |pool[id := e].Keys| && |pool| == |pool.Keys|;
    assert Matching(config, pool[id := e]) == Matching(config, pool) + {id};
  }

  lemma TakersMove(creators: map<string, Creator>, c: string, creator: Creator)
    requires c in creators && creators[c].Took() ==> creator.Took()
    ensures |Takers(creators[c := creator])|
            == |Takers(creators)| + (if creator.Took() && !(c in creators && creators[c].Took()) then 1 else 0)
  {
    if creator.Took() {
      assert Takers(creators[c := creator]) == Takers(creators) + {c};
    } else {
      assert Takers(creators[c := creator]) == Takers(creators);
    }
  }

  lemma ServedMove(creators: map<string, Creator>, c: string, creator: Creator)
    requires c in creators ==> !creators[c].Served?
    ensures |ServedOnes(creators[c := creator])| == |ServedOnes(creators)| + (if creator.Served? then 1 else 0)
  {
    if creator.Served? {
      assert ServedOnes(creators[c := creator]) == ServedOnes(creators) + {c};
    } else {
      assert ServedOnes(creators[c := creator]) == ServedOnes(creators);
    }
  }

  lemma DeletesNoEntry(s: State, step: Step)
    requires OwnershipInv(s) && Enabled(s, step) && step.DeleteSandbox?
    ensures Apply(s, step).pool == s.pool
  {
    assert DeleterInv(s, step.d, step.id) && PoolInv(s, step.id);
  }

  lemma BoundStep(s: State, step: Step, limit: int)
    requires BoundInv(s, limit) && Enabled(s, step) && RefillerInv(s)
    requires step.DeleteSandbox? ==> Apply(s, step).pool == s.pool
    ensures BoundInv(Apply(s, step), limit)
  {
    if step.Acquire? {
      RemoveEntry(s.config, s.pool, step.id);
    } else if step.RefillInserts? {
      AddEntry(s.config, s.pool, s.refiller.id, Entry(s.config.image, s.config.memory, step.createdAt));
    }
  }

  lemma CountAcquire(s: State, step: Step, start: nat)
    requires CountInv(s, start) && Enabled(s, step) && step.Acquire?
    ensures CountInv(Apply(s, step), start)
  {
    TakersMove(s.creators, step.c, Holding(step.id, SessionID(step.labels)));
    ServedMove(s.creators, step.c, Holding(step.id, SessionID(step.labels)));
    RemoveEntry(s.config, s.pool, step.id);
  }

  predicate CreatorStepOnly(step: Step) {
    || step.AcquireNone? || step.SkipPool? || step.BackendGetFails? || step.Assign? || step.StatusFails?
    || step.CountHit? || step.CountMiss? || step.CreateDirectly?
  }

  lemma CountCreator(s: State, s': State, start: nat, c: string)
    requires CountInv(s, start) && c in s'.creators && s'.creators == s.creators[c := s'.creators[c]]
    requires s'.pool == s.pool && s'.refiller == s.refiller && s'.refillTotal == s.refillTotal
    requires s'.creators[c].Took() <==> c in s.creators && s.creators[c].Took()
    requires c in s.creators ==> !s.creators[c].Served?
    requires s'.hits == s.hits + if s'.creators[c].Served? then 1 else 0
    ensures CountInv(s', start)
  {
    TakersMove(s.creators, c, s'.creators[c]);
    ServedMove(s.creators, c, s'.creators[c]);
  }

  lemma CountInsert(s: State, step: Step, start: nat)
    requires CountInv(s, start) && Enabled(s, step) && RefillerInv(s) && step.RefillInserts?
    ensures CountInv(Apply(s, step), start)
  {
  }

  lemma CountStep(s: State, step: Step, start: nat)
    requires CountInv(s, start) && Enabled(s, step) && RefillerInv(s)
    requires step.DeleteSandbox? ==> Apply(s, step).pool == s.pool
    ensures CountInv(Apply(s, step), start)
  {
    if step.Acquire? {
      CountAcquire(s, step, start);
    } else if step.RefillInserts? {
      CountInsert(s, step, start);
    } else if CreatorStepOnly(step) {
      CountCreator(s, Apply(s, step), start, step.c);
    }
  }

  // Whole runs

  /** A service that has just started over a database whose pool is in order. */
  ghost predicate Initial(s: State) {
    && s.sandboxes.Keys <= s.used
    && (forall id :: id in s.pool ==> id in s.sandboxes && s.sandboxes[id].owner == "")
    && s.creators == map[] && s.refiller == Idle && s.deleters == map[]
    && s.hits == s.misses == s.refillTotal == 0
  }

  ghost predicate Run(ss: seq<State>, steps: seq<Step>) {
    && |ss| == |steps| + 1 && Initial(ss[0])
    && forall i :: 0 <= i < |steps| ==> Enabled(ss[i], steps[i]) && ss[i + 1] == Apply(ss[i], steps[i])
  }

  function Max(a: int, b: int): int { if a < b then b else a }

  function Limit(s: State): int {
    Max(s.config.target, |Matching(s.config, s.pool)|)
  }

  ghost predicate Inv(s: State, limit: int, start: nat) {
    OwnershipInv(s) && BoundInv(s, limit) && CountInv(s, start)
  }

  lemma StartHolds(s: State)
    requires Initial(s)
    ensures Inv(s, Limit(s), |s.pool|)
  {
  }

  lemma StepKeeps(s: State, step: Step, limit: int, start: nat)
    requires Inv(s, limit, start) && Enabled(s, step)
    ensures Inv(Apply(s, step), limit, start)
  {
    OwnershipStep(s, step);
    if step.DeleteSandbox? {
      DeletesNoEntry(s, step);
    }
    BoundStep(s, step, limit);
    CountStep(s, step, start);
  }

  lemma {:induction false} RunKeeps(ss: seq<State>, steps: seq<Step>, i: nat)
    requires Run(ss, steps) && i < |ss|
    ensures Inv(ss[i], Limit(ss[0]), |ss[0].pool|) && ss[i].config == ss[0].config
  {
    if i == 0 {
      StartHolds(ss[0]);
    } else {
      RunKeeps(ss, steps, i - 1);
      StepKeeps(ss[i - 1], steps[i - 1], Limit(ss[0]), |ss[0].pool|);
    }
  }

  /** A pooled sandbox exists and nobody owns it, is authorised for it, is about to delete it or has been handed it. */
  lemma PoolIsOutOfReach(ss: seq<State>, steps: seq<Step>, i: nat, id: string)
    requires Run(ss, steps) && i < |ss| && id in ss[i].pool
    ensures id in ss[i].sandboxes && ss[i].sandboxes[id].owner == ""
    ensures forall session :: !Authorized(ss[i].sandboxes, session, id)
    ensures forall before :: id !in IdleBefore(ss[i].sandboxes, before)
    ensures forall d :: d in ss[i].deleters ==> id !in ss[i].deleters[d]
    ensures forall c :: c in ss[i].creators && ss[i].creators[c].Took() ==> ss[i].creators[c].id != id
  {
    var s := ss[i];
    RunKeeps(ss, steps, i);
    assert PoolInv(s, id) && Trim("") == "";
    forall d | d in s.deleters ensures id !in s.deleters[d] {
      assert DeleterInv(s, d, id);
    }
    forall c | c in s.creators && s.creators[c].Took() ensures s.creators[c].id != id {
      assert CreatorInv(s, c);
    }
  }

  /** An acquired sandbox waits for its creator: it cannot be deleted before its assignment, which therefore finds it. */
  lemma AcquiredIsKept(ss: seq<State>, steps: seq<Step>, i: nat, c: string)
    requires Run(ss, steps) && i < |ss| && c in ss[i].creators && ss[i].creators[c].Holding?
    ensures Apply(ss[i], Assign(c)).creators[c].Assigned?
    ensures forall d :: d in ss[i].deleters ==> ss[i].creators[c].id !in ss[i].deleters[d]
  {
    RunKeeps(ss, steps, i);
    assert CreatorInv(ss[i], c);
    forall d | d in ss[i].deleters ensures ss[i].creators[c].id !in ss[i].deleters[d] {
      assert DeleterInv(ss[i], d, ss[i].creators[c].id);
    }
  }

  /** Each pooled sandbox is handed to one creator at most. */
  lemma HandedToOne(ss: seq<State>, steps: seq<Step>, i: nat, c: string, e: string)
    requires Run(ss, steps) && i < |ss| && c in ss[i].creators && e in ss[i].creators && c != e
    requires ss[i].creators[c].Took() && ss[i].creators[e].Took()
    ensures ss[i].creators[c].id != ss[i].creators[e].id
  {
    RunKeeps(ss, steps, i);
  }

  predicate OwnedBy(s: State, id: string, owner: string) {
    id in s.used && (id in s.sandboxes ==> s.sandboxes[id].owner == owner)
  }

  lemma OwnerStep(s: State, step: Step, id: string, owner: string)
    requires Enabled(s, step) && OwnedBy(s, id, owner) && owner != ""
    requires step.Assign? ==> CreatorInv(s, step.c)
    ensures OwnedBy(Apply(s, step), id, owner)
  {
  }

  lemma CreatorsInOrder(ss: seq<State>, steps: seq<Step>, i: nat, c: string)
    requires Run(ss, steps) && i < |ss|
    ensures CreatorInv(ss[i], c)
  {
    RunKeeps(ss, steps, i);
  }

  lemma {:induction false} OwnerStays(ss: seq<State>, steps: seq<Step>, i: nat, j: nat, id: string, owner: string)
    requires Run(ss, steps) && i <= j < |ss| && OwnedBy(ss[i], id, owner) && owner != ""
    ensures OwnedBy(ss[j], id, owner)
    decreases j
  {
    if i < j {
      OwnerStays(ss, steps, i, j - 1, id, owner);
      if steps[j - 1].Assign? {
        CreatorsInOrder(ss, steps, j - 1, steps[j - 1].c);
      }
      OwnerStep(ss[j - 1], steps[j - 1], id, owner);
    }
  }

  /** An owner is written once: an owned sandbox keeps its session as long as it exists, and is never pooled again. */
  lemma OwnerIsWrittenOnce(ss: seq<State>, steps: seq<Step>, i: nat, j: nat, id: string)
    requires Run(ss, steps) && i <= j < |ss| && id in ss[i].sandboxes && ss[i].sandboxes[id].owner != ""
    ensures id in ss[j].sandboxes ==> ss[j].sandboxes[id].owner == ss[i].sandboxes[id].owner
    ensures id !in ss[j].pool
  {
    RunKeeps(ss, steps, i);
    assert PoolInv(ss[i], id);
    OwnerStays(ss, steps, i, j, id, ss[i].sandboxes[id].owner);
    RunKeeps(ss, steps, j);
    assert PoolInv(ss[j], id);
  }

  /** The assignment writes the creator's session into the row of its sandbox, and nothing else, if there is the row. */
  lemma AssignWrites(s: State, c: string)
    requires Enabled(s, Assign(c))
    ensures var s', id, session := Apply(s, Assign(c)), s.creators[c].id, s.creators[c].session;
            && s' == s.(creators := s'.creators, sandboxes := s'.sandboxes)
            && (id in s.sandboxes ==>
                  && s'.sandboxes == s.sandboxes[id := Row(session, s.sandboxes[id].lastAccess)]
                  && s'.creators == s.creators[c := Assigned(id, session)])
            && (id !in s.sandboxes ==> s'.sandboxes == s.sandboxes && s'.creators == s.creators[c := Dropped(id, session)])
  {
  }

  /** The creation that a step begins, with the labels of its request. */
  predicate Begins(step: Step, c: string, labels: map<string, string>) {
    match step
    case Acquire(d, _, l) => d == c && l == labels
    case AcquireNone(d, l) => d == c && l == labels
    case SkipPool(d, _, _, l) => d == c && l == labels
    case _ => false
  }

  /** A creator of a session: what it has taken is going to be, or is, that session's. */
  predicate WorksFor(s: State, c: string, session: string) {
    c in s.creators &&
    match s.creators[c]
    case Holding(id, owner) => owner == session
    case Assigned(id, owner) => owner == session && OwnedBy(s, id, session)
    case Served(id, owner) => owner == session && OwnedBy(s, id, session)
    case Dropped(id, owner) => owner == session
    case Missing(owner) => owner == session
    case Direct(owner) => owner == session
    case Made => true
  }

  lemma WorksForStep(s: State, step: Step, c: string, session: string)
    requires Enabled(s, step) && WorksFor(s, c, session) && session != "" && CreatorInv(s, c)
    requires step.Assign? ==> CreatorInv(s, step.c)
    ensures WorksFor(Apply(s, step), c, session)
  {
    if s.creators[c].Assigned? || s.creators[c].Served? {
      OwnerStep(s, step, s.creators[c].id, session);
    }
  }

  lemma {:induction false} WorksForSession(
      ss: seq<State>, steps: seq<Step>, m: nat, i: nat, c: string, labels: map<string, string>, session: string)
    requires Run(ss, steps) && m < i < |ss| && Begins(steps[m], c, labels) && session == SessionID(labels) != ""
    ensures WorksFor(ss[i], c, session)
    decreases i
  {
    if i > m + 1 {
      WorksForSession(ss, steps, m, i - 1, c, labels, session);
      CreatorsInOrder(ss, steps, i - 1, c);
      if steps[i - 1].Assign? {
        CreatorsInOrder(ss, steps, i - 1, steps[i - 1].c);
      }
      WorksForStep(ss[i - 1], steps[i - 1], c, session);
    }
  }

  /** Whoever asks for a sandbox and is served one from the pool owns it for as long as it exists. */
  lemma ServedOwns(
      ss: seq<State>, steps: seq<Step>, m: nat, i: nat, c: string, labels: map<string, string>, session: string)
    requires Run(ss, steps) && m < i < |ss| && Begins(steps[m], c, labels) && session != ""
    requires if "session_id" in labels && Trim(labels["session_id"]) != "" then session == Trim(labels["session_id"])
             else "sessionId" in labels && session == Trim(labels["sessionId"])
    requires c in ss[i].creators && ss[i].creators[c].Served?
    ensures var id := ss[i].creators[c].id;
            && (id in ss[i].sandboxes ==> ss[i].sandboxes[id].owner == session)
            && id !in ss[i].pool
  {
    SessionNamed(labels);
    WorksForSession(ss, steps, m, i, c, labels, session);
    CreatorsInOrder(ss, steps, i, c);
  }

  /** So does whoever gets a new one, because there was none in the pool or the pool did not fit. */
  lemma CreatedOwns(
      ss: seq<State>, steps: seq<Step>, m: nat, n: nat, i: nat, c: string, labels: map<string, string>, session: string)
    requires Run(ss, steps) && m < n < i < |ss| && Begins(steps[m], c, labels) && session != ""
    requires if "session_id" in labels && Trim(labels["session_id"]) != "" then session == Trim(labels["session_id"])
             else "sessionId" in labels && session == Trim(labels["sessionId"])
    requires steps[n].CreateDirectly? && steps[n].c == c
    ensures var id := steps[n].id;
            && id in ss[n + 1].sandboxes && id !in ss[n].sandboxes
            && (id in ss[i].sandboxes ==> ss[i].sandboxes[id].owner == session)
            && id !in ss[i].pool
  {
    SessionNamed(labels);
    WorksForSession(ss, steps, m, n, c, labels, session);
    RunKeeps(ss, steps, n);
    assert PoolInv(ss[n], steps[n].id);
    OwnerIsWrittenOnce(ss, steps, n + 1, i, steps[n].id);
  }

  /** However acquisitions interleave with a refill, the pool stays within the target if it started within it. */
  lemma PoolStaysWithinTarget(ss: seq<State>, steps: seq<Step>, i: nat)
    requires Run(ss, steps) && i < |ss|
    ensures |Matching(ss[i].config, ss[i].pool)| <= Limit(ss[0])
    ensures |Matching(ss[0].config, ss[0].pool)| <= ss[0].config.target
            ==> |Matching(ss[i].config, ss[i].pool)| <= ss[i].config.target
  {
    RunKeeps(ss, steps, i);
  }

  /** Creators that took a sandbox and have not been counted as a hit: under way, or failed. */
  function InFlightOrFailed(creators: map<string, Creator>): set<string> {
    set c | c in creators && creators[c].Took() && !creators[c].Served?
  }

  /** Every refill is accounted for. */
  lemma RefillsAreConserved(ss: seq<State>, steps: seq<Step>, i: nat)
    requires Run(ss, steps) && i < |ss|
    ensures |ss[0].pool| + ss[i].refillTotal + Uncounted(ss[i])
            == |ss[i].pool| + ss[i].hits + |InFlightOrFailed(ss[i].creators)|
  {
    RunKeeps(ss, steps, i);
    var cs := ss[i].creators;
    assert Takers(cs) == ServedOnes(cs) + InFlightOrFailed(cs);
  }

  // Each participant left to itself

  /** A creation from the pool: it takes an oldest entry of the configured image and memory, owns the sandbox, and is a hit. */
  lemma HitAlone(s: State, c: string, id: string, labels: map<string, string>)
    requires Enabled(s, Acquire(c, id, labels)) && id in s.sandboxes
    ensures id in s.pool && s.pool[id].image == s.config.image && s.pool[id].memory == s.config.memory
    ensures forall other :: other in s.pool && s.pool[other].image == s.config.image && s.pool[other].memory == s.config.memory
                            ==> !StrLess(s.pool[other].createdAt, s.pool[id].createdAt)
    ensures var s1 := Apply(s, Acquire(c, id, labels));
            Enabled(s1, Assign(c)) &&
            var s2 := Apply(s1, Assign(c));
            Enabled(s2, CountHit(c)) &&
            var s3 := Apply(s2, CountHit(c));
            && s3 == s.(sandboxes := s3.sandboxes, pool := s.pool - {id}, creators := s3.creators, hits := s.hits + 1)
            && s3.sandboxes == s.sandboxes[id := Row(SessionID(labels), s.sandboxes[id].lastAccess)]
            && s3.creators == s.creators[c := Served(id, SessionID(labels))]
  {
  }

  /** A creation without a pooled sandbox that fits: a miss if the pool was asked, and a new row either way. */
  lemma MissAlone(s: State, c: string, id: string, created: string, labels: map<string, string>)
    requires Enabled(s, AcquireNone(c, labels)) && id !in s.used
    ensures forall e :: e in s.pool ==> s.pool[e].image != s.config.image || s.pool[e].memory != s.config.memory
    ensures var s1 := Apply(s, AcquireNone(c, labels));
            Enabled(s1, CountMiss(c)) &&
            var s2 := Apply(s1, CountMiss(c));
            Enabled(s2, CreateDirectly(c, id, created)) &&
            var s3 := Apply(s2, CreateDirectly(c, id, created));
            s3 == s.(sandboxes := s.sandboxes[id := Row(SessionID(labels), created)], used := s.used + {id},
                     creators := s.creators[c := Made], misses := s.misses + 1)
  {
    forall e | e in s.pool ensures s.pool[e].image != s.config.image || s.pool[e].memory != s.config.memory {
      assert e !in Matching(s.config, s.pool);
    }
  }

  lemma SkipAlone(
      s: State, c: string, image: string, memory: int, id: string, created: string, labels: map<string, string>)
    requires Enabled(s, SkipPool(c, image, memory, labels)) && id !in s.used
    ensures var s1 := Apply(s, SkipPool(c, image, memory, labels));
            Enabled(s1, CreateDirectly(c, id, created)) &&
            var s2 := Apply(s1, CreateDirectly(c, id, created));
            s2 == s.(sandboxes := s.sandboxes[id := Row(SessionID(labels), created)], used := s.used + {id},
                     creators := s.creators[c := Made])
  {
  }

  /** One turn of the refill loop: a sandbox without owner, its entry, and the count. */
  lemma RefillAlone(s: State, id: string, created: string, pooledAt: string)
    requires Enabled(s, RefillCreates(id, created))
    ensures var s1 := Apply(s, RefillCreates(id, created));
            Enabled(s1, RefillInserts(pooledAt)) &&
            var s2 := Apply(s1, RefillInserts(pooledAt));
            Enabled(s2, RefillCounts) &&
            var s3 := Apply(s2, RefillCounts);
            s3 == s.(sandboxes := s.sandboxes[id := Row("", created)],
                     pool := s.pool[id := Entry(s.config.image, s.config.memory, pooledAt)],
                     used := s.used + {id}, refiller := Ready(s.refiller.available + 1), refillTotal := s.refillTotal + 1)
  {
  }

  /** A refill starts from the number of entries that fit, and when it ends, well or badly, another may start. */
  lemma RefillStartsAndEnds(s: State)
    ensures Enabled(s, RefillStarts) ==>
              var entries := set id | id in s.pool && s.pool[id].image == s.config.image && s.pool[id].memory == s.config.memory;
              Apply(s, RefillStarts) == s.(refiller := Ready(|entries|))
    ensures Enabled(s, RefillEnds) ==>
              s.refiller.available >= s.config.target && Apply(s, RefillEnds) == s.(refiller := Idle)
    ensures Enabled(s, RefillFails) ==> Apply(s, RefillFails) == s.(refiller := Idle)
    ensures s.refiller.Idle? && s.config.target > 0 ==> Enabled(s, RefillStarts)
  {
    assert Matching(s.config, s.pool)
        == set id | id in s.pool && s.pool[id].image == s.config.image && s.pool[id].memory == s.config.memory;
  }

  /** A deletion: the session that owns the sandbox, white space aside, takes away its row and nothing else. */
  lemma DeleteAlone(s: State, d: string, session: string, id: string)
    requires OwnershipInv(s) && Enabled(s, AuthorizeDelete(d, session, id))
    ensures Trim(session) != "" && id in s.sandboxes && Trim(s.sandboxes[id].owner) == Trim(session)
    ensures var s1 := Apply(s, AuthorizeDelete(d, session, id));
            Enabled(s1, DeleteSandbox(d, id)) &&
            var s2 := Apply(s1, DeleteSandbox(d, id));
            s2 == s.(sandboxes := s.sandboxes - {id}, deleters := s.deleters[d := {}])
  {
    assert PoolInv(s, id) && Trim("") == "";
    assert s.pool - {id} == s.pool && {id} - {id} == {};
    assert s.deleters[d := {id}][d := {}] == s.deleters[d := {}];
  }

  /** Idle clean-up may delete exactly the owned sandboxes last used before the cutoff, each once. */
  lemma IdleAlone(s: State, d: string, before: string, id: string)
    requires OwnershipInv(s) && Enabled(s, ListIdle(d, before))
    ensures var s1 := Apply(s, ListIdle(d, before));
            && s1 == s.(deleters := s1.deleters) && s1.deleters == s.deleters[d := s1.deleters[d]]
            && (Enabled(s1, DeleteSandbox(d, id))
                <==> && id in s.sandboxes && s.sandboxes[id].owner != "" && s.sandboxes[id].lastAccess != ""
                     && StrLess(s.sandboxes[id].lastAccess, before))
            && (Enabled(s1, DeleteSandbox(d, id)) ==>
                  var s2 := Apply(s1, DeleteSandbox(d, id));
                  && s2 == s1.(sandboxes := s.sandboxes - {id}, deleters := s1.deleters[d := s1.deleters[d] - {id}])
                  && !Enabled(s2, DeleteSandbox(d, id)))
  {
    assert PoolInv(s, id);
    assert id !in s.pool ==> s.pool - {id} == s.pool;
  }

  /** A use of a sandbox is written down for its owner only. */
  lemma TouchAlone(s: State, session: string, id: string, now: string)
    ensures Enabled(s, Touch(session, id, now))
            <==> Trim(session) != "" && id in s.sandboxes && Trim(s.sandboxes[id].owner) == Trim(session)
    ensures Enabled(s, Touch(session, id, now)) ==>
              Apply(s, Touch(session, id, now))
              == s.(sandboxes := s.sandboxes[id := Row(s.sandboxes[id].owner, now)])
  {
  }

  /** A creation that fails has cost the pool its entry, and is not counted. */
  lemma FailsAlone(s: State, c: string)
    ensures Enabled(s, BackendGetFails(c)) ==>
              Apply(s, BackendGetFails(c)) == s.(creators := s.creators[c := Dropped(s.creators[c].id, s.creators[c].session)])
    ensures Enabled(s, StatusFails(c)) ==>
              Apply(s, StatusFails(c)) == s.(creators := s.creators[c := Dropped(s.creators[c].id, s.creators[c].session)])
  {
  }
}
