/** The warm pool operations as code that updates the tables and counters in place. */
module WarmPoolService {
  import opened Order
  import opened Text
  import opened Wrappers
  import opened WarmPool

  lemma OldestExists(config: Config, pool: map<string, Entry>)
    requires Matching(config, pool) != {}
    ensures exists id :: id in pool && Oldest(config, pool, id)
  {
    StrLessStrictTotal();
    var times := set id | id in Matching(config, pool) :: pool[id].createdAt;
    var any :| any in Matching(config, pool);
    assert pool[any].createdAt in times;
    var least := LeastExists(StrLess, times);
    var id :| id in Matching(config, pool) && pool[id].createdAt == least;
    forall other | other in pool && config.Matches(pool[other]) ensures !StrLess(pool[other].createdAt, least) {
      assert other in Matching(config, pool) && pool[other].createdAt in times;
    }
    assert Oldest(config, pool, id);
  }

  lemma NoneFits(config: Config, pool: map<string, Entry>)
    requires Matching(config, pool) == {}
    ensures forall id :: id in pool ==> pool[id].image != config.image || pool[id].memory != config.memory
  {
    forall id | id in pool ensures !config.Matches(pool[id]) {
      assert id !in Matching(config, pool);
    }
  }

  /** What one turn of the refill loop meets. */
  datatype Supply =
    | BackendFails
    | SandboxRowFails
    | EntryFails(id: string, created: string)
    | Made(id: string, created: string, pooledAt: string)
  {
    predicate HasId() { EntryFails? || Made? }
  }

  predicate FreshIds(supply: seq<Supply>, used: set<string>) {
    && (forall i :: 0 <= i < |supply| && supply[i].HasId() ==> supply[i].id !in used)
    && (forall i, j :: 0 <= i < j < |supply| && supply[i].HasId() && supply[j].HasId() ==> supply[i].id != supply[j].id)
  }

  /** What the first `k` turns of a refill have added to the tables, if all went well. */
  predicate Added(config: Config, supply: seq<Supply>, k: nat, rows: map<string, Row>, pool: map<string, Entry>) {
    k <= |supply| && forall i :: 0 <= i < k ==>
      && supply[i].Made?
      && supply[i].id in rows && rows[supply[i].id] == Row("", supply[i].created)
      && supply[i].id in pool && pool[supply[i].id] == Entry(config.image, config.memory, supply[i].pooledAt)
  }

  predicate Extends<V(==)>(m0: map<string, V>, m: map<string, V>, k: nat) {
    (forall id :: id in m0 ==> id in m && m[id] == m0[id]) && |m| == |m0| + k
  }

  ghost predicate Refilled(
      config: Config, supply: seq<Supply>, k: nat,
      rows0: map<string, Row>, pool0: map<string, Entry>, rows: map<string, Row>, pool: map<string, Entry>)
  {
    && Added(config, supply, k, rows, pool) && Extends(rows0, rows, k) && Extends(pool0, pool, k)
    && |Matching(config, pool)| == |Matching(config, pool0)| + k
  }

  lemma ExtendsMore<V>(m0: map<string, V>, m: map<string, V>, k: nat, id: string, v: V)
    requires Extends(m0, m, k) && id !in m
    ensures Extends(m0, m[id := v], k + 1)
  {
  }

  lemma AddedMore(config: Config, supply: seq<Supply>, k: nat, rows: map<string, Row>, pool: map<string, Entry>)
    requires k < |supply| && supply[k].Made? && Added(config, supply, k, rows, pool)
    requires forall i :: 0 <= i < k ==> supply[i].id != supply[k].id
    ensures Added(config, supply, k + 1, rows[supply[k].id := Row("", supply[k].created)],
                  pool[supply[k].id := Entry(config.image, config.memory, supply[k].pooledAt)])
  {
  }

  lemma RefilledMore(
      config: Config, supply: seq<Supply>, k: nat,
      rows0: map<string, Row>, pool0: map<string, Entry>, rows: map<string, Row>, pool: map<string, Entry>)
    requires k < |supply| && supply[k].Made? && Refilled(config, supply, k, rows0, pool0, rows, pool)
    requires supply[k].id !in rows && supply[k].id !in pool
    requires forall i :: 0 <= i < k ==> supply[i].HasId() && supply[i].id != supply[k].id
    ensures Refilled(config, supply, k + 1, rows0, pool0, rows[supply[k].id := Row("", supply[k].created)],
                     pool[supply[k].id := Entry(config.image, config.memory, supply[k].pooledAt)])
  {
    var row, entry := Row("", supply[k].created), Entry(config.image, config.memory, supply[k].pooledAt);
    AddEntry(config, pool, supply[k].id, entry);
    AddedMore(config, supply, k, rows, pool);
    ExtendsMore(rows0, rows, k, supply[k].id, row);
    ExtendsMore(pool0, pool, k, supply[k].id, entry);
  }

  function Chosen(ids: set<string>, deletes: string -> bool): set<string> {
    set id | id in ids && deletes(id)
  }

  lemma ChosenMore(rows: map<string, Row>, done: set<string>, deletes: string -> bool, id: string)
    requires id !in done
    ensures deletes(id) ==> |Chosen(done + {id}, deletes)| == |Chosen(done, deletes)| + 1
    ensures deletes(id) ==> rows - Chosen(done + {id}, deletes) == rows - Chosen(done, deletes) - {id}
    ensures !deletes(id) ==> Chosen(done + {id}, deletes) == Chosen(done, deletes)
  {
    if deletes(id) {
      assert Chosen(done + {id}, deletes) == Chosen(done, deletes) + {id};
    }
  }

  /** Of `rows`, `left` are those that had no owner, were used since, or could not be deleted. */
  ghost predicate IdleGone(
      rows: map<string, Row>, before: string, deletes: string -> bool, left: map<string, Row>, deleted: nat)
  {
    && deleted == |rows| - |left|
    && (forall id :: id in left ==> id in rows && left[id] == rows[id])
    && (forall id :: id in rows && id !in left
          <==> && id in rows && rows[id].owner != "" && rows[id].lastAccess != ""
               && StrLess(rows[id].lastAccess, before) && deletes(id))
  }

  lemma ChosenAreGone(rows: map<string, Row>, before: string, deletes: string -> bool)
    ensures var gone := Chosen(IdleBefore(rows, before), deletes); IdleGone(rows, before, deletes, rows - gone, |gone|)
  {
    var gone := Chosen(IdleBefore(rows, before), deletes);
    assert (rows - gone).Keys == rows.Keys - gone && gone <= rows.Keys;
    assert |rows - gone| == |(rows - gone).Keys| && |rows| == |rows.Keys|;
  }

  class Service {
    const config: Config
    var sandboxes: map<string, Row>
    var pool: map<string, Entry>
    var hits: nat
    var misses: nat
    var refillTotal: nat

    constructor (config: Config, sandboxes: map<string, Row>, pool: map<string, Entry>)
      ensures this.config == config && this.sandboxes == sandboxes && this.pool == pool
      ensures hits == misses == refillTotal == 0
    {
      this.config, this.sandboxes, this.pool := config, sandboxes, pool;
      hits, misses, refillTotal := 0, 0, 0;
    }

    method AcquireWarmPoolEntry() returns (r: Option<string>)
      modifies `pool
      ensures r.None? <==> forall id :: id in old(pool) ==> old(pool)[id].image != config.image || old(pool)[id].memory != config.memory
      ensures r.None? ==> pool == old(pool)
      ensures r.Some? ==>
                && r.value in old(pool) && pool == old(pool) - {r.value}
                && old(pool)[r.value].image == config.image && old(pool)[r.value].memory == config.memory
                && forall id :: id in old(pool) && old(pool)[id].image == config.image && old(pool)[id].memory == config.memory
                                ==> !StrLess(old(pool)[id].createdAt, old(pool)[r.value].createdAt)
    {
      if Matching(config, pool) == {} {
        NoneFits(config, pool);
        return None;
      }
      OldestExists(config, pool);
      var id :| id in pool && Oldest(config, pool, id);
      pool := pool - {id};
      return Some(id);
    }

    /** allocateFromWarmPool by itself: `live` and `statusWritten` are the outcomes of the backend and status calls. */
    method Allocate(image: string, memory: int, labels: map<string, string>, live: bool, statusWritten: bool)
      returns (r: Result<Option<string>, ()>, ghost taken: Option<string>)
      modifies this
      ensures refillTotal == old(refillTotal)
      ensures config.target <= 0 || image != config.image || memory != config.memory ==>
                taken == None && r == Ok(None) && pool == old(pool) && hits == old(hits) && misses == old(misses)
      ensures config.target > 0 && image == config.image && memory == config.memory && Matching(config, old(pool)) == {} ==>
                taken == None && r == Ok(None) && pool == old(pool) && hits == old(hits) && misses == old(misses) + 1
      ensures config.target > 0 && image == config.image && memory == config.memory && Matching(config, old(pool)) != {} ==>
                && taken.Some? && Oldest(config, old(pool), taken.value) && pool == old(pool) - {taken.value}
                && misses == old(misses)
                && (r.Ok? <==> live && taken.value in old(sandboxes) && statusWritten)
                && (r.Ok? ==> r == Ok(taken) && hits == old(hits) + 1)
                && (r.Err? ==> hits == old(hits))
      ensures taken.Some? && live && taken.value in old(sandboxes) ==>
                && taken.value in sandboxes
                && sandboxes == old(sandboxes)[taken.value := Row(sandboxes[taken.value].owner, old(sandboxes)[taken.value].lastAccess)]
                && var owner := sandboxes[taken.value].owner;
                   if "session_id" in labels && Trim(labels["session_id"]) != "" then owner == Trim(labels["session_id"])
                   else if "sessionId" in labels && Trim(labels["sessionId"]) != "" then owner == Trim(labels["sessionId"])
                   else owner == ""
      ensures taken.None? || !live || taken.value !in old(sandboxes) ==> sandboxes == old(sandboxes)
    {
      taken := None;
      if config.target <= 0 || image != config.image || memory != config.memory {
        return Ok(None), None;
      }
      var acquired := AcquireWarmPoolEntry();
      taken := acquired;
      if acquired.None? {
        assert Matching(config, pool) == {};
        misses := misses + 1;
        return Ok(None), None;
      }
      var id := acquired.value;
      assert id in Matching(config, old(pool));
      if !live || id !in sandboxes {
        return Err(()), taken;
      }
      SessionNamed(labels);
      sandboxes := sandboxes[id := sandboxes[id].(owner := SessionID(labels))];
      if !statusWritten {
        return Err(()), taken;
      }
      hits := hits + 1;
      return Ok(Some(id)), taken;
    }

    /**
    ensureWarmPool by itself. It ends without an error exactly when it has filled the pool
    up to the target, and it counts every entry that it adds.
    */
    method EnsureWarmPool(supply: seq<Supply>) returns (ok: bool, k: nat)
      requires |supply| >= config.target - |Matching(config, pool)|
      requires FreshIds(supply, sandboxes.Keys + pool.Keys)
      modifies `sandboxes, `pool, `refillTotal
      ensures refillTotal == old(refillTotal) + k
      ensures config.target <= 0 ==> ok && k == 0
      ensures ok ==> Refilled(config, supply, k, old(sandboxes), old(pool), sandboxes, pool)
      ensures ok && config.target > 0 ==> |Matching(config, pool)| == Max(config.target, |Matching(config, old(pool))|)
      ensures !ok ==> k < |supply| && !supply[k].Made? && |Matching(config, old(pool))| + k < config.target
      ensures !ok ==> exists rows :: Refilled(config, supply, k, old(sandboxes), old(pool), rows, pool)
                                     && sandboxes == if supply[k].EntryFails?
                                                     then rows[supply[k].id := Row("", supply[k].created)] else rows
    {
      ok, k := true, 0;
      if config.target <= 0 {
        return;
      }
      var available := |Matching(config, pool)|;
      while available < config.target
        invariant ok && available == |Matching(config, old(pool))| + k && refillTotal == old(refillTotal) + k
        invariant available <= Max(config.target, |Matching(config, old(pool))|)
        invariant Refilled(config, supply, k, old(sandboxes), old(pool), sandboxes, pool)
        invariant forall i :: k <= i < |supply| && supply[i].HasId() ==>
                                supply[i].id !in sandboxes && supply[i].id !in pool
      {
        match supply[k] {
          case BackendFails => ok := false; return;
          case SandboxRowFails => ok := false; return;
          case EntryFails(id, created) =>
            ok := false;
            sandboxes := sandboxes[id := Row("", created)];
            return;
          case Made(id, created, pooledAt) =>
            RefilledMore(config, supply, k, old(sandboxes), old(pool), sandboxes, pool);
            sandboxes := sandboxes[id := Row("", created)];
            pool := pool[id := Entry(config.image, config.memory, pooledAt)];
        }
        refillTotal := refillTotal + 1;
        available := available + 1;
        k := k + 1;
      }
    }

    /** CleanupIdleSandboxes: `deletes` tells for which sandboxes the backend delete goes well. The pool is not touched. */
    method CleanupIdleSandboxes(before: string, deletes: string -> bool) returns (deleted: nat)
      requires forall id :: id in pool ==> id in sandboxes && sandboxes[id].owner == ""
      modifies `sandboxes, `pool
      ensures pool == old(pool)
      ensures IdleGone(old(sandboxes), before, deletes, sandboxes, deleted)
    {
      var left := IdleBefore(sandboxes, before);
      ghost var done: set<string> := {};
      deleted := 0;
      while left != {}
        invariant left !! done && left + done == IdleBefore(old(sandboxes), before)
        invariant pool == old(pool) && sandboxes == old(sandboxes) - Chosen(done, deletes)
        invariant deleted == |Chosen(done, deletes)|
        decreases left
      {
        var id :| id in left;
        ChosenMore(old(sandboxes), done, deletes, id);
        if deletes(id) {
          // ON DELETE CASCADE: an idle sandbox has an owner, so it has no pool entry.
          assert pool - {id} == pool;
          sandboxes := sandboxes - {id};
          pool := pool - {id};
          deleted := deleted + 1;
        }
        left, done := left - {id}, done + {id};
      }
      assert done == IdleBefore(old(sandboxes), before);
      ChosenAreGone(old(sandboxes), before, deletes);
    }
  }
}
