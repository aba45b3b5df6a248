/**
The pages of the exec history of a session: following the signed cursors
reproduces the sorted history, whatever the page size.
*/
module ExecHistory {
  import opened Order
  import opened Wrappers
  import opened Text
  import opened Cursor
  import opened Paging
  import opened ExecProtocol

  /** What the history is sorted by. */
  datatype Key = Key(startedAt: string, exec: string)

  /** ORDER BY started_at DESC, id DESC. */
  predicate Newer(a: Key, b: Key) {
    StrLess(b.startedAt, a.startedAt) || (a.startedAt == b.startedAt && StrLess(b.exec, a.exec))
  }

  lemma NewerStrictTotal()
    ensures StrictTotal(Newer)
  {
    StrLessStrictTotal();
  }

  function Clamp(limit: int): (n: nat)
    ensures 1 <= n <= 200 && (1 <= limit <= 200 ==> n == limit)
  {
    if limit <= 0 then 20 else if limit > 200 then 200 else limit
  }

  /** exec_tasks, and the session of each sandbox. */
  datatype Tables = Tables(tasks: map<string, Task>, owners: map<string, string>)

  /** The JOIN: the tasks of the sandboxes of a session. */
  function KeysOf(t: Tables, session: string): set<Key> {
    set id | id in t.tasks && t.tasks[id].sandbox in t.owners && t.owners[t.tasks[id].sandbox] == session
      :: Key(t.tasks[id].startedAt, id)
  }

  /** A task is in the history of the session that owns its sandbox, and of no other. */
  lemma KeysAreOwned(t: Tables, session: string, startedAt: string, exec: string)
    ensures Key(startedAt, exec) in KeysOf(t, session)
            <==> && exec in t.tasks && t.tasks[exec].startedAt == startedAt
                 && t.tasks[exec].sandbox in t.owners && t.owners[t.tasks[exec].sandbox] == session
  {
  }

  /** The WHERE clause on the cursor. */
  function Selected(keys: set<Key>, from: Position): set<Key> {
    if from.startedAt != "" && from.exec != "" then
      set k | k in keys
              && (StrLess(k.startedAt, from.startedAt) || (k.startedAt == from.startedAt && StrLess(k.exec, from.exec)))
    else keys
  }

  /** Without a whole cursor every row is selected, and with one the rows after it. */
  lemma SelectedExactly(keys: set<Key>, from: Position, startedAt: string, exec: string)
    ensures Key(startedAt, exec) in Selected(keys, from)
            <==> && Key(startedAt, exec) in keys
                 && (|| from.startedAt == "" || from.exec == "" || StrLess(startedAt, from.startedAt)
                     || (startedAt == from.startedAt && StrLess(exec, from.exec)))
  {
  }

  /** ListExecTasksBySession, on the keys. */
  ghost function Page(keys: set<Key>, limit: int, from: Position): seq<Key> {
    NewerStrictTotal();
    Take(Listing(Newer, Selected(keys, from)), Clamp(limit))
  }

  function PositionOf(from: Option<Key>): Position {
    match from
    case None => Position("", "")
    case Some(k) => Position(k.startedAt, k.exec)
  }

  predicate Stamped(keys: set<Key>) {
    forall k :: k in keys ==> Trim(k.startedAt) != "" && Trim(k.exec) != ""
  }

  /** The query is keyset paging, as long as the key of the cursor is not blank. */
  lemma PageIsKeyset(keys: set<Key>, limit: int, from: Option<Key>)
    requires StrictTotal(Newer)
    requires from.Some? ==> from.value.startedAt != "" && from.value.exec != ""
    ensures Page(keys, limit, PositionOf(from)) == PageAfter(Newer, keys, Clamp(limit), from)
  {
    assert Selected(keys, PositionOf(from)) == After(Newer, keys, from);
  }

  /** The pages that a client gets that passes the last key of each on, while the table changes under it. */
  ghost predicate Pages(tables: seq<set<Key>>, limit: int, pages: seq<seq<Key>>) {
    && |pages| == |tables|
    && (forall i :: 0 <= i < |pages| ==> Stamped(tables[i]) && pages[i] == Page(tables[i], limit, PositionOf(From(pages, i))))
    && (forall i :: 0 <= i < |pages| - 1 ==> pages[i] != [])
  }

  lemma InPage(keys: set<Key>, limit: int, from: Position, k: Key)
    requires k in Page(keys, limit, from)
    ensures k in keys
  {
  }

  lemma PageFollows(tables: seq<set<Key>>, limit: int, pages: seq<seq<Key>>, i: nat)
    requires StrictTotal(Newer) && Pages(tables, limit, pages) && i < |pages|
    ensures pages[i] == PageAfter(Newer, tables[i], Clamp(limit), From(pages, i))
  {
    if i > 0 {
      StampedEnd(tables, limit, pages, i);
    }
    PageIsKeyset(tables[i], limit, From(pages, i));
  }

  lemma StampedEnd(tables: seq<set<Key>>, limit: int, pages: seq<seq<Key>>, i: nat)
    requires Pages(tables, limit, pages) && 0 < i < |pages|
    ensures From(pages, i).Some? && From(pages, i).value.startedAt != "" && From(pages, i).value.exec != ""
  {
    var last := pages[i - 1][|pages[i - 1]| - 1];
    assert last in pages[i - 1] && Trim("") == "";
    InPage(tables[i - 1], limit, PositionOf(From(pages, i - 1)), last);
  }

  /** While tasks come and go between the pages: newest first, none twice, and each task that stays is read once. */
  lemma HistoryMissesNothing(tables: seq<set<Key>>, limit: int, pages: seq<seq<Key>>)
    requires Pages(tables, limit, pages) && pages != [] && pages[|pages| - 1] == []
    ensures Ascending(Newer, Flatten(pages))
    ensures forall i, j :: 0 <= i < j < |Flatten(pages)| ==> Flatten(pages)[i] != Flatten(pages)[j]
    ensures forall k :: AlwaysThere(tables, k) ==> k in Flatten(pages)
  {
    NewerStrictTotal();
    forall i | 0 <= i < |pages| ensures pages[i] == PageAfter(Newer, tables[i], Clamp(limit), From(pages, i)) {
      PageFollows(tables, limit, pages, i);
    }
    PagingMissesNothing(Newer, tables, Clamp(limit), pages);
  }

  /** One answer of the history endpoint. */
  datatype HistoryPage = HistoryPage(items: seq<(string, Task)>, next: string)

  datatype HistoryError = BadRequest | Internal(error: CursorError)

  function ItemsOf(t: Tables, page: seq<Key>): seq<(string, Task)>
    requires forall k :: k in page ==> k.exec in t.tasks
  {
    seq(|page|, i requires 0 <= i < |page| => assert page[i] in page; (page[i].exec, t.tasks[page[i].exec]))
  }

  method ListRows(keys: set<Key>, limit: int, from: Position) returns (rows: seq<Key>)
    ensures rows == Page(keys, limit, from)
  {
    NewerStrictTotal();
    var sorted := Sorted(Newer, Selected(keys, from));
    rows := Take(sorted, Clamp(limit));
  }

  lemma PageHasTasks(t: Tables, session: string, limit: int, from: Position)
    ensures forall k :: k in Page(KeysOf(t, session), limit, from) ==> k.exec in t.tasks && k in KeysOf(t, session)
  {
    forall k | k in Page(KeysOf(t, session), limit, from) ensures k in KeysOf(t, session) {
      InPage(KeysOf(t, session), limit, from, k);
    }
  }

  /** A page is full unless it has all that is left. */
  lemma PageSize(keys: set<Key>, limit: int, from: Position)
    ensures var rest, page := |Selected(keys, from)|, |Page(keys, limit, from)|;
            && (limit <= 0 ==> page == if rest < 20 then rest else 20)
            && (1 <= limit <= 200 ==> page == if rest < limit then rest else limit)
            && (limit > 200 ==> page == if rest < 200 then rest else 200)
  {
    NewerStrictTotal();
  }

  method ToItems(t: Tables, rows: seq<Key>) returns (items: seq<(string, Task)>)
    requires forall k :: k in rows ==> k.exec in t.tasks
    ensures items == ItemsOf(t, rows)
  {
    items := [];
    for i := 0 to |rows|
      invariant |items| == i && items == ItemsOf(t, rows)[..i]
    {
      items := items + [(rows[i].exec, t.tasks[rows[i].exec])];
    }
  }

  /** By start time, then by id, the greatest first. */
  predicate NewestFirst(items: seq<(string, Task)>) {
    forall i, j :: 0 <= i < j < |items| ==>
      || StrLess(items[j].1.startedAt, items[i].1.startedAt)
      || (items[j].1.startedAt == items[i].1.startedAt && StrLess(items[j].0, items[i].0))
  }

  lemma PageIsOwned(t: Tables, session: string, limit: int, from: Position)
    requires forall k :: k in Page(KeysOf(t, session), limit, from) ==> k.exec in t.tasks
    ensures var items := ItemsOf(t, Page(KeysOf(t, session), limit, from));
            && NewestFirst(items)
            && (forall id, task :: (id, task) in items ==>
                  && id in t.tasks && t.tasks[id] == task
                  && task.sandbox in t.owners && t.owners[task.sandbox] == session)
  {
    NewerStrictTotal();
    var page, all := Page(KeysOf(t, session), limit, from), Listing(Newer, Selected(KeysOf(t, session), from));
    var items := ItemsOf(t, page);
    ListingAscends(Newer, Selected(KeysOf(t, session), from));
    forall i | 0 <= i < |page|
      ensures items[i].0 == page[i].exec && items[i].1.startedAt == page[i].startedAt
      ensures items[i].1.sandbox in t.owners && t.owners[items[i].1.sandbox] == session
    {
      assert page[i] in page;
      InPage(KeysOf(t, session), limit, from, page[i]);
      KeysAreOwned(t, session, page[i].startedAt, page[i].exec);
    }
    forall i, j | 0 <= i < j < |page| ensures Newer(page[i], page[j]) {
      AscendingAt(Newer, all, i, j);
    }
  }

  /** The answer that carries a page, and the cursor after its last row. */
  predicate Answers(
      codec: Codec, t: Tables, owner: string, limit: int, secret: string, ttl: int, built: int,
      page: seq<Key>, r: Result<HistoryPage, HistoryError>)
  {
    && (forall k :: k in page ==> k.exec in t.tasks && k in KeysOf(t, owner))
    && if page == [] then r == Ok(HistoryPage([], ""))
       else
         var last := page[|page| - 1];
         match BuildCursor(codec, owner, last.startedAt, last.exec, limit, secret, ttl, built)
         case Ok(next) => r == Ok(HistoryPage(ItemsOf(t, page), next))
         case Err(e) => r == Err(Internal(e))
  }

  /** ListExecHistory; the clock is read at `now` and `later` to parse the cursor, and at `built` for the next one. */
  method ListExecHistory(
      codec: Codec, t: Tables, session: string, limit: int, cursor: string, secret: string, ttl: int,
      now: int, later: int, built: int)
    returns (r: Result<HistoryPage, HistoryError>)
    ensures var parsed := ParseCursor(codec, Trim(session), cursor, limit, secret, ttl, now, later);
            && (r == Err(BadRequest) <==> Trim(session) == "" || parsed.Err?)
            && (r != Err(BadRequest) ==>
                  Answers(codec, t, Trim(session), limit, secret, ttl, built,
                          Page(KeysOf(t, Trim(session)), limit, parsed.value), r))
    ensures r.Ok? ==> NewestFirst(r.value.items)
    ensures r.Ok? ==>
              (forall id, task :: (id, task) in r.value.items ==>
                 && id in t.tasks && t.tasks[id] == task
                 && task.sandbox in t.owners && t.owners[task.sandbox] == Trim(session))
  {
    var owner := Trim(session);
    if owner == "" {
      return Err(BadRequest);
    }
    var parsed := ParseCursor(codec, owner, cursor, limit, secret, ttl, now, later);
    if parsed.Err? {
      return Err(BadRequest);
    }
    var rows := ListRows(KeysOf(t, owner), limit, parsed.value);
    PageHasTasks(t, owner, limit, parsed.value);
    var items := ToItems(t, rows);
    PageIsOwned(t, owner, limit, parsed.value);
    if |rows| == 0 {
      return Ok(HistoryPage(items, ""));
    }
    var last := rows[|rows| - 1];
    var next := BuildCursor(codec, owner, last.startedAt, last.exec, limit, secret, ttl, built);
    if next.Err? {
      return Err(Internal(next.error));
    }
    return Ok(HistoryPage(items, next.value));
  }

  // A client

  /** The sorted history after a cursor; the whole of it after none. */
  ghost function History(keys: set<Key>, from: Option<Key>): seq<Key> {
    NewerStrictTotal();
    Listing(Newer, After(Newer, keys, from))
  }

  lemma NextPage(keys: set<Key>, limit: int, from: Option<Key>)
    requires from.Some? ==> from.value.startedAt != "" && from.value.exec != ""
    ensures var page := Page(keys, limit, PositionOf(from));
            && (page == [] ==> History(keys, from) == [])
            && (page != [] ==>
                  && History(keys, from) == page + History(keys, EndOf(page))
                  && After(Newer, keys, EndOf(page)) < After(Newer, keys, from))
  {
    NewerStrictTotal();
    PageIsKeyset(keys, limit, from);
    PageIsPrefix(Newer, keys, Clamp(limit), from);
    if Page(keys, limit, PositionOf(from)) != [] {
      PageSplitsRest(Newer, keys, Clamp(limit), from);
      PageShrinksRest(Newer, keys, Clamp(limit), from);
    }
  }

  /** Two clock readings in a row of a client are at most half the life of a cursor apart. */
  ghost predicate Prompt(clock: nat -> int, ttl: int) {
    forall i: nat :: clock(i) > 0 && clock(i) <= clock(i + 1) && (ttl > 0 ==> 2 * (clock(i + 1) - clock(i)) <= ttl)
  }

  ghost predicate Marshals(codec: Codec) {
    forall p :: codec.marshal(p).Some?
  }

  /** The cursor that the client holds parses back to the row that it was built for, or not at all. */
  lemma HeldCursorOpens(
      codec: Codec, session: string, from: Option<Key>, cursor: string, limit: int, secret: string, ttl: int,
      clock: nat -> int, n: nat)
    requires Lawful(codec) && HoldsCursor(codec, session, limit, secret, ttl, clock, n, cursor, from)
    ensures var parsed := ParseCursor(codec, session, cursor, limit, secret, ttl, clock(3 * n), clock(3 * n + 1));
            (parsed.Ok? ==> parsed == Ok(PositionOf(from))) && (Prompt(clock, ttl) ==> parsed.Ok?)
  {
    assert Trim("") == "";
    if from.Some? {
      var at := 3 * n - 1;
      assert Prompt(clock, ttl) ==> clock(at) <= clock(at + 1) && clock(at + 1) <= clock(at + 2);
      TokenOpens(codec, session, from.value.startedAt, from.value.exec, limit, secret, ttl, clock(at),
                 session, limit, ttl, clock(3 * n), clock(3 * n + 1));
    }
  }

  lemma ItemsMore(t: Tables, read: seq<Key>, page: seq<Key>)
    requires forall k :: k in read + page ==> k.exec in t.tasks
    ensures forall k :: (k in read ==> k.exec in t.tasks) && (k in page ==> k.exec in t.tasks)
    ensures ItemsOf(t, read + page) == ItemsOf(t, read) + ItemsOf(t, page)
  {
  }

  lemma HistoryHasItems(t: Tables, session: string, from: Option<Key>)
    ensures forall k :: k in History(KeysOf(t, session), from) ==> k.exec in t.tasks
  {
  }

  /** The cursor that the client holds was built for this row, after `n` requests. */
  predicate HoldsCursor(
      codec: Codec, owner: string, limit: int, secret: string, ttl: int, clock: nat -> int, n: nat, cursor: string,
      from: Option<Key>)
  {
    match from
    case None => cursor == ""
    case Some(last) =>
      && Trim(last.startedAt) != "" && Trim(last.exec) != "" && n > 0
      && BuildCursor(codec, owner, last.startedAt, last.exec, limit, secret, ttl, clock(3 * n - 1)) == Ok(cursor)
  }

  lemma AnswerHoldsCursor(
      codec: Codec, t: Tables, owner: string, limit: int, secret: string, ttl: int, clock: nat -> int,
      n: nat, page: seq<Key>, r: Result<HistoryPage, HistoryError>)
    requires Stamped(KeysOf(t, owner)) && Answers(codec, t, owner, limit, secret, ttl, clock(3 * n + 2), page, r)
    ensures r.Ok? ==> (forall k :: k in page ==> k.exec in t.tasks) && r.value.items == ItemsOf(t, page)
    ensures r.Ok? && page != [] ==> HoldsCursor(codec, owner, limit, secret, ttl, clock, n + 1, r.value.next, EndOf(page))
    ensures Marshals(codec) && Trim(secret) != "" ==> r.Ok?
  {
  }

  /** A client whose cursors stay young, a secret, and a codec that encodes every payload. */
  ghost predicate AllWell(codec: Codec, secret: string, ttl: int, clock: nat -> int) {
    Prompt(clock, ttl) && Trim(secret) != "" && Marshals(codec)
  }

  /** One request of the client. */
  method Request(
      codec: Codec, t: Tables, session: string, limit: int, secret: string, ttl: int, clock: nat -> int,
      n: nat, cursor: string, ghost from: Option<Key>)
    returns (r: Result<HistoryPage, HistoryError>)
    requires Lawful(codec) && Trim(session) != "" && Stamped(KeysOf(t, Trim(session)))
    requires HoldsCursor(codec, Trim(session), limit, secret, ttl, clock, n, cursor, from)
    ensures r.Ok? ==>
              var page := Page(KeysOf(t, Trim(session)), limit, PositionOf(from));
              && (forall k :: k in page ==> k.exec in t.tasks) && r.value.items == ItemsOf(t, page)
              && (page != [] ==> HoldsCursor(codec, Trim(session), limit, secret, ttl, clock, n + 1, r.value.next, EndOf(page)))
    ensures AllWell(codec, secret, ttl, clock) ==> r.Ok?
  {
    ghost var page := Page(KeysOf(t, Trim(session)), limit, PositionOf(from));
    r := ListExecHistory(
      codec, t, session, limit, cursor, secret, ttl, clock(3 * n), clock(3 * n + 1), clock(3 * n + 2));
    HeldCursorOpens(codec, Trim(session), from, cursor, limit, secret, ttl, clock, n);
    if r != Err(BadRequest) {
      AnswerHoldsCursor(codec, t, Trim(session), limit, secret, ttl, clock, n, page, r);
    }
  }

  lemma PageOrEnd(keys: set<Key>, limit: int, from: Option<Key>, page: seq<Key>)
    requires page == Page(keys, limit, PositionOf(from))
    requires from.Some? ==> Trim(from.value.startedAt) != "" && Trim(from.value.exec) != ""
    ensures page == [] ==> History(keys, from) == []
    ensures page != [] ==> History(keys, from) == page + History(keys, EndOf(page))
    ensures page != [] ==> After(Newer, keys, EndOf(page)) < After(Newer, keys, from)
  {
    assert Trim("") == "";
    NextPage(keys, limit, from);
  }

  /** The items of a history are the tasks of the session after the cursor, newest first. */
  lemma HistoryIsOwned(t: Tables, session: string, from: Option<Key>)
    requires forall k :: k in History(KeysOf(t, session), from) ==> k.exec in t.tasks
    ensures var items := ItemsOf(t, History(KeysOf(t, session), from));
            && (forall id, task :: (id, task) in items
                  <==> (&& id in t.tasks && t.tasks[id] == task
                        && task.sandbox in t.owners && t.owners[task.sandbox] == session
                        && (from.Some? ==> || StrLess(task.startedAt, from.value.startedAt)
                                           || (task.startedAt == from.value.startedAt && StrLess(id, from.value.exec)))))
            && NewestFirst(items)
  {
    NewerStrictTotal();
    var keys := KeysOf(t, session);
    var history := History(keys, from);
    var items := ItemsOf(t, history);
    forall id, task | && id in t.tasks && t.tasks[id] == task
                      && task.sandbox in t.owners && t.owners[task.sandbox] == session
                      && (from.Some? ==> Newer(from.value, Key(task.startedAt, id)))
      ensures (id, task) in items
    {
      KeysAreOwned(t, session, task.startedAt, id);
      assert Key(task.startedAt, id) in history;
      var i :| 0 <= i < |history| && history[i] == Key(task.startedAt, id);
      assert items[i] == (id, task);
    }
    forall i | 0 <= i < |items|
      ensures items[i].1.startedAt == history[i].startedAt && items[i].0 == history[i].exec
      ensures items[i].1.sandbox in t.owners && t.owners[items[i].1.sandbox] == session
      ensures from.Some? ==> Newer(from.value, history[i])
    {
      assert history[i] in history;
      KeysAreOwned(t, session, history[i].startedAt, history[i].exec);
    }
    ListingAscends(Newer, After(Newer, keys, from));
    forall i, j | 0 <= i < j < |items| ensures Newer(history[i], history[j]) {
      AscendingAt(Newer, history, i, j);
    }
  }

  /**
  On a fixed history, a client that follows the tokens up to an empty page and meets no error reads exactly the
  sorted rest of the history; it meets none if all is well.
  */
  method FetchFrom(
      codec: Codec, t: Tables, session: string, limit: int, secret: string, ttl: int, clock: nat -> int,
      n: nat, cursor: string, ghost from: Option<Key>)
    returns (r: Result<seq<(string, Task)>, HistoryError>)
    requires Lawful(codec) && Trim(session) != "" && Stamped(KeysOf(t, Trim(session)))
    requires HoldsCursor(codec, Trim(session), limit, secret, ttl, clock, n, cursor, from)
    ensures forall k :: k in History(KeysOf(t, Trim(session)), from) ==> k.exec in t.tasks
    ensures r.Ok? ==> r.value == ItemsOf(t, History(KeysOf(t, Trim(session)), from))
    ensures r.Ok? ==> NewestFirst(r.value)
    ensures r.Ok? ==>
              (forall id, task :: (id, task) in r.value
                 <==> (&& id in t.tasks && t.tasks[id] == task
                       && task.sandbox in t.owners && t.owners[task.sandbox] == Trim(session)
                       && (from.Some? ==> || StrLess(task.startedAt, from.value.startedAt)
                                          || (task.startedAt == from.value.startedAt && StrLess(id, from.value.exec)))))
    ensures AllWell(codec, secret, ttl, clock) ==> r.Ok?
    decreases After(Newer, KeysOf(t, Trim(session)), from)
  {
    ghost var owner := Trim(session);
    HistoryHasItems(t, owner, from);
    HistoryIsOwned(t, owner, from);
    ghost var page := Page(KeysOf(t, owner), limit, PositionOf(from));
    var answer := Request(codec, t, session, limit, secret, ttl, clock, n, cursor, from);
    if answer.Err? {
      return Err(answer.error);
    }
    PageOrEnd(KeysOf(t, owner), limit, from, page);
    var items := answer.value.items;
    if items == [] {
      return Ok(items);
    }
    var rest := FetchFrom(codec, t, session, limit, secret, ttl, clock, n + 1, answer.value.next, EndOf(page));
    if rest.Err? {
      return rest;
    }
    ItemsMore(t, page, History(KeysOf(t, owner), EndOf(page)));
    return Ok(items + rest.value);
  }

  /** From no cursor at all: every task of the session and no other, newest first. */
  method FetchAll(codec: Codec, t: Tables, session: string, limit: int, secret: string, ttl: int, clock: nat -> int)
    returns (r: Result<seq<(string, Task)>, HistoryError>)
    requires Lawful(codec) && Trim(session) != "" && Stamped(KeysOf(t, Trim(session)))
    ensures forall k :: k in History(KeysOf(t, Trim(session)), None) ==> k.exec in t.tasks
    ensures r.Ok? ==> r.value == ItemsOf(t, History(KeysOf(t, Trim(session)), None))
    ensures r.Ok? ==> NewestFirst(r.value)
    ensures r.Ok? ==>
              (forall id, task :: (id, task) in r.value
                 <==> (id in t.tasks && t.tasks[id] == task
                       && task.sandbox in t.owners && t.owners[task.sandbox] == Trim(session)))
    ensures AllWell(codec, secret, ttl, clock) ==> r.Ok?
  {
    r := FetchFrom(codec, t, session, limit, secret, ttl, clock, 0, "", None);
  }
}
