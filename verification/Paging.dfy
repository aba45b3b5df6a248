/** Keyset paging in any strict total order: each page starts after the last row of the page before it. */
module Paging {
  import opened Order
  import opened Wrappers

  function Take<T>(s: seq<T>, n: nat): seq<T> {
    if |s| <= n then s else s[..n]
  }

  function After<T>(less: (T, T) -> bool, table: set<T>, from: Option<T>): set<T> {
    match from
    case None => table
    case Some(c) => set k | k in table && less(c, k)
  }

  ghost function PageAfter<T(!new)>(less: (T, T) -> bool, table: set<T>, size: nat, from: Option<T>): seq<T>
    requires StrictTotal(less)
  {
    Take(Listing(less, After(less, table, from)), size)
  }

  function Flatten<T>(pages: seq<seq<T>>): seq<T> {
    if pages == [] then [] else Flatten(pages[..|pages| - 1]) + pages[|pages| - 1]
  }

  /** The cursor that a client holds after reading these rows. */
  function EndOf<T>(read: seq<T>): Option<T> {
    if read == [] then None else Some(read[|read| - 1])
  }

  function From<T>(pages: seq<seq<T>>, i: nat): Option<T>
    requires i <= |pages|
  {
    if i == 0 then None else EndOf(pages[i - 1])
  }

  /** A client that follows the cursors: page `i` is read from `tables[i]`, and only the last page can be empty. */
  ghost predicate Follows<T(!new)>(less: (T, T) -> bool, tables: seq<set<T>>, size: nat, pages: seq<seq<T>>)
    requires StrictTotal(less)
  {
    && |pages| == |tables|
    && (forall i :: 0 <= i < |pages| ==> pages[i] == PageAfter(less, tables[i], size, From(pages, i)))
    && (forall i :: 0 <= i < |pages| - 1 ==> pages[i] != [])
  }

  ghost predicate AlwaysThere<T(!new)>(tables: seq<set<T>>, k: T) {
    forall i :: 0 <= i < |tables| ==> k in tables[i]
  }

  lemma FlattenMore<T>(pages: seq<seq<T>>, n: nat)
    requires 0 < n <= |pages|
    ensures Flatten(pages[..n]) == Flatten(pages[..n - 1]) + pages[n - 1]
  {
    assert pages[..n][..n - 1] == pages[..n - 1];
  }

  lemma AscendingAppend<T(!new)>(less: (T, T) -> bool, s: seq<T>, t: seq<T>)
    requires StrictTotal(less) && Ascending(less, s) && Ascending(less, t)
    requires s != [] ==> forall k :: k in t ==> less(s[|s| - 1], k)
    ensures Ascending(less, s + t)
  {
    var r := s + t;
    forall i, j | 0 <= i < j < |r| ensures less(r[i], r[j]) {
      if i < |s| <= j {
        assert r[j] == t[j - |s|] && r[j] in t;
        assert i == |s| - 1 || less(s[i], s[|s| - 1]);
      }
    }
  }

  /** A page takes the rows after the cursor in order, without a gap, and is empty only when there are none. */
  lemma PageIsPrefix<T(!new)>(less: (T, T) -> bool, table: set<T>, size: nat, from: Option<T>)
    requires StrictTotal(less) && size > 0
    ensures var page := PageAfter(less, table, size, from);
            && Ascending(less, page)
            && (forall k :: k in page ==> k in After(less, table, from))
            && (forall k :: k in After(less, table, from) && k !in page ==> page != [] && less(page[|page| - 1], k))
            && (page == [] <==> After(less, table, from) == {})
  {
    var all, page := Listing(less, After(less, table, from)), PageAfter(less, table, size, from);
    ListingAscends(less, After(less, table, from));
    forall k | k in page ensures k in all {
      var i :| 0 <= i < |page| && page[i] == k;
      assert all[i] == k;
    }
    forall k | k in all && k !in page ensures page != [] && less(page[|page| - 1], k) {
      var i :| 0 <= i < |all| && all[i] == k;
      assert forall j :: 0 <= j < |page| ==> page[j] == all[j] && page[j] in page;
    }
  }

  /** Rows read one page further: still in order, and no row that was ahead of the cursor is passed over. */
  lemma OnePage<T(!new)>(less: (T, T) -> bool, table: set<T>, size: nat, before: seq<T>, page: seq<T>)
    requires StrictTotal(less) && size > 0
    requires Ascending(less, before) && page == PageAfter(less, table, size, EndOf(before))
    ensures Ascending(less, before + page)
    ensures forall k :: k in table && k !in page && (before == [] || less(before[|before| - 1], k)) ==>
                          page != [] && less(page[|page| - 1], k)
  {
    PageIsPrefix(less, table, size, EndOf(before));
    AscendingAppend(less, before, page);
  }

  /** What has been read after `n` pages is in order and ends at the cursor. */
  lemma {:induction false} ReadInOrder<T(!new)>(
      less: (T, T) -> bool, tables: seq<set<T>>, size: nat, pages: seq<seq<T>>, n: nat)
    requires StrictTotal(less) && size > 0 && Follows(less, tables, size, pages) && n <= |pages|
    ensures Ascending(less, Flatten(pages[..n]))
    ensures 0 < n < |pages| ==> EndOf(Flatten(pages[..n])) == EndOf(pages[n - 1])
  {
    if n > 0 {
      ReadInOrder(less, tables, size, pages, n - 1);
      FlattenMore(pages, n);
      if n == 1 {
        assert pages[..n - 1] == [];
      }
      OnePage(less, tables[n - 1], size, Flatten(pages[..n - 1]), pages[n - 1]);
    }
  }

  /** A row that stays has been read, or is still ahead of the cursor. */
  lemma {:induction false} NotPassedOver<T(!new)>(
      less: (T, T) -> bool, tables: seq<set<T>>, size: nat, pages: seq<seq<T>>, n: nat, k: T)
    requires StrictTotal(less) && size > 0 && Follows(less, tables, size, pages) && 0 < n <= |pages|
    requires AlwaysThere(tables, k) && k !in Flatten(pages[..n])
    ensures pages[n - 1] != [] && less(pages[n - 1][|pages[n - 1]| - 1], k)
  {
    var before, page := Flatten(pages[..n - 1]), pages[n - 1];
    FlattenMore(pages, n);
    ReadInOrder(less, tables, size, pages, n - 1);
    assert k in tables[n - 1];
    if n > 1 {
      NotPassedOver(less, tables, size, pages, n - 1, k);
    }
    OnePage(less, tables[n - 1], size, before, page);
  }

  lemma PageMember<T(!new)>(less: (T, T) -> bool, table: set<T>, size: nat, from: Option<T>, k: T)
    requires StrictTotal(less) && size > 0 && k in PageAfter(less, table, size, from)
    ensures k in table
  {
  }

  lemma {:induction false} FromSomePage<T>(pages: seq<seq<T>>, n: nat, k: T) returns (i: nat)
    requires n <= |pages| && k in Flatten(pages[..n])
    ensures i < n && k in pages[i]
  {
    FlattenMore(pages, n);
    i := n - 1;
    if k !in pages[n - 1] {
      i := FromSomePage(pages, n - 1, k);
    }
  }

  lemma PagesAreFromTables<T(!new)>(
      less: (T, T) -> bool, tables: seq<set<T>>, size: nat, pages: seq<seq<T>>, n: nat, k: T)
    returns (i: nat)
    requires StrictTotal(less) && size > 0 && Follows(less, tables, size, pages)
    requires n <= |pages| && k in Flatten(pages[..n])
    ensures i < n && k in pages[i] && k in tables[i]
  {
    i := FromSomePage(pages, n, k);
    PageMember(less, tables[i], size, From(pages, i), k);
  }

  lemma AscendingDistinct<T(!new)>(less: (T, T) -> bool, s: seq<T>)
    requires StrictTotal(less) && Ascending(less, s)
    ensures forall i, j :: 0 <= i < j < |s| ==> s[i] != s[j]
  {
  }

  lemma NotMissed<T(!new)>(less: (T, T) -> bool, tables: seq<set<T>>, size: nat, pages: seq<seq<T>>, k: T)
    requires StrictTotal(less) && size > 0 && Follows(less, tables, size, pages)
    requires pages != [] && pages[|pages| - 1] == [] && AlwaysThere(tables, k)
    ensures k in Flatten(pages)
  {
    assert pages[..|pages|] == pages;
    if k !in Flatten(pages) {
      NotPassedOver(less, tables, size, pages, |pages|, k);
    }
  }

  /** With inserts and deletes between the pages: in order, so no row twice, and every row that stays is read. */
  lemma PagingMissesNothing<T(!new)>(less: (T, T) -> bool, tables: seq<set<T>>, size: nat, pages: seq<seq<T>>)
    requires StrictTotal(less) && size > 0 && Follows(less, tables, size, pages)
    requires pages != [] && pages[|pages| - 1] == []
    ensures Ascending(less, Flatten(pages))
    ensures forall i, j :: 0 <= i < j < |Flatten(pages)| ==> Flatten(pages)[i] != Flatten(pages)[j]
    ensures forall k :: AlwaysThere(tables, k) ==> k in Flatten(pages)
  {
    ReadInOrder(less, tables, size, pages, |pages|);
    assert pages[..|pages|] == pages;
    AscendingDistinct(less, Flatten(pages));
    forall k | AlwaysThere(tables, k) ensures k in Flatten(pages) {
      NotMissed(less, tables, size, pages, k);
    }
  }

  /** An ascending sequence is the listing of its members. */
  lemma {:induction false} AscendingIsListing<T(!new)>(less: (T, T) -> bool, s: seq<T>, S: set<T>)
    requires StrictTotal(less) && Ascending(less, s) && forall x :: x in s <==> x in S
    ensures s == Listing(less, S)
  {
    if s == [] {
      assert S == {};
    } else {
      assert s[0] in s && IsLeast(less, s[0], S);
      ListingStep(less, S, s[0]);
      forall x ensures x in s[1..] <==> x in S - {s[0]} {
        if x in s && x != s[0] {
          var i :| 0 <= i < |s| && s[i] == x;
          assert s[1..][i - 1] == x;
        }
      }
      AscendingIsListing(less, s[1..], S - {s[0]});
    }
  }

  /** On a fixed table the pages together are the table, sorted, each row once, for every page size. */
  lemma PagingIsExact<T(!new)>(less: (T, T) -> bool, table: set<T>, size: nat, pages: seq<seq<T>>)
    requires StrictTotal(less) && size > 0 && Follows(less, seq(|pages|, _ => table), size, pages)
    requires pages != [] && pages[|pages| - 1] == []
    ensures Flatten(pages) == Listing(less, table)
  {
    var tables := seq(|pages|, _ => table);
    PagingMissesNothing(less, tables, size, pages);
    assert pages[..|pages|] == pages;
    forall k ensures k in Flatten(pages) <==> k in table {
      if k in table {
        assert AlwaysThere(tables, k);
      } else if k in Flatten(pages) {
        var i := PagesAreFromTables(less, tables, size, pages, |pages|, k);
      }
    }
    AscendingIsListing(less, Flatten(pages), table);
  }

  /** Past position `i` of an ascending listing are exactly the greater members. */
  lemma GreaterMembers<T(!new)>(less: (T, T) -> bool, all: seq<T>, i: nat, k: T)
    requires StrictTotal(less) && Ascending(less, all) && i < |all|
    ensures k in all[i + 1..] <==> k in all && less(all[i], k)
  {
  }

  /** A page that is not empty and what comes after its last row are what came after the cursor. */
  lemma PageSplitsRest<T(!new)>(less: (T, T) -> bool, table: set<T>, size: nat, from: Option<T>)
    requires StrictTotal(less) && size > 0 && PageAfter(less, table, size, from) != []
    ensures var page := PageAfter(less, table, size, from);
            Listing(less, After(less, table, from)) == page + Listing(less, After(less, table, EndOf(page)))
  {
    var page := PageAfter(less, table, size, from);
    SplitListing(less, table, from, |page|);
    assert page == Listing(less, After(less, table, from))[..|page|];
  }

  lemma SplitListing<T(!new)>(less: (T, T) -> bool, table: set<T>, from: Option<T>, n: nat)
    requires StrictTotal(less) && 0 < n <= |Listing(less, After(less, table, from))|
    ensures var all := Listing(less, After(less, table, from));
            all == all[..n] + Listing(less, After(less, table, Some(all[n - 1])))
  {
    RestIsListing(less, table, from, n - 1);
    Rejoin(Listing(less, After(less, table, from)), n);
  }

  lemma Rejoin<T>(s: seq<T>, n: nat)
    requires n <= |s|
    ensures s == s[..n] + s[n..]
  {
  }

  lemma RestIsListing<T(!new)>(less: (T, T) -> bool, table: set<T>, from: Option<T>, i: nat)
    requires StrictTotal(less) && i < |Listing(less, After(less, table, from))|
    ensures var all := Listing(less, After(less, table, from));
            all[i + 1..] == Listing(less, After(less, table, Some(all[i])))
  {
    var all := Listing(less, After(less, table, from));
    RestAscends(less, After(less, table, from), i + 1);
    forall k ensures k in all[i + 1..] <==> k in After(less, table, Some(all[i])) {
      RestIsAfter(less, table, from, i, k);
    }
    AscendingIsListing(less, all[i + 1..], After(less, table, Some(all[i])));
  }

  lemma RestAscends<T(!new)>(less: (T, T) -> bool, S: set<T>, n: nat)
    requires StrictTotal(less) && n <= |S|
    ensures Ascending(less, Listing(less, S)[n..])
  {
    ListingAscends(less, S);
  }

  lemma RestIsAfter<T(!new)>(less: (T, T) -> bool, table: set<T>, from: Option<T>, i: nat, k: T)
    requires StrictTotal(less) && i < |Listing(less, After(less, table, from))|
    ensures var all := Listing(less, After(less, table, from));
            k in all[i + 1..] <==> k in After(less, table, Some(all[i]))
  {
    var all := Listing(less, After(less, table, from));
    ListingAscends(less, After(less, table, from));
    GreaterMembers(less, all, i, k);
    AfterMember(less, table, from, all[i], k);
  }

  lemma AfterMember<T(!new)>(less: (T, T) -> bool, table: set<T>, from: Option<T>, last: T, k: T)
    requires StrictTotal(less) && last in After(less, table, from)
    ensures k in After(less, table, Some(last)) <==> k in After(less, table, from) && less(last, k)
  {
  }

  /** Every page that is not empty brings the end nearer. */
  lemma PageShrinksRest<T(!new)>(less: (T, T) -> bool, table: set<T>, size: nat, from: Option<T>)
    requires StrictTotal(less) && size > 0 && PageAfter(less, table, size, from) != []
    ensures After(less, table, EndOf(PageAfter(less, table, size, from))) < After(less, table, from)
  {
  }
}
