/**
Orders the service relies on: strings compare code point by code point, paths
component by component, and a finite set has exactly one listing in a strict
total order.
*/
module Order {

  ghost predicate StrictTotal<T(!new)>(less: (T, T) -> bool) {
    && (forall x, y :: less(x, y) ==> x != y && !less(y, x))
    && (forall x, y :: less(x, y) || x == y || less(y, x))
    && (forall x, y, z :: less(x, y) && less(y, z) ==> less(x, z))
  }

  /** Dictionary order of sequences; a proper prefix comes first. */
  predicate LexLess<T(==)>(less: (T, T) -> bool, a: seq<T>, b: seq<T>) {
    && b != []
    && (a == [] || less(a[0], b[0]) || (a[0] == b[0] && LexLess(less, a[1..], b[1..])))
  }

  predicate CharLess(x: char, y: char) { x < y }

  predicate StrLess(a: string, b: string) { LexLess(CharLess, a, b) }

  lemma {:induction false} LexAsymmetric<T(!new)>(less: (T, T) -> bool, a: seq<T>, b: seq<T>)
    requires StrictTotal(less) && LexLess(less, a, b)
    ensures a != b && !LexLess(less, b, a)
  {
    if a != [] && a[0] == b[0] {
      LexAsymmetric(less, a[1..], b[1..]);
    }
  }

  lemma {:induction false} LexConnected<T(!new)>(less: (T, T) -> bool, a: seq<T>, b: seq<T>)
    requires StrictTotal(less)
    ensures LexLess(less, a, b) || a == b || LexLess(less, b, a)
  {
    if a != [] && b != [] && a[0] == b[0] {
      LexConnected(less, a[1..], b[1..]);
      if a[1..] == b[1..] {
        assert a == [a[0]] + a[1..] && b == [b[0]] + b[1..];
      }
    }
  }

  lemma {:induction false} LexTransitive<T(!new)>(less: (T, T) -> bool, a: seq<T>, b: seq<T>, c: seq<T>)
    requires StrictTotal(less) && LexLess(less, a, b) && LexLess(less, b, c)
    ensures LexLess(less, a, c)
  {
    if a != [] && a[0] == b[0] && b[0] == c[0] {
      LexTransitive(less, a[1..], b[1..], c[1..]);
    }
  }

  /** Dictionary order is again a strict total order. */
  lemma LexStrictTotal<T(!new)>(less: (T, T) -> bool, lex: (seq<T>, seq<T>) -> bool)
    requires StrictTotal(less)
    requires forall a, b :: lex(a, b) == LexLess(less, a, b)
    ensures StrictTotal(lex)
  {
    forall a, b | lex(a, b) ensures a != b && !lex(b, a) { LexAsymmetric(less, a, b); }
    forall a, b ensures lex(a, b) || a == b || lex(b, a) { LexConnected(less, a, b); }
    forall a, b, c | lex(a, b) && lex(b, c) ensures lex(a, c) { LexTransitive(less, a, b, c); }
  }

  lemma StrLessStrictTotal()
    ensures StrictTotal(StrLess)
  {
    assert StrictTotal(CharLess);
    LexStrictTotal(CharLess, StrLess);
  }

  // Listings

  ghost predicate Ascending<T(!new)>(less: (T, T) -> bool, s: seq<T>) {
    forall i, j :: 0 <= i < j < |s| ==> less(s[i], s[j])
  }

  /** In an ascending sequence, positions and members are ordered alike. */
  lemma AscendingAt<T(!new)>(less: (T, T) -> bool, s: seq<T>, i: nat, j: nat)
    requires StrictTotal(less) && Ascending(less, s) && i < |s| && j < |s|
    ensures less(s[i], s[j]) <==> i < j
    ensures s[i] == s[j] <==> i == j
  {
  }

  predicate IsLeast<T(!new)>(less: (T, T) -> bool, m: T, S: set<T>) {
    m in S && forall x :: x in S ==> x == m || less(m, x)
  }

  lemma {:induction false} LeastExists<T(!new)>(less: (T, T) -> bool, S: set<T>) returns (m: T)
    requires StrictTotal(less) && S != {}
    ensures IsLeast(less, m, S)
  {
    m :| m in S;
    if S != {m} {
      var n := LeastExists(less, S - {m});
      if less(n, m) {
        m := n;
      }
    }
  }

  /** The members of a finite set in ascending order. */
  ghost function Listing<T(!new)>(less: (T, T) -> bool, S: set<T>): (r: seq<T>)
    requires StrictTotal(less)
    ensures forall x :: x in r <==> x in S
    ensures |r| == |S|
    decreases |S|
  {
    if S == {} then []
    else
      LeastExistsIn(less, S);
      var m: T :| IsLeast(less, m, S);
      [m] + Listing(less, S - {m})
  }

  lemma LeastExistsIn<T(!new)>(less: (T, T) -> bool, S: set<T>)
    requires StrictTotal(less) && S != {}
    ensures exists m :: IsLeast(less, m, S)
  {
    var m := LeastExists(less, S);
  }

  lemma {:induction false} ListingAscends<T(!new)>(less: (T, T) -> bool, S: set<T>)
    requires StrictTotal(less)
    ensures Ascending(less, Listing(less, S))
    decreases |S|
  {
    if S != {} {
      var r := Listing(less, S);
      ListingAscends(less, S - {r[0]});
      forall j | 0 < j < |r| ensures less(r[0], r[j]) {
        assert r[j] == Listing(less, S - {r[0]})[j - 1];
        assert r[j] in Listing(less, S - {r[0]});
      }
    }
  }

  /** The listing starts with the least member, so a selection loop computes it. */
  lemma ListingStep<T(!new)>(less: (T, T) -> bool, S: set<T>, m: T)
    requires StrictTotal(less) && IsLeast(less, m, S)
    ensures Listing(less, S) == [m] + Listing(less, S - {m})
  {
  }

  lemma SortStep<T(!new)>(less: (T, T) -> bool, r: seq<T>, rest: set<T>, m: T)
    requires StrictTotal(less) && IsLeast(less, m, rest)
    ensures r + Listing(less, rest) == (r + [m]) + Listing(less, rest - {m})
  {
  }

  /** Repeated selection of the least member computes the listing. */
  method Sorted<T(!new, ==)>(less: (T, T) -> bool, S: set<T>) returns (r: seq<T>)
    requires StrictTotal(less)
    ensures r == Listing(less, S)
  {
    var rest := S;
    r := [];
    while rest != {}
      invariant r + Listing(less, rest) == Listing(less, S)
    {
      LeastExistsIn(less, rest);
      var m :| m in rest && IsLeast(less, m, rest);
      SortStep(less, r, rest, m);
      r := r + [m];
      rest := rest - {m};
    }
  }
}
