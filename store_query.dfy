/**
 * What the store's `findMany` does with the rows it selects: order them by a
 * key in a direction, then apply the skip/take window. A table, which is a
 * map, is first listed as a sequence holding each row once.
 */
module StoreQuery {
  import opened Wrappers
  import opened Store
  import opened Pagination

  /** `x` may come before `y` when ordering by `d`. */
  predicate InOrder(d: SortOrder, x: int, y: int) {
    if d == Asc then x <= y else y <= x
  }

  ghost predicate Ordered<T>(s: seq<T>, key: T -> int, d: SortOrder) {
    forall i, j :: 0 <= i < j < |s| ==> InOrder(d, key(s[i]), key(s[j]))
  }

  function Insert<T>(x: T, s: seq<T>, key: T -> int, d: SortOrder): (r: seq<T>)
    requires Ordered(s, key, d)
    ensures Ordered(r, key, d)
    ensures multiset(r) == multiset(s) + multiset{x}
  {
    if s == [] then [x]
    else if InOrder(d, key(x), key(s[0])) then [x] + s
    else
      var rest := Insert(x, s[1..], key, d);
      assert s == [s[0]] + s[1..];
      assert forall y :: y in multiset(rest) ==> y == x || y in multiset(s[1..]);
      assert forall i :: 0 <= i < |rest| ==> InOrder(d, key(s[0]), key(rest[i])) by {
        forall i | 0 <= i < |rest| ensures InOrder(d, key(s[0]), key(rest[i])) {
          assert rest[i] in multiset(rest);
          if rest[i] != x {
            var j :| 0 <= j < |s[1..]| && s[1..][j] == rest[i];
            assert s[j + 1] == rest[i];
          }
        }
      }
      [s[0]] + rest
  }

  /** The rows of `s` ordered by `key` in direction `d` (insertion sort). */
  function SortBy<T>(s: seq<T>, key: T -> int, d: SortOrder): (r: seq<T>)
    ensures Ordered(r, key, d)
    ensures multiset(r) == multiset(s)
  {
    if s == [] then []
    else
      assert s == [s[0]] + s[1..];
      Insert(s[0], SortBy(s[1..], key, d), key, d)
  }

  /** The store's skip/take window: at most `take` rows starting at row `skip`. */
  function Window<T>(s: seq<T>, skip: nat, take: nat): (w: seq<T>)
    ensures |w| <= take
    ensures |w| == if skip >= |s| then 0 else Min(take, |s| - skip)
    ensures forall i :: 0 <= i < |w| ==> w[i] == s[skip + i]
  {
    if skip >= |s| then [] else s[skip..Min(skip + take, |s|)]
  }

  /** A window of an ordered listing is itself ordered. */
  lemma WindowOrdered<T>(s: seq<T>, skip: nat, take: nat, key: T -> int, d: SortOrder)
    requires Ordered(s, key, d)
    ensures Ordered(Window(s, skip, take), key, d)
  {
    var w := Window(s, skip, take);
    forall i, j | 0 <= i < j < |w| ensures InOrder(d, key(w[i]), key(w[j])) {
      assert w[i] == s[skip + i] && w[j] == s[skip + j];
    }
  }

  /**
   * Every row of a listing is on the page the planner makes for page number
   * i / limit + 1, at position i % limit.
   */
  lemma {:induction false} RowInItsWindow<T>(s: seq<T>, query: PaginationQuery, i: nat)
    requires i < |s|
    requires query.limit.Some? && 1 <= query.limit.value <= MaxLimit
    requires query.page == Some(i / query.limit.value + 1)
    ensures var params := GetPaginationParams(query);
            var page := Window(s, params.skip, params.limit);
            && i % params.limit < |page|
            && page[i % params.limit] == s[i]
  {
    var params := GetPaginationParams(query);
    var l := params.limit;
    assert l == query.limit.value;
    assert params.skip == (i / l) * l;
    assert params.skip + i % l == i;
  }

  /**
   * `rows` holds every row of `table` and nothing else. The table stores each
   * row under its own id, so a listing exactly as long as the table holds
   * each row once.
   */
  ghost predicate IsListing<T>(rows: seq<T>, table: map<Id, T>, idOf: T -> Id) {
    && (forall k :: k in table ==> idOf(table[k]) == k)
    && |rows| == |table|
    && (forall i :: 0 <= i < |rows| ==> idOf(rows[i]) in table && table[idOf(rows[i])] == rows[i])
    && (forall k :: k in table ==> table[k] in rows)
  }

  /** Reads every row of a table whose rows carry their own keys. */
  method ListTable<T(==)>(table: map<Id, T>, idOf: T -> Id) returns (rows: seq<T>)
    requires forall k :: k in table ==> idOf(table[k]) == k
    ensures IsListing(rows, table, idOf)
  {
    rows := [];
    var rest := table.Keys;
    while rest != {}
      invariant rest <= table.Keys
      invariant |rows| + |rest| == |table|
      invariant forall i :: 0 <= i < |rows| ==> idOf(rows[i]) in table && table[idOf(rows[i])] == rows[i]
      invariant forall k :: k in table.Keys - rest ==> table[k] in rows
      decreases rest
    {
      var k :| k in rest;
      rows := rows + [table[k]];
      rest := rest - {k};
    }
    assert table.Keys - rest == table.Keys;
  }

  /** Any reordering of a listing is a listing of the same table. */
  lemma {:induction false} ListingPermutation<T>(rows: seq<T>, reordered: seq<T>, table: map<Id, T>, idOf: T -> Id)
    requires IsListing(rows, table, idOf)
    requires multiset(reordered) == multiset(rows)
    ensures IsListing(reordered, table, idOf)
  {
    assert |reordered| == |multiset(reordered)| == |multiset(rows)| == |rows|;
    forall i | 0 <= i < |reordered|
      ensures idOf(reordered[i]) in table && table[idOf(reordered[i])] == reordered[i]
    {
      assert reordered[i] in multiset(rows);
      var j :| 0 <= j < |rows| && rows[j] == reordered[i];
    }
    forall k | k in table ensures table[k] in reordered {
      assert table[k] in multiset(rows);
    }
  }

  /** Row x lies in a listing of `table` exactly when the table holds it under its id. */
  lemma {:induction false} ListingMembership<T>(rows: seq<T>, table: map<Id, T>, idOf: T -> Id, x: T)
    requires IsListing(rows, table, idOf)
    ensures x in rows <==> idOf(x) in table && table[idOf(x)] == x
  {
    if x in rows {
      var i :| 0 <= i < |rows| && rows[i] == x;
    }
  }
}
