/** Keyset pagination: the chat service asks dbman for one row more than the
    page size, cuts the page, and hands out the last key as the next cursor.

    A table is the set of row keys that match a query's filters.  The order is
    whatever strict total order the database uses for ORDER BY. */
module Pagination {
  import opened GoStrings

  // ---------- ordered tables ----------

  ghost predicate TotalOrder<K(!new)>(lt: (K, K) -> bool) {
    && (forall x :: !lt(x, x))
    && (forall x, y, z :: lt(x, y) && lt(y, z) ==> lt(x, z))
    && (forall x, y :: x == y || lt(x, y) || lt(y, x))
  }

  ghost predicate Descending<K(!new)>(s: seq<K>, lt: (K, K) -> bool) {
    forall i, j :: 0 <= i < j < |s| ==> lt(s[j], s[i])
  }

  ghost predicate IsGreatest<K(!new)>(m: K, rows: set<K>, lt: (K, K) -> bool) {
    m in rows && forall x :: x in rows ==> x == m || lt(x, m)
  }

  lemma {:induction false} GreatestExists<K(!new)>(rows: set<K>, lt: (K, K) -> bool)
    requires TotalOrder(lt) && rows != {}
    ensures exists m :: IsGreatest(m, rows, lt)
    decreases |rows|
  {
    var x :| x in rows;
    if rows == {x} {
      assert IsGreatest(x, rows, lt);
    } else {
      assert rows == (rows - {x}) + {x};
      GreatestExists(rows - {x}, lt);
      var m :| IsGreatest(m, rows - {x}, lt);
      assert IsGreatest(if lt(m, x) then x else m, rows, lt);
    }
  }

  /** ORDER BY key DESC. */
  ghost function Ordered<K(!new)>(rows: set<K>, lt: (K, K) -> bool): (s: seq<K>)
    requires TotalOrder(lt)
    ensures |s| == |rows|
    decreases |rows|
  {
    if rows == {} then [] else
      GreatestExists(rows, lt);
      var m :| IsGreatest(m, rows, lt);
      [m] + Ordered(rows - {m}, lt)
  }

  /** The enumeration is descending and holds exactly the rows. */
  lemma {:induction false} OrderedIsEnumeration<K(!new)>(rows: set<K>, lt: (K, K) -> bool)
    requires TotalOrder(lt)
    ensures Descending(Ordered(rows, lt), lt)
    ensures forall x :: x in Ordered(rows, lt) <==> x in rows
    decreases |rows|
  {
    if rows != {} {
      GreatestExists(rows, lt);
      var m :| IsGreatest(m, rows, lt) && Ordered(rows, lt) == [m] + Ordered(rows - {m}, lt);
      var rest := Ordered(rows - {m}, lt);
      OrderedIsEnumeration(rows - {m}, lt);
      GreatestFirst(m, rest, rows, lt);
    }
  }

  lemma GreatestFirst<K(!new)>(m: K, rest: seq<K>, rows: set<K>, lt: (K, K) -> bool)
    requires IsGreatest(m, rows, lt) && Descending(rest, lt)
    requires forall x :: x in rest <==> x in rows - {m}
    ensures Descending([m] + rest, lt)
    ensures forall x :: x in [m] + rest <==> x in rows
  {
    var s := [m] + rest;
    forall i, j | 0 <= i < j < |s| ensures lt(s[j], s[i]) {
      assert s[j] == rest[j - 1] && rest[j - 1] in rest;
      if i > 0 { assert s[i] == rest[i - 1]; }
    }
  }

  /** A set has only one descending enumeration. */
  lemma {:induction false} DescendingUnique<K(!new)>(s: seq<K>, t: seq<K>, lt: (K, K) -> bool)
    requires TotalOrder(lt) && Descending(s, lt) && Descending(t, lt)
    requires forall x :: x in s <==> x in t
    ensures s == t
  {
    assert s != [] ==> s[0] in t;
    assert t != [] ==> t[0] in s;
    if s != [] {
      assert s[0] == t[0];
      forall x ensures x in s[1..] <==> x in t[1..] {
        SplitHead(s, x, lt);
        SplitHead(t, x, lt);
      }
      DescendingUnique(s[1..], t[1..], lt);
      assert s == [s[0]] + s[1..] && t == [t[0]] + t[1..];
    }
  }

  lemma SplitHead<K(!new)>(s: seq<K>, x: K, lt: (K, K) -> bool)
    requires TotalOrder(lt) && Descending(s, lt) && s != []
    ensures x in s[1..] <==> x in s && x != s[0]
  {
    assert s == [s[0]] + s[1..];
    if x in s[1..] {
      var i :| 0 <= i < |s[1..]| && s[1..][i] == x;
      assert lt(s[i + 1], s[0]);
    }
  }

  /** The rows a cursor leaves: WHERE key < cursor. */
  ghost function Eligible<K(!new)>(rows: set<K>, lt: (K, K) -> bool, cursor: Option<K>): set<K> {
    if cursor.None? then rows else set k | k in rows && lt(k, cursor.value)
  }

  /** The repository query: filter by cursor, order, LIMIT. */
  ghost function Query<K(!new)>(rows: set<K>, lt: (K, K) -> bool, cursor: Option<K>, limit: nat): seq<K>
    requires TotalOrder(lt)
  {
    var all := Ordered(Eligible(rows, lt, cursor), lt);
    if limit < |all| then all[..limit] else all
  }

  /** Using the i-th row of an enumeration as cursor leaves exactly what follows it. */
  lemma EligibleAfter<K(!new)>(rows: set<K>, lt: (K, K) -> bool, cursor: Option<K>, i: nat)
    requires TotalOrder(lt)
    requires i < |Ordered(Eligible(rows, lt, cursor), lt)|
    ensures var all := Ordered(Eligible(rows, lt, cursor), lt);
      && Ordered(Eligible(rows, lt, Some(all[i])), lt) == all[i + 1..]
      && |Eligible(rows, lt, Some(all[i]))| < |Eligible(rows, lt, cursor)|
  {
    var all := Ordered(Eligible(rows, lt, cursor), lt);
    var left := Eligible(rows, lt, Some(all[i]));
    OrderedIsEnumeration(Eligible(rows, lt, cursor), lt);
    OrderedIsEnumeration(left, lt);
    forall x ensures x in left <==> x in all[i + 1..] {
      assert all[i] in all;
      assert x in left ==> x in Eligible(rows, lt, cursor);
      FollowsIth(all, lt, i, x);
      assert x in all[i + 1..] ==> x in all;
    }
    DescendingUnique(Ordered(left, lt), all[i + 1..], lt);
  }

  lemma FollowsIth<K(!new)>(all: seq<K>, lt: (K, K) -> bool, i: nat, x: K)
    requires TotalOrder(lt) && Descending(all, lt) && i < |all|
    ensures x in all[i + 1..] <==> x in all && lt(x, all[i])
  {
    if x in all && lt(x, all[i]) {
      var j :| 0 <= j < |all| && all[j] == x;
      assert all[i + 1..][j - i - 1] == x;
    }
  }

  // ---------- one page ----------

  datatype Page<+K> = Page(items: seq<K>, next: Option<K>)

  /** Both tiers replace a limit outside 1..max by a default. */
  function Clamp(limit: int, max: int, fallback: int): int {
    if limit <= 0 || limit > max then fallback else limit
  }

  /** The clamps of one list endpoint: the service's own and dbman's. */
  datatype Limits = Limits(max: int, fallback: int, dbMax: int, dbFallback: int) {
    predicate Valid() { 1 <= fallback <= max && 1 <= dbFallback <= dbMax }

    function PageSize(limit: int): (n: nat)
      requires Valid()
      ensures 1 <= n <= max
    {
      Clamp(limit, max, fallback)
    }

    /** What dbman makes of the service's request for one extra row. */
    function FetchSize(limit: int): (n: nat)
      requires Valid()
      ensures 1 <= n <= dbMax
    {
      Clamp(PageSize(limit) + 1, dbMax, dbFallback)
    }
  }

  /** The page size a client gets for the limit it asks for, and what dbman fetches. */
  lemma PageSizes(limit: int)
    ensures LIST_LIMITS.PageSize(limit) == if 1 <= limit <= 200 then limit else 50
    ensures LIST_LIMITS.FetchSize(limit) == if limit == 200 then 50 else if 1 <= limit <= 199 then limit + 1 else 51
    ensures SEARCH_LIMITS.PageSize(limit) == if 1 <= limit <= 100 then limit else 30
    ensures SEARCH_LIMITS.FetchSize(limit) == if 1 <= limit <= 100 then limit + 1 else 31
  {}

  /** Messages, rooms and the alias audit. */
  const LIST_LIMITS := Limits(200, 50, 200, 50)
  const SEARCH_LIMITS := Limits(100, 30, 200, 30)

  /** The service's page cut. */
  ghost function FetchPage<K(!new)>(rows: set<K>, lt: (K, K) -> bool, cursor: Option<K>, size: nat, fetch: nat): Page<K>
    requires TotalOrder(lt) && size >= 1
  {
    var items := Query(rows, lt, cursor, fetch);
    if |items| > size then Page(items[..size], Some(items[size - 1])) else Page(items, None)
  }

  // ---------- following the cursor ----------

  /** All pages a client gets by following next cursors over unchanged data. */
  ghost function Follow<K(!new)>(rows: set<K>, lt: (K, K) -> bool, cursor: Option<K>, size: nat, fetch: nat): seq<seq<K>>
    requires TotalOrder(lt) && size >= 1
    decreases |Eligible(rows, lt, cursor)|
  {
    var p := FetchPage(rows, lt, cursor, size, fetch);
    if p.next.None? then [p.items]
    else
      EligibleAfter(rows, lt, cursor, size - 1);
      [p.items] + Follow(rows, lt, p.next, size, fetch)
  }

  function Concat<K>(pages: seq<seq<K>>): seq<K> {
    if pages == [] then [] else pages[0] + Concat(pages[1..])
  }

  /** p == max(1, ceil(n / size)) */
  ghost predicate IsPageCount(p: nat, n: nat, size: nat) {
    p >= 1 && n <= p * size && (p == 1 || (p - 1) * size < n)
  }

  /** `n` rows on pages of `size`, all full but the last. */
  ghost predicate Paged<K>(pages: seq<seq<K>>, n: nat, size: nat) {
    && IsPageCount(|pages|, n, size)
    && (forall i :: 0 <= i < |pages| - 1 ==> |pages[i]| == size)
    && |pages[|pages| - 1]| <= size
  }

  /** A sequence cut into full pages and a last one. */
  function Cut<K>(all: seq<K>, size: nat): seq<seq<K>>
    requires size >= 1
  {
    if |all| <= size then [all] else [all[..size]] + Cut(all[size..], size)
  }

  lemma {:induction false} CutConcat<K>(all: seq<K>, size: nat)
    requires size >= 1
    ensures Concat(Cut(all, size)) == all
  {
    var pages := Cut(all, size);
    if |all| <= size {
      assert pages[1..] == [];
    } else {
      CutConcat(all[size..], size);
      assert pages[1..] == Cut(all[size..], size);
      assert all == all[..size] + all[size..];
    }
  }

  lemma {:induction false} CutSizes<K>(all: seq<K>, size: nat)
    requires size >= 1
    ensures var pages := Cut(all, size);
      && |pages| >= 1
      && (forall i :: 0 <= i < |pages| - 1 ==> |pages[i]| == size)
      && |pages[|pages| - 1]| <= size
  {
    if |all| > size { CutSizes(all[size..], size); }
  }

  lemma {:induction false} CutCount<K>(all: seq<K>, size: nat)
    requires size >= 1
    ensures IsPageCount(|Cut(all, size)|, |all|, size)
  {
    if |all| > size {
      CutCount(all[size..], size);
      var p := |Cut(all[size..], size)|;
      assert |Cut(all, size)| == p + 1;
      assert (p + 1) * size == p * size + size;
      assert p * size == (p - 1) * size + size;
    }
  }

  /** What the page cut makes of the remaining rows. */
  lemma FetchPageShape<K(!new)>(rows: set<K>, lt: (K, K) -> bool, cursor: Option<K>, size: nat)
    requires TotalOrder(lt) && size >= 1
    ensures var all := Ordered(Eligible(rows, lt, cursor), lt);
      FetchPage(rows, lt, cursor, size, size + 1) ==
        if |all| > size then Page(all[..size], Some(all[size - 1])) else Page(all, None)
  {
    var all := Ordered(Eligible(rows, lt, cursor), lt);
    if |all| > size {
      assert all[..size + 1][..size] == all[..size];
    }
  }

  /** With one extra row fetched, following the cursor cuts the ordered table. */
  lemma {:induction false} FollowIsCut<K(!new)>(rows: set<K>, lt: (K, K) -> bool, cursor: Option<K>, size: nat)
    requires TotalOrder(lt) && size >= 1
    ensures Follow(rows, lt, cursor, size, size + 1) == Cut(Ordered(Eligible(rows, lt, cursor), lt), size)
    decreases |Eligible(rows, lt, cursor)|
  {
    var all := Ordered(Eligible(rows, lt, cursor), lt);
    FetchPageShape(rows, lt, cursor, size);
    if |all| > size {
      var next := Some(all[size - 1]);
      EligibleAfter(rows, lt, cursor, size - 1);
      FollowIsCut(rows, lt, next, size);
      assert Follow(rows, lt, cursor, size, size + 1) == [all[..size]] + Follow(rows, lt, next, size, size + 1);
      assert Cut(all, size) == [all[..size]] + Cut(all[size..], size);
    }
  }

  /** The pages are the whole table in order: full pages, then a last one. */
  lemma FollowIsExact<K(!new)>(rows: set<K>, lt: (K, K) -> bool, size: nat)
    requires TotalOrder(lt) && size >= 1
    ensures var pages := Follow(rows, lt, None, size, size + 1);
      Concat(pages) == Ordered(rows, lt) && Paged(pages, |rows|, size)
  {
    FollowIsCut(rows, lt, None, size);
    CutConcat(Ordered(rows, lt), size);
    CutPaged(Ordered(rows, lt), size);
  }

  lemma CutPaged<K>(all: seq<K>, size: nat)
    requires size >= 1
    ensures Paged(Cut(all, size), |all|, size)
  {
    CutSizes(all, size);
    CutCount(all, size);
  }

  /** When dbman answers with no extra row, the first page is also the last. */
  lemma FollowStopsEarly<K(!new)>(rows: set<K>, lt: (K, K) -> bool, size: nat, fetch: nat)
    requires TotalOrder(lt) && 1 <= size && fetch <= size
    ensures Follow(rows, lt, None, size, fetch) == [Query(rows, lt, None, fetch)]
  {}

  /** List endpoints are exact for every requested limit except those that leave
      a page size of 200: there dbman turns 201 into 50, so a client sees the
      newest fifty rows and no further page. */
  lemma ListIsExactIff<K(!new)>(rows: set<K>, lt: (K, K) -> bool, limit: int)
    requires TotalOrder(lt)
    ensures var pages := Follow(rows, lt, None, LIST_LIMITS.PageSize(limit), LIST_LIMITS.FetchSize(limit));
      && (Concat(pages) == Ordered(rows, lt) <==> limit != 200 || |rows| <= 50)
      && (1 <= limit <= 199 ==> Paged(pages, |rows|, limit))
      && (limit <= 0 || limit > 200 ==> Paged(pages, |rows|, 50))
      && (limit == 200 ==> pages == [FirstFifty(rows, lt)])
  {
    PageSizes(limit);
    if limit == 200 {
      ListAtTwoHundred(rows, lt);
    } else {
      ListAtSize(rows, lt, limit, if 1 <= limit <= 199 then limit else 50);
    }
  }

  lemma ListAtSize<K(!new)>(rows: set<K>, lt: (K, K) -> bool, limit: int, size: nat)
    requires TotalOrder(lt) && size >= 1 && LIST_LIMITS.PageSize(limit) == size && LIST_LIMITS.FetchSize(limit) == size + 1
    ensures var pages := Follow(rows, lt, None, LIST_LIMITS.PageSize(limit), LIST_LIMITS.FetchSize(limit));
      Concat(pages) == Ordered(rows, lt) && Paged(pages, |rows|, size)
  {
    FollowIsExact(rows, lt, size);
  }

  lemma ListAtTwoHundred<K(!new)>(rows: set<K>, lt: (K, K) -> bool)
    requires TotalOrder(lt)
    ensures var pages := Follow(rows, lt, None, 200, 50);
      && pages == [FirstFifty(rows, lt)]
      && (Concat(pages) == Ordered(rows, lt) <==> |rows| <= 50)
  {
    FollowStopsEarly(rows, lt, 200, 50);
    ConcatOne(FirstFifty(rows, lt));
  }

  ghost function FirstFifty<K(!new)>(rows: set<K>, lt: (K, K) -> bool): seq<K>
    requires TotalOrder(lt)
  {
    var all := Ordered(rows, lt);
    if |all| <= 50 then all else all[..50]
  }

  /** Beyond fifty rows, one is missing from the first fifty. */
  lemma FirstFiftyMisses<K(!new)>(rows: set<K>, lt: (K, K) -> bool) returns (k: K)
    requires TotalOrder(lt) && |rows| > 50
    ensures k in rows && k !in FirstFifty(rows, lt)
  {
    var all := Ordered(rows, lt);
    OrderedIsEnumeration(rows, lt);
    k := all[50];
    assert k in all;
  }

  lemma FirstFiftyInOrder<K(!new)>(rows: set<K>, lt: (K, K) -> bool)
    requires TotalOrder(lt)
    ensures Descending(FirstFifty(rows, lt), lt)
    ensures |rows| <= 50 ==> forall k :: k in rows ==> k in FirstFifty(rows, lt)
  {
    OrderedIsEnumeration(rows, lt);
  }

  lemma ConcatOne<K>(page: seq<K>)
    ensures Concat([page]) == page
  {
    assert [page][1..] == [];
  }

  /** Fifty-one messages suffice to lose one at limit 200. */
  lemma LimitTwoHundredLosesRows<K(!new)>(rows: set<K>, lt: (K, K) -> bool)
    requires TotalOrder(lt) && |rows| == 51
    ensures Concat(Follow(rows, lt, None, LIST_LIMITS.PageSize(200), LIST_LIMITS.FetchSize(200))) == Ordered(rows, lt)[..50]
  {
    ListIsExactIff(rows, lt, 200);
    ConcatOne(FirstFifty(rows, lt));
  }

  /** The next cursor is a row, and fewer rows are left behind it. */
  lemma NextIsRow<K(!new)>(rows: set<K>, lt: (K, K) -> bool, cursor: Option<K>, size: nat, fetch: nat)
    requires TotalOrder(lt) && size >= 1
    requires FetchPage(rows, lt, cursor, size, fetch).next.Some?
    ensures var p := FetchPage(rows, lt, cursor, size, fetch);
      p.next.value in rows && |Eligible(rows, lt, p.next)| < |Eligible(rows, lt, cursor)|
  {
    var all := Ordered(Eligible(rows, lt, cursor), lt);
    NextIsLast(rows, lt, cursor, size, fetch);
    OrderedIsEnumeration(Eligible(rows, lt, cursor), lt);
    assert all[size - 1] in all;
    EligibleAfter(rows, lt, cursor, size - 1);
  }

  lemma NextIsLast<K(!new)>(rows: set<K>, lt: (K, K) -> bool, cursor: Option<K>, size: nat, fetch: nat)
    requires TotalOrder(lt) && size >= 1
    requires FetchPage(rows, lt, cursor, size, fetch).next.Some?
    ensures var all := Ordered(Eligible(rows, lt, cursor), lt);
      size < |all| && FetchPage(rows, lt, cursor, size, fetch).next == Some(all[size - 1])
  {}

  lemma FollowStep<K(!new)>(rows: set<K>, lt: (K, K) -> bool, cursor: Option<K>, size: nat, fetch: nat)
    requires TotalOrder(lt) && size >= 1
    ensures var p := FetchPage(rows, lt, cursor, size, fetch);
      Follow(rows, lt, cursor, size, fetch) ==
        if p.next.None? then [p.items] else [p.items] + Follow(rows, lt, p.next, size, fetch)
  {}

  // ---------- inserts between pages ----------

  /** What a client has seen when page i is answered from tables[i]. */
  datatype Progress<+K> = Progress(pages: seq<seq<K>>, finished: bool)

  ghost function FollowLive<K(!new)>(tables: seq<set<K>>, lt: (K, K) -> bool, cursor: Option<K>, size: nat, fetch: nat): Progress<K>
    requires TotalOrder(lt) && size >= 1
  {
    if tables == [] then Progress([], false)
    else
      var p := FetchPage(tables[0], lt, cursor, size, fetch);
      if p.next.None? then Progress([p.items], true)
      else
        var rest := FollowLive(tables[1..], lt, p.next, size, fetch);
        Progress([p.items] + rest.pages, rest.finished)
  }

  ghost predicate Growing<K(!new)>(base: set<K>, tables: seq<set<K>>) {
    forall i :: 0 <= i < |tables| ==> base <= tables[i]
  }

  ghost predicate Before<K(!new)>(s: seq<K>, lt: (K, K) -> bool, cursor: Option<K>) {
    cursor.None? || forall x :: x in s ==> lt(x, cursor.value)
  }

  /** Nothing repeats while rows come and go, and once the last page is reached no
      row that was there throughout has been missed. */
  lemma {:induction false} LiveNoRepeatNoMiss<K(!new)>(base: set<K>, tables: seq<set<K>>, lt: (K, K) -> bool,
                                                      cursor: Option<K>, size: nat)
    requires TotalOrder(lt) && size >= 1
    requires Growing(base, tables)
    ensures var seen := FollowLive(tables, lt, cursor, size, size + 1);
            var items := Concat(seen.pages);
      && Descending(items, lt)
      && Before(items, lt, cursor)
      && (seen.finished ==> forall k :: k in Eligible(base, lt, cursor) ==> k in items)
    decreases |tables|
  {
    var seen := FollowLive(tables, lt, cursor, size, size + 1);
    if tables != [] {
      var all := Ordered(Eligible(tables[0], lt, cursor), lt);
      var p := FetchPage(tables[0], lt, cursor, size, size + 1);
      if p.next.None? {
        OrderedIsEnumeration(Eligible(tables[0], lt, cursor), lt);
        assert seen.pages[1..] == [];
        assert Concat(seen.pages) == all;
      } else {
        LiveNoRepeatNoMiss(base, tables[1..], lt, p.next, size);
        LiveStep(base, tables[0], lt, cursor, size, Concat(FollowLive(tables[1..], lt, p.next, size, size + 1).pages));
        assert seen.pages[1..] == FollowLive(tables[1..], lt, p.next, size, size + 1).pages;
      }
    }
  }

  /** One full page in front of what the rest of the walk yields. */
  lemma LiveStep<K(!new)>(base: set<K>, table: set<K>, lt: (K, K) -> bool, cursor: Option<K>, size: nat, rest: seq<K>)
    requires TotalOrder(lt) && size >= 1 && base <= table
    requires |Eligible(table, lt, cursor)| > size
    requires var c := FetchPage(table, lt, cursor, size, size + 1).next;
      c.Some? && Descending(rest, lt) && Before(rest, lt, c)
    ensures var p := FetchPage(table, lt, cursor, size, size + 1);
      && Descending(p.items + rest, lt)
      && Before(p.items + rest, lt, cursor)
      && (forall k :: k in Eligible(base, lt, cursor) ==> k in p.items || k in Eligible(base, lt, p.next))
  {
    var all := Ordered(Eligible(table, lt, cursor), lt);
    var p := FetchPage(table, lt, cursor, size, size + 1);
    FetchPageShape(table, lt, cursor, size);
    OrderedIsEnumeration(Eligible(table, lt, cursor), lt);
    PageThenRest(all, size, rest, lt);
    if cursor.Some? {
      assert all[size - 1] in all && lt(all[size - 1], cursor.value);
      forall x | x in p.items + rest ensures lt(x, cursor.value) {
        if x in rest {
          assert lt(x, all[size - 1]);
        } else {
          assert x in all && x in Eligible(table, lt, cursor);
        }
      }
    }
    forall k | k in Eligible(base, lt, cursor) ensures k in p.items || k in Eligible(base, lt, p.next) {
      assert k in all;
      var i :| 0 <= i < |all| && all[i] == k;
      if i < size { assert p.items[i] == k; }
    }
  }

  lemma PageThenRest<K(!new)>(all: seq<K>, size: nat, rest: seq<K>, lt: (K, K) -> bool)
    requires TotalOrder(lt) && Descending(all, lt) && 1 <= size <= |all|
    requires Descending(rest, lt) && Before(rest, lt, Some(all[size - 1]))
    ensures Descending(all[..size] + rest, lt)
  {
    var s := all[..size] + rest;
    forall i, j | 0 <= i < j < |s| ensures lt(s[j], s[i]) {
      if j < size {
        assert s[i] == all[i] && s[j] == all[j];
      } else if size <= i {
        assert s[i] == rest[i - size] && s[j] == rest[j - size];
      } else {
        assert s[i] == all[i] && s[j] == rest[j - size] && s[j] in rest;
        assert i < size - 1 ==> lt(all[size - 1], all[i]);
      }
    }
  }

  /** Rows have only been added, and each sorts above the whole snapshot. */
  ghost predicate Newer<K(!new)>(base: set<K>, table: set<K>, lt: (K, K) -> bool) {
    base <= table && forall k, b :: k in table && k !in base && b in base ==> lt(b, k)
  }

  ghost predicate OnlyNewer<K(!new)>(base: set<K>, tables: seq<set<K>>, lt: (K, K) -> bool) {
    forall i :: 0 <= i < |tables| ==> Newer(base, tables[i], lt)
  }

  /** If only newer rows arrive, the pages are those of the first request's data. */
  lemma {:induction false} SnapshotPages<K(!new)>(base: set<K>, tables: seq<set<K>>, lt: (K, K) -> bool,
                                                 cursor: Option<K>, size: nat)
    requires TotalOrder(lt) && size >= 1
    requires OnlyNewer(base, tables, lt)
    requires if cursor.None? then tables != [] && tables[0] == base else cursor.value in base
    requires |tables| >= |Follow(base, lt, cursor, size, size + 1)|
    ensures FollowLive(tables, lt, cursor, size, size + 1) == Progress(Follow(base, lt, cursor, size, size + 1), true)
    decreases |tables|
  {
    var p := FetchPage(base, lt, cursor, size, size + 1);
    FollowStep(base, lt, cursor, size, size + 1);
    NewerAt(base, tables, lt, 0);
    SamePage(base, tables[0], lt, cursor, size, size + 1);
    FollowLiveStep(tables, lt, cursor, size, size + 1);
    if p.next.Some? {
      NextIsRow(base, lt, cursor, size, size + 1);
      NewerTail(base, tables, lt);
      SnapshotPages(base, tables[1..], lt, p.next, size);
    }
  }

  lemma FollowLiveStep<K(!new)>(tables: seq<set<K>>, lt: (K, K) -> bool, cursor: Option<K>, size: nat, fetch: nat)
    requires TotalOrder(lt) && size >= 1 && tables != []
    ensures var p := FetchPage(tables[0], lt, cursor, size, fetch);
      FollowLive(tables, lt, cursor, size, fetch) ==
        if p.next.None? then Progress([p.items], true)
        else
          var rest := FollowLive(tables[1..], lt, p.next, size, fetch);
          Progress([p.items] + rest.pages, rest.finished)
  {}

  lemma NewerTail<K(!new)>(base: set<K>, tables: seq<set<K>>, lt: (K, K) -> bool)
    requires OnlyNewer(base, tables, lt) && tables != []
    ensures OnlyNewer(base, tables[1..], lt)
  {
    forall i | 0 <= i < |tables| - 1 ensures Newer(base, tables[1..][i], lt) { assert tables[1..][i] == tables[i + 1]; }
  }

  lemma NewerAt<K(!new)>(base: set<K>, tables: seq<set<K>>, lt: (K, K) -> bool, i: nat)
    requires OnlyNewer(base, tables, lt) && i < |tables|
    ensures Newer(base, tables[i], lt)
  {}

  lemma SamePage<K(!new)>(base: set<K>, table: set<K>, lt: (K, K) -> bool, cursor: Option<K>, size: nat, fetch: nat)
    requires TotalOrder(lt) && Newer(base, table, lt) && size >= 1
    requires if cursor.None? then table == base else cursor.value in base
    ensures FetchPage(table, lt, cursor, size, fetch) == FetchPage(base, lt, cursor, size, fetch)
  {
    SameEligible(base, table, lt, cursor);
  }

  lemma SameEligible<K(!new)>(base: set<K>, table: set<K>, lt: (K, K) -> bool, cursor: Option<K>)
    requires TotalOrder(lt) && Newer(base, table, lt)
    requires if cursor.None? then table == base else cursor.value in base
    ensures Eligible(table, lt, cursor) == Eligible(base, lt, cursor)
  {
    if cursor.Some? {
      forall k | k in table && k !in base ensures !lt(k, cursor.value) {
        assert lt(cursor.value, k);
      }
    }
  }

  /** What a client sees of the messages while others are posted: nothing twice, in
      order; and once it has seen the last page, everything that was there at the start,
      exactly when the limit is not 200 or at most fifty rows were there. */
  lemma LiveListing<K(!new)>(tables: seq<set<K>>, lt: (K, K) -> bool, limit: int)
    requires TotalOrder(lt) && tables != [] && Growing(tables[0], tables)
    ensures var seen := FollowLive(tables, lt, None, LIST_LIMITS.PageSize(limit), LIST_LIMITS.FetchSize(limit));
            var items := Concat(seen.pages);
      && Descending(items, lt)
      && (seen.finished ==> ((forall k :: k in tables[0] ==> k in items) <==> limit != 200 || |tables[0]| <= 50))
  {
    if limit != 200 {
      LiveNoRepeatNoMiss(tables[0], tables, lt, None, LIST_LIMITS.PageSize(limit));
    } else {
      LiveTwoHundred(tables, lt);
      FirstFiftyInOrder(tables[0], lt);
      if |tables[0]| > 50 { var k := FirstFiftyMisses(tables[0], lt); }
    }
  }

  lemma LiveTwoHundred<K(!new)>(tables: seq<set<K>>, lt: (K, K) -> bool)
    requires TotalOrder(lt) && tables != []
    ensures var seen := FollowLive(tables, lt, None, LIST_LIMITS.PageSize(200), LIST_LIMITS.FetchSize(200));
      seen == Progress([FirstFifty(tables[0], lt)], true) && Concat(seen.pages) == FirstFifty(tables[0], lt)
  {
    ConcatOne(FirstFifty(tables[0], lt));
  }

  /** If only newer rows arrive, a client sees the first request's data in order,
      exactly when the limit is not 200 or at most fifty rows were there. */
  lemma SnapshotListing<K(!new)>(tables: seq<set<K>>, lt: (K, K) -> bool, limit: int)
    requires TotalOrder(lt) && tables != [] && OnlyNewer(tables[0], tables, lt)
    requires |tables| >= |Follow(tables[0], lt, None, LIST_LIMITS.PageSize(limit), LIST_LIMITS.FetchSize(limit))|
    ensures var seen := FollowLive(tables, lt, None, LIST_LIMITS.PageSize(limit), LIST_LIMITS.FetchSize(limit));
      && seen.finished
      && (Concat(seen.pages) == Ordered(tables[0], lt) <==> limit != 200 || |tables[0]| <= 50)
  {
    if limit != 200 {
      SnapshotPages(tables[0], tables, lt, None, LIST_LIMITS.PageSize(limit));
      FollowIsExact(tables[0], lt, LIST_LIMITS.PageSize(limit));
    } else {
      LiveTwoHundred(tables, lt);
    }
  }

  // ---------- re-ranking of the first search page ----------

  function Select<K(==)>(items: seq<K>, ids: set<K>, wanted: bool): seq<K> {
    if items == [] then []
    else
      var rest := Select(items[1..], ids, wanted);
      if (items[0] in ids) == wanted then [items[0]] + rest else rest
  }

  lemma {:induction false} SelectAppend<K>(items: seq<K>, x: K, ids: set<K>, wanted: bool)
    ensures Select(items + [x], ids, wanted)
         == Select(items, ids, wanted) + (if (x in ids) == wanted then [x] else [])
  {
    if items != [] {
      SelectAppend(items[1..], x, ids, wanted);
      assert (items + [x])[1..] == items[1..] + [x];
    } else {
      assert (items + [x])[1..] == [];
    }
  }

  lemma {:induction false} SelectSplits<K>(items: seq<K>, ids: set<K>)
    ensures multiset(Select(items, ids, true)) + multiset(Select(items, ids, false)) == multiset(items)
  {
    if items != [] {
      SelectSplits(items[1..], ids);
      assert items == [items[0]] + items[1..];
    }
  }

  lemma {:induction false} SelectRest<K>(items: seq<K>, ids: set<K>)
    requires Select(items, ids, true) == []
    ensures Select(items, ids, false) == items
  {
    if items != [] {
      SelectRest(items[1..], ids);
      assert items == [items[0]] + items[1..];
    }
  }

  /** The vector service's hits move to the front; both groups keep their order. */
  function Reranked<K(==)>(items: seq<K>, ids: set<K>): seq<K> {
    Select(items, ids, true) + Select(items, ids, false)
  }

  /** Selecting goes row by row and keeps the order. */
  lemma {:induction false} SelectLaws<K>(a: seq<K>, b: seq<K>, x: K, ids: set<K>, wanted: bool)
    ensures Select([], ids, wanted) == []
    ensures Select([x], ids, wanted) == if (x in ids) == wanted then [x] else []
    ensures Select(a + b, ids, wanted) == Select(a, ids, wanted) + Select(b, ids, wanted)
  {
    assert [x][1..] == [];
    if a == [] {
      assert a + b == b;
    } else {
      assert (a + b)[1..] == a[1..] + b;
      SelectLaws(a[1..], b, x, ids, wanted);
    }
  }

  /** First all hits, then all other rows. */
  lemma {:induction false} HitsComeFirst<K>(items: seq<K>, ids: set<K>)
    ensures var n := |Select(items, ids, true)|;
      && n <= |Reranked(items, ids)| && Reranked(items, ids)[..n] == Select(items, ids, true)
      && Reranked(items, ids)[n..] == Select(items, ids, false)
    ensures forall y :: y in Select(items, ids, true) ==> y in ids
    ensures forall y :: y in Select(items, ids, false) ==> y !in ids
  {
    if items != [] { HitsComeFirst(items[1..], ids); }
  }

  method Rerank<K(==)>(items: seq<K>, hits: seq<K>) returns (ranked: seq<K>)
    ensures ranked == Reranked(items, set h | h in hits)
  {
    ghost var ids := set h | h in hits;
    if |hits| == 0 {
      SelectNothing(items, ids);
      SelectRest(items, ids);
      return items;
    }
    var prefer := RankOf(hits);
    var scored := [];
    for i := 0 to |items|
      invariant scored == Select(items[..i], ids, true)
    {
      assert items[..i + 1] == items[..i] + [items[i]];
      SelectAppend(items[..i], items[i], ids, true);
      if items[i] in prefer { scored := scored + [items[i]]; }
    }
    assert items[..|items|] == items;
    if |scored| == 0 {
      SelectRest(items, ids);
      return items;
    }
    for i := 0 to |items|
      invariant scored == Select(items, ids, true) + Select(items[..i], ids, false)
    {
      assert items[..i + 1] == items[..i] + [items[i]];
      SelectAppend(items[..i], items[i], ids, false);
      if items[i] !in prefer { scored := scored + [items[i]]; }
    }
    ranked := scored;
  }

  /** The preference map of the semantic hits; only its domain matters. */
  method RankOf<K(==)>(hits: seq<K>) returns (prefer: map<K, int>)
    ensures forall k :: k in prefer <==> k in hits
  {
    prefer := map[];
    for i := 0 to |hits|
      invariant forall k :: k in prefer <==> k in hits[..i]
    {
      assert hits[..i + 1] == hits[..i] + [hits[i]];
      prefer := prefer[hits[i] := i];
    }
    assert hits[..|hits|] == hits;
  }

  lemma {:induction false} SelectNothing<K>(items: seq<K>, ids: set<K>)
    requires ids == {}
    ensures Select(items, ids, true) == []
  {
    if items != [] { SelectNothing(items[1..], ids); }
  }

  /** Search pages hold every match exactly once, whatever the vector service
      answers for the first page and whatever limit is asked for. */
  lemma SearchIsExact<K(!new)>(rows: set<K>, lt: (K, K) -> bool, limit: int, hits: set<K>)
    requires TotalOrder(lt)
    ensures var pages := Follow(rows, lt, None, SEARCH_LIMITS.PageSize(limit), SEARCH_LIMITS.FetchSize(limit));
      && multiset(Concat([Reranked(pages[0], hits)] + pages[1..])) == multiset(rows)
      && (1 <= limit <= 100 ==> Paged(pages, |rows|, limit))
      && (limit <= 0 || limit > 100 ==> Paged(pages, |rows|, 30))
  {
    PageSizes(limit);
    SearchAtSize(rows, lt, SEARCH_LIMITS.PageSize(limit), hits);
  }

  lemma SearchAtSize<K(!new)>(rows: set<K>, lt: (K, K) -> bool, size: nat, hits: set<K>)
    requires TotalOrder(lt) && size >= 1
    ensures var pages := Follow(rows, lt, None, size, size + 1);
      Paged(pages, |rows|, size) && multiset(Concat([Reranked(pages[0], hits)] + pages[1..])) == multiset(rows)
  {
    FollowIsExact(rows, lt, size);
    RerankedFirstPage(Follow(rows, lt, None, size, size + 1), hits);
    OrderedMultiset(rows, lt);
  }

  lemma RerankedFirstPage<K>(pages: seq<seq<K>>, hits: set<K>)
    requires pages != []
    ensures multiset(Concat([Reranked(pages[0], hits)] + pages[1..])) == multiset(Concat(pages))
  {
    SelectSplits(pages[0], hits);
    var seen := [Reranked(pages[0], hits)] + pages[1..];
    assert seen[1..] == pages[1..];
    assert Concat(seen) == Reranked(pages[0], hits) + Concat(pages[1..]);
    assert Concat(pages) == pages[0] + Concat(pages[1..]);
  }

  lemma {:induction false} OrderedMultiset<K(!new)>(rows: set<K>, lt: (K, K) -> bool)
    requires TotalOrder(lt)
    ensures multiset(Ordered(rows, lt)) == multiset(rows)
  {
    OrderedIsEnumeration(rows, lt);
    DistinctMultiset(Ordered(rows, lt), lt);
    forall k ensures multiset(Ordered(rows, lt))[k] == multiset(rows)[k] {
      assert k in Ordered(rows, lt) <==> k in rows;
      assert k in multiset(Ordered(rows, lt)) <==> k in Ordered(rows, lt);
    }
  }

  lemma {:induction false} DistinctMultiset<K(!new)>(s: seq<K>, lt: (K, K) -> bool)
    requires TotalOrder(lt) && Descending(s, lt)
    ensures forall k :: multiset(s)[k] <= 1
  {
    if s != [] {
      DistinctMultiset(s[1..], lt);
      SplitHead(s, s[0], lt);
      assert s == [s[0]] + s[1..];
      assert s[0] !in multiset(s[1..]);
    }
  }
}
