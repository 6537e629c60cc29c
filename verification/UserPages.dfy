/**
 The user list of `user.repository.ts`: keyset pages in ascending (created_at, id) order, over the
 cursor helpers of `pagination.util.ts`. As for the audit pages, rows carry microseconds and a
 cursor milliseconds; here the truncated cursor lets rows through again instead of losing them.
 */
module UserPages {
  import opened Prelude
  import opened StrictSort

  datatype User = User(id: nat, createdAt: nat, status: string, deleted: bool)

  /** A missing or empty filter is none; `like` is the case-insensitive pattern match. */
  datatype Query = Query(status: string, search: string, like: (string, User) -> bool)

  predicate Matches(q: Query, u: User) {
    !u.deleted && (q.status != "" ==> u.status == q.status) && (q.search != "" ==> q.like(q.search, u))
  }

  datatype Cursor = Cursor(createdMs: nat, id: nat)

  /** `createOpaqueCursorFromRow`, through a millisecond `Date`. */
  function Mint(u: User): Cursor {
    Cursor(u.createdAt / 1000, u.id)
  }

  /** `buildAscendingCreatedAtIdCursorCondition`. */
  predicate After(c: Option<Cursor>, u: User) {
    c.Some? ==>
      || (u.createdAt > c.value.createdMs * 1000 && u.id != c.value.id)
      || (u.createdAt == c.value.createdMs * 1000 && u.id > c.value.id)
  }

  /** `ORDER BY created_at, id`. */
  predicate Before(a: User, b: User) {
    a.createdAt < b.createdAt || (a.createdAt == b.createdAt && a.id < b.id)
  }

  predicate DistinctIds(table: seq<User>) {
    forall i, j :: 0 <= i < j < |table| ==> table[i].id != table[j].id
  }

  function Listing(table: seq<User>, q: Query, after: Option<Cursor>): seq<User> {
    if table == [] then []
    else if Matches(q, table[0]) && After(after, table[0]) then Insert(Before, Listing(table[1..], q, after), table[0])
    else Listing(table[1..], q, after)
  }

  datatype Page = Page(items: seq<User>, next: Option<Cursor>)

  function PageOf(listing: seq<User>, limit: nat): Page {
    if |listing| <= limit then Page(listing, None)
    else Page(listing[..limit], if limit == 0 then None else Some(Mint(listing[limit - 1])))
  }

  datatype Condition = NotDeleted | StatusIs(status: string) | Like(search: string) | AfterPosition(position: Cursor)

  predicate Holds(q: Query, c: Condition, u: User) {
    match c
    case NotDeleted => !u.deleted
    case StatusIs(s) => u.status == s
    case Like(s) => q.like(s, u)
    case AfterPosition(p) => After(Some(p), u)
  }

  predicate AllHold(q: Query, cs: seq<Condition>, u: User) {
    forall i :: 0 <= i < |cs| ==> Holds(q, cs[i], u)
  }

  /** `LIST_TOTAL_COUNT_CAP`. */
  const TOTAL_CAP: nat := 10_000

  /** The users table as the statement of `findMany` sees it. */
  class Users {
    var rows: seq<User>

    constructor ()
      ensures rows == []
    {
      rows := [];
    }

    method Push(q: Query, cs: seq<Condition>, c: Condition) returns (out: seq<Condition>)
      ensures forall u :: AllHold(q, out, u) <==> AllHold(q, cs, u) && Holds(q, c, u)
    {
      out := cs + [c];
      forall u ensures AllHold(q, out, u) <==> AllHold(q, cs, u) && Holds(q, c, u) {
        assert out[|cs|] == c && forall i :: 0 <= i < |cs| ==> out[i] == cs[i];
      }
    }

    /** The filter conditions of `findMany`, pushed one by one. */
    method BuildFilterConditions(q: Query) returns (conditions: seq<Condition>)
      ensures forall u :: AllHold(q, conditions, u) <==> Matches(q, u)
    {
      conditions := Push(q, [], NotDeleted);
      if q.status != "" { conditions := Push(q, conditions, StatusIs(q.status)); }
      if q.search != "" { conditions := Push(q, conditions, Like(q.search)); }
    }

    /** The page is cut from the front of the listing. The count ignores the cursor and stops at the
        cap. */
    method FindMany(q: Query, after: Option<Cursor>, limit: nat, includeTotal: bool)
      returns (page: Page, total: Option<nat>)
      ensures page == PageOf(Listing(rows, q, after), limit)
      ensures var listing := Listing(rows, q, after);
              && page.items <= listing && |page.items| == Min(|listing|, limit)
              && page.next ==
                 if |listing| <= limit || limit == 0 then None
                 else Some(Cursor(page.items[limit - 1].createdAt / 1000, page.items[limit - 1].id))
      ensures total == if includeTotal then Some(Min(|Listing(rows, q, None)|, 10_000)) else None
    {
      var filterConditions := BuildFilterConditions(q);
      var conditions := filterConditions;
      if after.Some? { conditions := Push(q, conditions, AfterPosition(after.value)); }
      var fetched := Select(q, conditions, after, limit + 1);
      total := None;
      if includeTotal {
        var counted := Select(q, filterConditions, None, TOTAL_CAP);
        total := Some(|counted|);
      }
      page := CutPage(Listing(rows, q, after), fetched, limit);
    }

    method CutPage(ghost listing: seq<User>, fetched: seq<User>, limit: nat) returns (page: Page)
      requires fetched == if |listing| <= limit + 1 then listing else listing[..limit + 1]
      ensures page == PageOf(listing, limit)
      ensures page.items <= listing && |page.items| == Min(|listing|, limit)
      ensures page.next ==
              if |listing| <= limit || limit == 0 then None
              else Some(Cursor(page.items[limit - 1].createdAt / 1000, page.items[limit - 1].id))
    {
      var hasMore := |fetched| > limit;
      var items := if hasMore then fetched[..limit] else fetched;
      page := Page(items, if hasMore && |items| > 0 then Some(Mint(items[|items| - 1])) else None);
    }

    /** `SELECT … WHERE conditions ORDER BY created_at, id LIMIT count`. */
    method Select(q: Query, cs: seq<Condition>, ghost after: Option<Cursor>, count: nat) returns (fetched: seq<User>)
      requires forall u :: AllHold(q, cs, u) <==> Matches(q, u) && After(after, u)
      ensures var listing := Listing(rows, q, after);
              fetched == if |listing| <= count then listing else listing[..count]
    {
      var sorted: seq<User> := [];
      var i := |rows|;
      while i > 0
        invariant 0 <= i <= |rows|
        invariant sorted == Listing(rows[i..], q, after)
      {
        i := i - 1;
        assert rows[i..][1..] == rows[i + 1..];
        if AllHold(q, cs, rows[i]) { sorted := Insert(Before, sorted, rows[i]); }
      }
      assert rows[0..] == rows;
      fetched := if |sorted| <= count then sorted else sorted[..count];
    }
  }

  lemma {:induction false} ListingHas(table: seq<User>, q: Query, after: Option<Cursor>, u: User)
    ensures u in Listing(table, q, after) <==> u in table && Matches(q, u) && After(after, u)
  {
    if table != [] {
      ListingHas(table[1..], q, after, u);
      InsertMembers(Before, Listing(table[1..], q, after), table[0]);
      assert u in table <==> u == table[0] || u in table[1..];
    }
  }

  /** The listing holds exactly the users that are not deleted, differ from no given filter and lie past
      the cursor: of a later microsecond than its millisecond, other than its own, or at it with a
      greater id. */
  lemma ListedExactly(table: seq<User>, q: Query, after: Option<Cursor>, u: User)
    ensures u in Listing(table, q, after) <==>
            && u in table && !u.deleted
            && (q.status == "" || q.status == u.status)
            && (q.search == "" || q.like(q.search, u))
            && (after.None?
                || (after.value.createdMs * 1000 < u.createdAt && after.value.id != u.id)
                || (after.value.createdMs * 1000 == u.createdAt && after.value.id < u.id))
  {
    ListingHas(table, q, after, u);
  }

  lemma BeforeIsOrder()
    ensures StrictOrder(Before)
  {
  }

  lemma {:induction false} ListingSorted(table: seq<User>, q: Query, after: Option<Cursor>)
    requires DistinctIds(table)
    ensures Sorted(Before, Listing(table, q, after))
  {
    if table != [] {
      var rest := Listing(table[1..], q, after);
      ListingSorted(table[1..], q, after);
      forall i | 0 <= i < |rest| ensures Before(table[0], rest[i]) || Before(rest[i], table[0]) {
        ListingHas(table[1..], q, after, rest[i]);
        assert rest[i] in rest;
      }
      BeforeIsOrder();
      InsertSorts(Before, rest, table[0]);
    }
  }

  /** The earliest user comes first, and among users of one microsecond the one with the least id. */
  lemma ListedInOrder(table: seq<User>, q: Query, after: Option<Cursor>, i: nat, j: nat)
    requires DistinctIds(table) && i < j < |Listing(table, q, after)|
    ensures var u, v := Listing(table, q, after)[i], Listing(table, q, after)[j];
            u.createdAt < v.createdAt || (u.createdAt == v.createdAt && u.id < v.id)
  {
    ListingSorted(table, q, after);
    assert Before(Listing(table, q, after)[i], Listing(table, q, after)[j]);
  }

  lemma ListedRow(table: seq<User>, q: Query, after: Option<Cursor>, i: nat)
    requires i < |Listing(table, q, after)|
    ensures var u := Listing(table, q, after)[i]; u in table && Matches(q, u) && After(after, u)
  {
    assert Listing(table, q, after)[i] in Listing(table, q, after);
    ListingHas(table, q, after, Listing(table, q, after)[i]);
  }

  lemma OtherId(table: seq<User>, u: User, v: User)
    requires DistinctIds(table) && u in table && v in table && u != v
    ensures u.id != v.id
  {
    var i :| 0 <= i < |table| && table[i] == u;
    var j :| 0 <= j < |table| && table[j] == v;
    assert i != j;
  }

  // ----- A walk while the table changes -----

  type PageSize = n: nat | 1 <= n witness 1

  /** The listing that the `n`-th request cuts its page from. */
  type Reader = (nat, Option<Cursor>) -> seq<User>

  /** The `n`-th request reads `tables(n)`. */
  function ReaderOf(tables: nat -> seq<User>, q: Query): Reader {
    (n: nat, after: Option<Cursor>) => Listing(tables(n), q, after)
  }

  /** `last` is the row whose cursor the next page starts from. */
  datatype Walk = Walk(last: Option<User>, done: bool, listed: seq<User>)

  function Position(last: Option<User>): Option<Cursor> {
    if last.None? then None else Some(Mint(last.value))
  }

  function NextPage(listing: seq<User>, limit: PageSize, w: Walk): Walk {
    if w.done then w
    else if |listing| <= limit then w.(done := true, listed := w.listed + listing)
    else Walk(Some(listing[limit - 1]), false, w.listed + listing[..limit])
  }

  /** The walk after `n` pages from no cursor; the `n`-th request asks for `limits(n)` rows. */
  function WalkOf(reader: Reader, limits: nat -> PageSize, n: nat): Walk {
    if n == 0 then Walk(None, false, [])
    else
      var w := WalkOf(reader, limits, n - 1);
      NextPage(reader(n - 1, Position(w.last)), limits(n - 1), w)
  }

  /** Two versions of one user share their creation time. */
  predicate SameBirth(u: User, v: User) {
    u.id == v.id ==> u.createdAt == v.createdAt
  }

  ghost predicate Consistent(universe: seq<User>) {
    forall u, v :: u in universe && v in universe ==> SameBirth(u, v)
  }

  /** `universe` holds every version of every user that is ever in the table. */
  ghost predicate Within(tables: nat -> seq<User>, universe: seq<User>) {
    Consistent(universe) && forall n: nat :: DistinctIds(tables(n)) && forall u :: u in tables(n) ==> u in universe
  }

  predicate Listed(rows: seq<User>, id: nat) {
    exists i :: 0 <= i < |rows| && rows[i].id == id
  }

  ghost predicate MatchesIn(table: seq<User>, q: Query, id: nat) {
    exists u :: u in table && u.id == id && Matches(q, u)
  }

  /** The user matches throughout, possibly in different versions. */
  ghost predicate Remains(tables: nat -> seq<User>, q: Query, id: nat) {
    forall n: nat :: MatchesIn(tables(n), q, id)
  }

  /** The walk has ended and has listed every user that matched throughout. */
  ghost predicate CompleteAt(tables: nat -> seq<User>, q: Query, w: Walk) {
    w.done && forall id: nat :: Remains(tables, q, id) ==> Listed(w.listed, id)
  }

  ghost predicate Completes(tables: nat -> seq<User>, q: Query, limits: nat -> PageSize) {
    exists n: nat :: CompleteAt(tables, q, WalkOf(ReaderOf(tables, q), limits, n))
  }

  /** The ids of the users created in millisecond `ms` of whom some version matches. */
  function Crowd(table: seq<User>, q: Query, ms: nat): set<nat> {
    set u | u in table && Matches(q, u) && u.createdAt / 1000 == ms :: u.id
  }

  ghost predicate AtMostPerMillisecond(table: seq<User>, q: Query, m: nat) {
    forall ms: nat :: |Crowd(table, q, ms)| <= m
  }

  // ----- Nothing is lost -----

  /** A cursor never hides a row that comes after its own. */
  lemma LaterIsAfter(c: User, u: User)
    requires Before(c, u) && c.id != u.id
    ensures After(Some(Mint(c)), u)
  {
  }

  /** What a cursor lets through again lies in its own millisecond, and is not its own row. */
  lemma RepeatsShareMillisecond(c: User, u: User)
    requires After(Some(Mint(c)), u) && !Before(c, u)
    ensures u.createdAt / 1000 == c.createdAt / 1000 && u.id != c.id
  {
  }

  ghost predicate Known(universe: seq<User>, q: Query, last: Option<User>) {
    last.Some? ==> last.value in universe && Matches(q, last.value)
  }

  /** The walk has passed the place of `u`. */
  predicate Passed(w: Walk, u: User) {
    w.done || (w.last.Some? && !Before(w.last.value, u))
  }

  /** Every user that matches throughout, up to the last one listed, has been listed. */
  ghost predicate Covers(universe: seq<User>, tables: nat -> seq<User>, q: Query, w: Walk) {
    forall u :: u in universe && Remains(tables, q, u.id) && Passed(w, u) ==> Listed(w.listed, u.id)
  }

  /** A row past the walk's position is on the next listing. */
  lemma AheadIsListed(universe: seq<User>, table: seq<User>, q: Query, last: Option<User>, u: User)
    requires Consistent(universe) && u in table && u in universe && Matches(q, u) && Known(universe, q, last)
    requires last.Some? ==> Before(last.value, u)
    ensures u in Listing(table, q, Position(last))
  {
    if last.Some? {
      assert SameBirth(last.value, u);
      LaterIsAfter(last.value, u);
    }
    ListingHas(table, q, Position(last), u);
  }

  /** A user ahead of the walk is on this page, or still ahead after it. */
  lemma CoversUser(universe: seq<User>, table: seq<User>, q: Query, limit: PageSize, w: Walk, u: User)
    requires DistinctIds(table) && Consistent(universe) && Known(universe, q, w.last)
    requires forall x :: x in table ==> x in universe
    requires !w.done && (w.last.Some? ==> Before(w.last.value, u)) && u in universe && MatchesIn(table, q, u.id)
    requires Passed(NextPage(Listing(table, q, Position(w.last)), limit, w), u)
    ensures Listed(NextPage(Listing(table, q, Position(w.last)), limit, w).listed, u.id)
  {
    var listing := Listing(table, q, Position(w.last));
    var w' := NextPage(listing, limit, w);
    var v :| v in table && v.id == u.id && Matches(q, v);
    assert SameBirth(u, v);
    AheadIsListed(universe, table, q, w.last, v);
    ListingSorted(table, q, Position(w.last));
    var k :| 0 <= k < |listing| && listing[k] == v;
    assert |listing| > limit ==> k < limit;
    assert w'.listed[|w.listed| + k] == v;
  }

  lemma CoversStep(universe: seq<User>, tables: nat -> seq<User>, q: Query, limit: PageSize, n: nat, w: Walk)
    requires Within(tables, universe) && Known(universe, q, w.last) && Covers(universe, tables, q, w)
    ensures var w' := NextPage(Listing(tables(n), q, Position(w.last)), limit, w);
            Known(universe, q, w'.last) && Covers(universe, tables, q, w')
  {
    var listing := Listing(tables(n), q, Position(w.last));
    var w' := NextPage(listing, limit, w);
    if !w.done && |listing| > limit { ListedRow(tables(n), q, Position(w.last), limit - 1); }
    forall u | u in universe && Remains(tables, q, u.id) && Passed(w', u) ensures Listed(w'.listed, u.id) {
      assert MatchesIn(tables(n), q, u.id);
      if Passed(w, u) {
        var i :| 0 <= i < |w.listed| && w.listed[i].id == u.id;
        assert w'.listed[i] == w.listed[i];
      } else {
        CoversUser(universe, tables(n), q, limit, w, u);
      }
    }
  }

  // ----- Progress -----

  function FirstIds(rows: seq<User>, n: nat): set<nat>
    requires n <= |rows|
  {
    if n == 0 then {} else FirstIds(rows, n - 1) + {rows[n - 1].id}
  }

  lemma {:induction false} FirstIdsHas(rows: seq<User>, n: nat, x: nat)
    requires n <= |rows|
    ensures x in FirstIds(rows, n) <==> exists i :: 0 <= i < n && rows[i].id == x
  {
    if n > 0 { FirstIdsHas(rows, n - 1, x); }
  }

  lemma {:induction false} FirstIdsSize(rows: seq<User>, n: nat)
    requires n <= |rows| && DistinctIds(rows)
    ensures |FirstIds(rows, n)| == n
  {
    if n > 0 {
      FirstIdsSize(rows, n - 1);
      FirstIdsHas(rows, n - 1, rows[n - 1].id);
    }
  }

  lemma SortedDistinct(table: seq<User>, rows: seq<User>)
    requires DistinctIds(table) && Sorted(Before, rows) && forall i :: 0 <= i < |rows| ==> rows[i] in table
    ensures DistinctIds(rows)
  {
    forall i, j | 0 <= i < j < |rows| ensures rows[i].id != rows[j].id {
      assert Before(rows[i], rows[j]);
      OtherId(table, rows[i], rows[j]);
    }
  }

  /** A page that ends no later than it started repeats its whole length within one millisecond. */
  lemma StuckPageIsCrowded(universe: seq<User>, table: seq<User>, q: Query, limit: PageSize, c: User)
    requires DistinctIds(table) && forall u :: u in table ==> u in universe
    requires c in universe && Matches(q, c)
    requires |Listing(table, q, Some(Mint(c)))| > limit && !Before(c, Listing(table, q, Some(Mint(c)))[limit - 1])
    ensures |Crowd(universe, q, c.createdAt / 1000)| > limit
  {
    var listing, crowd := Listing(table, q, Some(Mint(c))), Crowd(universe, q, c.createdAt / 1000);
    ListingSorted(table, q, Some(Mint(c)));
    forall i | 0 <= i < |listing| ensures listing[i] in table { ListedRow(table, q, Some(Mint(c)), i); }
    SortedDistinct(table, listing);
    FirstIdsSize(listing, limit);
    var ids := FirstIds(listing, limit);
    forall x | x in ids ensures x in crowd && x != c.id {
      FirstIdsHas(listing, limit, x);
      var i :| 0 <= i < limit && listing[i].id == x;
      StuckRow(table, q, limit, c, i);
      assert listing[i] in universe;
    }
    SubsetSize(ids + {c.id}, crowd);
  }

  lemma StuckRow(table: seq<User>, q: Query, limit: nat, c: User, i: nat)
    requires DistinctIds(table) && i < limit < |Listing(table, q, Some(Mint(c)))|
    requires !Before(c, Listing(table, q, Some(Mint(c)))[limit - 1])
    ensures var u := Listing(table, q, Some(Mint(c)))[i];
            u.id != c.id && u in table && Matches(q, u) && u.createdAt / 1000 == c.createdAt / 1000
  {
    var listing := Listing(table, q, Some(Mint(c)));
    ListedRow(table, q, Some(Mint(c)), i);
    ListingSorted(table, q, Some(Mint(c)));
    assert i < limit - 1 ==> Before(listing[i], listing[limit - 1]);
    RepeatsShareMillisecond(c, listing[i]);
  }

  function Ahead(universe: seq<User>, last: Option<User>): set<nat> {
    set u | u in universe && (last.Some? ==> Before(last.value, u)) :: u.id
  }

  lemma AheadShrinks(universe: seq<User>, last: Option<User>, next: User)
    requires Consistent(universe) && next in universe
    requires last.Some? ==> last.value in universe && Before(last.value, next)
    ensures |Ahead(universe, Some(next))| < |Ahead(universe, last)|
  {
    assert next.id in Ahead(universe, last);
    forall u | u in universe && Before(next, u) ensures u.id != next.id { assert SameBirth(next, u); }
    assert Ahead(universe, Some(next)) <= Ahead(universe, last) - {next.id};
    SubsetSize(Ahead(universe, Some(next)), Ahead(universe, last) - {next.id});
  }

  /** Unless a millisecond holds more users than a page, a page that does not end the walk moves on. */
  lemma PageMovesOn(
    universe: seq<User>, table: seq<User>, q: Query, limit: PageSize, last: Option<User>)
    requires DistinctIds(table) && (forall u :: u in table ==> u in universe) && Known(universe, q, last)
    requires AtMostPerMillisecond(universe, q, limit) && |Listing(table, q, Position(last))| > limit
    ensures var next := Listing(table, q, Position(last))[limit - 1];
            next in universe && (last.Some? ==> Before(last.value, next))
  {
    ListedRow(table, q, Position(last), limit - 1);
    var next := Listing(table, q, Position(last))[limit - 1];
    if last.Some? && !Before(last.value, next) {
      StuckPageIsCrowded(universe, table, q, limit, last.value);
      assert false;
    }
  }

  lemma WalkUnfolds(tables: nat -> seq<User>, q: Query, limits: nat -> PageSize, n: nat)
    ensures var w := WalkOf(ReaderOf(tables, q), limits, n);
            WalkOf(ReaderOf(tables, q), limits, n + 1)
            == NextPage(Listing(tables(n), q, Position(w.last)), limits(n), w)
  {
  }

  /** One page of a walk over sparse users: it ends the walk, or moves it on. */
  lemma SparseStep(universe: seq<User>, tables: nat -> seq<User>, q: Query, limit: PageSize, n: nat, w: Walk)
    requires Within(tables, universe) && AtMostPerMillisecond(universe, q, limit)
    requires Known(universe, q, w.last) && Covers(universe, tables, q, w)
    ensures var w' := NextPage(Listing(tables(n), q, Position(w.last)), limit, w);
            && Known(universe, q, w'.last) && Covers(universe, tables, q, w')
            && (!w'.done ==> |Ahead(universe, w'.last)| < |Ahead(universe, w.last)|)
  {
    var w' := NextPage(Listing(tables(n), q, Position(w.last)), limit, w);
    CoversStep(universe, tables, q, limit, n, w);
    if !w'.done {
      PageMovesOn(universe, tables(n), q, limit, w.last);
      AheadShrinks(universe, w.last, w'.last.value);
    }
  }

  lemma CoversAll(universe: seq<User>, tables: nat -> seq<User>, q: Query, w: Walk)
    requires Within(tables, universe) && Covers(universe, tables, q, w) && w.done
    ensures CompleteAt(tables, q, w)
  {
    forall id: nat | Remains(tables, q, id) ensures Listed(w.listed, id) {
      assert MatchesIn(tables(0), q, id);
      var u :| u in tables(0) && u.id == id && Matches(q, u);
      assert Passed(w, u);
    }
  }

  /** Pages of at least `limit` rows. */
  ghost predicate AtLeast(limits: nat -> PageSize, limit: nat) {
    forall n: nat :: limits(n) >= limit
  }

  lemma SparseForPage(universe: seq<User>, q: Query, m: nat, limit: nat)
    requires AtMostPerMillisecond(universe, q, m) && m <= limit
    ensures AtMostPerMillisecond(universe, q, limit)
  {
    forall ms: nat ensures |Crowd(universe, q, ms)| <= limit { assert |Crowd(universe, q, ms)| <= m; }
  }

  lemma SparsePage(
    universe: seq<User>, tables: nat -> seq<User>, q: Query, limits: nat -> PageSize, m: nat, n: nat, w: Walk)
    requires Within(tables, universe) && AtMostPerMillisecond(universe, q, m) && AtLeast(limits, m)
    requires Known(universe, q, w.last) && Covers(universe, tables, q, w)
    ensures var w' := NextPage(Listing(tables(n), q, Position(w.last)), limits(n), w);
            && Known(universe, q, w'.last) && Covers(universe, tables, q, w')
            && (w'.done ==> CompleteAt(tables, q, w'))
            && (!w'.done ==> |Ahead(universe, w'.last)| < |Ahead(universe, w.last)|)
  {
    SparseForPage(universe, q, m, limits(n));
    SparseStep(universe, tables, q, limits(n), n, w);
    var w' := NextPage(Listing(tables(n), q, Position(w.last)), limits(n), w);
    if w'.done { CoversAll(universe, tables, q, w'); }
  }

  lemma {:induction false} WalkEnds(
    universe: seq<User>, tables: nat -> seq<User>, q: Query, limits: nat -> PageSize, m: nat, n: nat, w: Walk)
    returns (k: nat)
    requires Within(tables, universe) && AtMostPerMillisecond(universe, q, m) && AtLeast(limits, m)
    requires w == WalkOf(ReaderOf(tables, q), limits, n)
    requires Known(universe, q, w.last) && Covers(universe, tables, q, w)
    ensures CompleteAt(tables, q, WalkOf(ReaderOf(tables, q), limits, k))
    decreases |Ahead(universe, w.last)|
  {
    var w' := NextPage(Listing(tables(n), q, Position(w.last)), limits(n), w);
    WalkUnfolds(tables, q, limits, n);
    SparsePage(universe, tables, q, limits, m, n, w);
    if w'.done {
      k := n + 1;
    } else {
      k := WalkEnds(universe, tables, q, limits, m, n + 1, w');
    }
  }

  lemma CompletesWhenSparse(universe: seq<User>, tables: nat -> seq<User>, q: Query, limits: nat -> PageSize, m: nat)
    requires Within(tables, universe) && AtMostPerMillisecond(universe, q, m) && AtLeast(limits, m)
    ensures Completes(tables, q, limits)
  {
    var k := WalkEnds(universe, tables, q, limits, m, 0, Walk(None, false, []));
  }

  // ----- A crowded millisecond -----

  function Everyone(): Query {
    Query("", "", (_, _) => true)
  }

  function Twin(id: nat): User {
    User(id, 1, "ACTIVE", false)
  }

  function Twins(n: nat): seq<User> {
    seq(n, i requires 0 <= i < n => Twin(i + 1))
  }

  /** `limit + 1` users created in the same microsecond, and one created later. */
  function CrowdedTable(limit: nat): seq<User> {
    Twins(limit + 1) + [User(limit + 2, 1000, "ACTIVE", false)]
  }

  lemma CrowdedSorted(limit: nat)
    ensures var table := CrowdedTable(limit); Sorted(Before, table) && DistinctIds(table)
  {
  }

  lemma FirstListing(limit: nat)
    ensures Listing(CrowdedTable(limit), Everyone(), None) == CrowdedTable(limit)
  {
    var table := CrowdedTable(limit);
    var listing := Listing(table, Everyone(), None);
    CrowdedSorted(limit);
    BeforeIsOrder();
    ListingSorted(table, Everyone(), None);
    forall u ensures u in listing <==> u in table {
      ListingHas(table, Everyone(), None, u);
      assert u in table ==> !u.deleted;
    }
    SortedUnique(Before, listing, table);
  }

  lemma NextListing(limit: nat, id: nat)
    requires 1 <= id <= limit + 1
    ensures var table := CrowdedTable(limit);
            Listing(table, Everyone(), Some(Mint(Twin(id)))) == table[..id - 1] + table[id..]
  {
    var table, after := CrowdedTable(limit), Some(Mint(Twin(id)));
    var listing, without := Listing(table, Everyone(), after), table[..id - 1] + table[id..];
    CrowdedSorted(limit);
    BeforeIsOrder();
    ListingSorted(table, Everyone(), after);
    forall u ensures u in listing <==> u in without {
      ListingHas(table, Everyone(), after, u);
      if u in table { CrowdedRow(limit, u); }
      WithoutIs(limit, id, u);
    }
    WithoutSorted(table, id);
    SortedUnique(Before, listing, without);
  }

  lemma CrowdedRow(limit: nat, u: User)
    requires u in CrowdedTable(limit)
    ensures Matches(Everyone(), u) && u.createdAt >= 1
  {
  }

  lemma WithoutSorted(table: seq<User>, id: nat)
    requires Sorted(Before, table) && 1 <= id <= |table|
    ensures Sorted(Before, table[..id - 1] + table[id..])
  {
  }

  lemma WithoutIs(limit: nat, id: nat, u: User)
    requires 1 <= id <= limit + 1
    ensures var table := CrowdedTable(limit);
            u in table[..id - 1] + table[id..] <==> u in table && u.id != id
  {
    var table := CrowdedTable(limit);
    assert table == table[..id - 1] + [table[id - 1]] + table[id..];
    assert forall i :: 0 <= i < |table| ==> table[i].id == i + 1;
  }

  ghost function Unchanging(table: seq<User>): nat -> seq<User> {
    (n: nat) => table
  }

  ghost function Always(limit: PageSize): nat -> PageSize {
    (n: nat) => limit
  }

  /** The walk alternates between two of them and never reaches the later user. */
  lemma {:induction false} CrowdedWalk(limit: PageSize, n: nat)
    requires n >= 1
    ensures var w := WalkOf(ReaderOf(Unchanging(CrowdedTable(limit)), Everyone()), Always(limit), n);
            !w.done && (w.last == Some(Twin(limit)) || w.last == Some(Twin(limit + 1)))
  {
    var table := CrowdedTable(limit);
    FirstListing(limit);
    NextListing(limit, limit);
    NextListing(limit, limit + 1);
    assert table[limit - 1] == Twin(limit) && table[limit] == Twin(limit + 1);
    if n > 1 { CrowdedWalk(limit, n - 1); }
  }

  lemma CrowdedCrowd(limit: nat)
    ensures AtMostPerMillisecond(CrowdedTable(limit), Everyone(), limit + 1)
  {
    var table := CrowdedTable(limit);
    CrowdedSorted(limit);
    FirstIdsSize(table, limit + 1);
    forall ms: nat ensures |Crowd(table, Everyone(), ms)| <= limit + 1 {
      if ms == 0 {
        forall x | x in Crowd(table, Everyone(), 0) ensures x in FirstIds(table, limit + 1) {
          CrowdedInFirst(limit, x);
        }
        SubsetSize(Crowd(table, Everyone(), 0), FirstIds(table, limit + 1));
      } else {
        SubsetSize(Crowd(table, Everyone(), ms), {limit + 2});
      }
    }
  }

  lemma CrowdedInFirst(limit: nat, x: nat)
    requires x in Crowd(CrowdedTable(limit), Everyone(), 0)
    ensures x in FirstIds(CrowdedTable(limit), limit + 1)
  {
    var table := CrowdedTable(limit);
    var u :| u in table && u.createdAt / 1000 == 0 && u.id == x;
    var i :| 0 <= i < |table| && table[i] == u;
    assert i < limit + 1;
    FirstIdsHas(table, limit + 1, x);
  }

  lemma UnchangingWithin(table: seq<User>, universe: seq<User>)
    requires DistinctIds(table) && Consistent(universe) && forall u :: u in table ==> u in universe
    ensures Within(Unchanging(table), universe)
  {
  }

  lemma DistinctIsConsistent(table: seq<User>)
    requires DistinctIds(table)
    ensures Consistent(table)
  {
    forall u, v | u in table && v in table ensures SameBirth(u, v) {
      if u != v { OtherId(table, u, v); }
    }
  }

  lemma CrowdedNeverCompletes(limit: PageSize)
    ensures !Completes(Unchanging(CrowdedTable(limit)), Everyone(), Always(limit))
  {
    forall n: nat ensures !WalkOf(ReaderOf(Unchanging(CrowdedTable(limit)), Everyone()), Always(limit), n).done {
      if n > 0 { CrowdedWalk(limit, n); }
    }
  }

  /** Over any versions of users of whom at most `m` matching ones share a millisecond, whatever is
      inserted, changed and removed between the pages, walks whose pages hold at least `limit` rows end
      and list every user that matches throughout, exactly when `m` is at most `limit`. */
  lemma WalkCompletesExactlyWhenPagesHoldMillisecond(limit: PageSize, m: nat)
    ensures (forall universe, tables, q, limits: nat -> PageSize ::
               Within(tables, universe) && AtMostPerMillisecond(universe, q, m) && AtLeast(limits, limit) ==>
                 Completes(tables, q, limits))
            <==> m <= limit
  {
    if m <= limit {
      forall universe, tables, q, limits: nat -> PageSize |
        Within(tables, universe) && AtMostPerMillisecond(universe, q, m) && AtLeast(limits, limit)
        ensures Completes(tables, q, limits)
      {
        assert AtLeast(limits, m);
        CompletesWhenSparse(universe, tables, q, limits, m);
      }
    } else {
      var table := CrowdedTable(limit);
      CrowdedSorted(limit);
      DistinctIsConsistent(table);
      UnchangingWithin(table, table);
      CrowdedCrowd(limit);
      SparseForPage(table, Everyone(), limit + 1, m);
      CrowdedNeverCompletes(limit);
      assert AtMostPerMillisecond(table, Everyone(), m) && AtLeast(Always(limit), limit);
    }
  }

  // ----- What is listed twice -----

  /** No user is listed twice, in whatever versions. */
  predicate NoRepeat(listed: seq<User>) {
    forall i, j :: 0 <= i < j < |listed| ==> listed[i].id != listed[j].id
  }

  /** No matching user, other than the last one, lets an earlier matching one through its cursor. */
  ghost predicate NoneLetThrough(table: seq<User>, q: Query) {
    forall u, c, v :: u in table && c in table && v in table ==> !LetsThrough(q, u, c, v)
  }

  /** `c` is followed by `v`, and the cursor of `c` lets the earlier `u` through. */
  predicate LetsThrough(q: Query, u: User, c: User, v: User) {
    && Matches(q, u) && Matches(q, c) && Matches(q, v)
    && Before(u, c) && Before(c, v) && After(Some(Mint(c)), u)
  }

  /** The cursor of a walk in progress belongs to the last row listed, and a later row exists. */
  ghost predicate Strict(universe: seq<User>, q: Query, w: Walk) {
    && Sorted(Before, w.listed) && Known(universe, q, w.last) && (forall u :: u in w.listed ==> u in universe)
    && (w.last.None? && !w.done ==> w.listed == [])
    && (w.last.Some? && !w.done ==>
          && (forall u :: u in w.listed ==> u == w.last.value || Before(u, w.last.value))
          && exists v :: v in universe && Matches(q, v) && Before(w.last.value, v))
  }

  lemma NextIsLater(universe: seq<User>, q: Query, c: User, u: User)
    requires NoneLetThrough(universe, q) && c in universe && u in universe && Matches(q, c) && Matches(q, u)
    requires exists v :: v in universe && Matches(q, v) && Before(c, v)
    requires After(Some(Mint(c)), u)
    ensures Before(c, u)
  {
    var v :| v in universe && Matches(q, v) && Before(c, v);
    assert u.id != c.id && !LetsThrough(q, u, c, v);
  }

  lemma SortedConcat(a: seq<User>, b: seq<User>)
    requires Sorted(Before, a) && Sorted(Before, b) && forall x, y :: x in a && y in b ==> Before(x, y)
    ensures Sorted(Before, a + b)
  {
    var c := a + b;
    forall i, j | 0 <= i < j < |c| ensures Before(c[i], c[j]) {
      if i < |a| <= j { assert c[i] in a && c[j] in b; }
    }
  }

  lemma StrictStep(universe: seq<User>, table: seq<User>, q: Query, limit: PageSize, w: Walk)
    requires DistinctIds(table) && forall u :: u in table ==> u in universe
    requires NoneLetThrough(universe, q) && Strict(universe, q, w)
    ensures Strict(universe, q, NextPage(Listing(table, q, Position(w.last)), limit, w))
  {
    var listing := Listing(table, q, Position(w.last));
    if !w.done {
      ListingSorted(table, q, Position(w.last));
      forall i | 0 <= i < |listing|
        ensures listing[i] in universe && Matches(q, listing[i]) && (w.last.Some? ==> Before(w.last.value, listing[i]))
      {
        ListedRow(table, q, Position(w.last), i);
        if w.last.Some? { NextIsLater(universe, q, w.last.value, listing[i]); }
      }
      StrictExtends(universe, q, limit, listing, w);
    }
  }

  lemma StrictExtends(universe: seq<User>, q: Query, limit: PageSize, listing: seq<User>, w: Walk)
    requires Strict(universe, q, w) && !w.done && Sorted(Before, listing)
    requires forall i :: 0 <= i < |listing| ==>
      listing[i] in universe && Matches(q, listing[i]) && (w.last.Some? ==> Before(w.last.value, listing[i]))
    ensures Strict(universe, q, NextPage(listing, limit, w))
  {
    var page := if |listing| <= limit then listing else listing[..limit];
    forall x, y | x in w.listed && y in page ensures Before(x, y) {
      var j :| 0 <= j < |page| && page[j] == y;
      assert listing[j] == y;
    }
    SortedConcat(w.listed, page);
    forall u | u in page ensures u in universe {
      var j :| 0 <= j < |page| && page[j] == u;
      assert listing[j] == u;
    }
    if |listing| > limit {
      assert Before(listing[limit - 1], listing[limit]);
      forall u | u in w.listed + page ensures u == listing[limit - 1] || Before(u, listing[limit - 1]) {
        StrictEnd(listing, limit, w.listed, u);
      }
    }
  }

  lemma StrictEnd(listing: seq<User>, limit: PageSize, listed: seq<User>, u: User)
    requires Sorted(Before, listing) && limit < |listing| && u in listed + listing[..limit]
    requires forall x :: x in listed ==> Before(x, listing[limit - 1])
    ensures u == listing[limit - 1] || Before(u, listing[limit - 1])
  {
    if u !in listed {
      var j :| 0 <= j < limit && listing[..limit][j] == u;
      assert j < limit - 1 ==> Before(listing[j], listing[limit - 1]);
    }
  }

  lemma {:induction false} AlwaysStrict(
    universe: seq<User>, tables: nat -> seq<User>, q: Query, limits: nat -> PageSize, n: nat)
    requires Within(tables, universe) && NoneLetThrough(universe, q)
    ensures Strict(universe, q, WalkOf(ReaderOf(tables, q), limits, n))
  {
    if n != 0 {
      var m: nat := n - 1;
      AlwaysStrict(universe, tables, q, limits, m);
      WalkUnfolds(tables, q, limits, m);
      StrictStep(universe, tables(m), q, limits(m), WalkOf(ReaderOf(tables, q), limits, m));
    }
  }

  lemma SortedNoRepeat(universe: seq<User>, listed: seq<User>)
    requires Sorted(Before, listed) && Consistent(universe) && forall u :: u in listed ==> u in universe
    ensures NoRepeat(listed)
  {
    forall i, j | 0 <= i < j < |listed| ensures listed[i].id != listed[j].id {
      assert listed[i] in listed && listed[j] in listed;
      assert SameBirth(listed[i], listed[j]);
    }
  }

  /** A row has no later place in a sorted part of a listing than in the listing. */
  lemma PlaceInPart(table: seq<User>, all: seq<User>, part: seq<User>, i: nat, p: nat)
    requires DistinctIds(table) && Sorted(Before, all) && Sorted(Before, part)
    requires i < |all| && p < |part| && all[i] == part[p]
    requires (forall x :: x in all ==> x in table) && forall x :: x in part ==> x in all
    ensures p <= i
  {
    SortedDistinct(table, all);
    forall k | 0 <= k < |part| ensures part[k] in table { assert part[k] in part; }
    SortedDistinct(table, part);
    FirstIdsSize(all, i);
    FirstIdsSize(part, p);
    forall x | x in FirstIds(part, p) ensures x in FirstIds(all, i) {
      FirstIdsHas(part, p, x);
      var k :| 0 <= k < p && part[k].id == x;
      assert part[k] in all && Before(part[k], part[p]);
      var m :| 0 <= m < |all| && all[m] == part[k];
      assert m < i;
      FirstIdsHas(all, i, x);
    }
    SubsetSize(FirstIds(part, p), FirstIds(all, i));
  }

  lemma PlaceOf(table: seq<User>, q: Query, after: Option<Cursor>, u: User) returns (i: nat)
    requires u in table && Matches(q, u) && After(after, u)
    ensures i < |Listing(table, q, after)| && Listing(table, q, after)[i] == u
  {
    ListingHas(table, q, after, u);
    i :| i < |Listing(table, q, after)| && Listing(table, q, after)[i] == u;
  }

  lemma PlacesOrdered(rows: seq<User>, i: nat, j: nat)
    requires Sorted(Before, rows) && i < |rows| && j < |rows| && Before(rows[i], rows[j])
    ensures i < j
  {
  }

  lemma ListingPart(table: seq<User>, q: Query, after: Option<Cursor>)
    ensures forall x :: x in Listing(table, q, None) ==> x in table
    ensures forall x :: x in Listing(table, q, after) ==> x in Listing(table, q, None)
  {
    forall x ensures x in Listing(table, q, None) <==> x in table && Matches(q, x) { ListingHas(table, q, None, x); }
    forall x | x in Listing(table, q, after) ensures x in table && Matches(q, x) { ListingHas(table, q, after, x); }
  }

  /** When the page size puts `c` at the end of the first page, the second lists `u` again. */
  lemma LetThroughIsListedTwice(table: seq<User>, q: Query, u: User, c: User, v: User) returns (limit: PageSize)
    requires DistinctIds(table) && u in table && c in table && v in table && LetsThrough(q, u, c, v)
    ensures !NoRepeat(WalkOf(ReaderOf(Unchanging(table), q), Always(limit), 2).listed)
  {
    var all, part := Listing(table, q, None), Listing(table, q, Some(Mint(c)));
    ListingSorted(table, q, None);
    ListingSorted(table, q, Some(Mint(c)));
    ListingPart(table, q, Some(Mint(c)));
    var i := PlaceOf(table, q, None, u);
    var j := PlaceOf(table, q, None, c);
    var k := PlaceOf(table, q, None, v);
    var p := PlaceOf(table, q, Some(Mint(c)), u);
    PlacesOrdered(all, i, j);
    PlacesOrdered(all, j, k);
    PlaceInPart(table, all, part, i, p);
    limit := j + 1;
    TwoPages(table, q, limit, all, part, c, i, p);
  }

  lemma TwoPages(table: seq<User>, q: Query, limit: PageSize, all: seq<User>, part: seq<User>, c: User, i: nat, p: nat)
    requires limit < |all| && all == Listing(table, q, None) && part == Listing(table, q, Some(Mint(c)))
    requires all[limit - 1] == c && i < limit && p < limit && p < |part| && all[i] == part[p]
    ensures !NoRepeat(WalkOf(ReaderOf(Unchanging(table), q), Always(limit), 2).listed)
  {
    var reader := ReaderOf(Unchanging(table), q);
    assert reader(0, None) == all && reader(1, Some(Mint(c))) == part;
    var listed := FirstTwoPages(reader, limit, all, part);
    assert listed[i] == all[i] && listed[limit + p] == part[p];
  }

  lemma FirstTwoPages(reader: Reader, limit: PageSize, all: seq<User>, part: seq<User>) returns (listed: seq<User>)
    requires reader(0, None) == all && limit < |all| && reader(1, Some(Mint(all[limit - 1]))) == part
    ensures listed == WalkOf(reader, Always(limit), 2).listed
    ensures listed == all[..limit] + if |part| <= limit then part else part[..limit]
  {
    var w0, w1 := WalkOf(reader, Always(limit), 0), WalkOf(reader, Always(limit), 1);
    assert w1 == NextPage(all, limit, w0);
    assert w1 == Walk(Some(all[limit - 1]), false, all[..limit]);
    listed := WalkOf(reader, Always(limit), 2).listed;
  }

  ghost predicate NeverRepeats(tables: nat -> seq<User>, q: Query) {
    forall limits: nat -> PageSize, n: nat :: NoRepeat(WalkOf(ReaderOf(tables, q), limits, n).listed)
  }

  lemma StrictNeverRepeats(universe: seq<User>, tables: nat -> seq<User>, q: Query)
    requires Within(tables, universe) && NoneLetThrough(universe, q)
    ensures NeverRepeats(tables, q)
  {
    forall limits: nat -> PageSize, n: nat ensures NoRepeat(WalkOf(ReaderOf(tables, q), limits, n).listed) {
      AlwaysStrict(universe, tables, q, limits, n);
      SortedNoRepeat(universe, WalkOf(ReaderOf(tables, q), limits, n).listed);
    }
  }

  /** On an unchanging table no user is listed twice, for all page sizes, exactly when no matching user
      other than the last lets an earlier one through its cursor. */
  lemma NothingRepeatsExactlyWhen(table: seq<User>, q: Query)
    requires DistinctIds(table)
    ensures NeverRepeats(Unchanging(table), q) <==> NoneLetThrough(table, q)
  {
    if NoneLetThrough(table, q) {
      DistinctIsConsistent(table);
      UnchangingWithin(table, table);
      StrictNeverRepeats(table, Unchanging(table), q);
    } else {
      var u, c, v :| u in table && c in table && v in table && LetsThrough(q, u, c, v);
      var limit := LetThroughIsListedTwice(table, q, u, c, v);
    }
  }

  /** The same over all tables that draw versions of users from `universe` and change between the
      pages. */
  lemma NothingRepeatsWhileChangingExactlyWhen(universe: seq<User>, q: Query)
    requires Consistent(universe)
    ensures (forall tables :: Within(tables, universe) ==> NeverRepeats(tables, q)) <==> NoneLetThrough(universe, q)
  {
    if NoneLetThrough(universe, q) {
      forall tables | Within(tables, universe) ensures NeverRepeats(tables, q) {
        StrictNeverRepeats(universe, tables, q);
      }
    } else {
      var u, c, v :| u in universe && c in universe && v in universe && LetsThrough(q, u, c, v);
      var table := [u, c, v];
      assert SameBirth(u, c) && SameBirth(c, v) && SameBirth(u, v);
      UnchangingWithin(table, universe);
      assert table[0] in table && table[1] in table && table[2] in table;
      NothingRepeatsExactlyWhen(table, q);
    }
  }

  /** Two users of one microsecond, a later one, and pages of two: the first user is listed twice. */
  lemma TwinIsListedTwice()
    ensures var table := [Twin(1), Twin(2), User(3, 1000, "ACTIVE", false)];
            !NeverRepeats(Unchanging(table), Everyone())
  {
    var table := [Twin(1), Twin(2), User(3, 1000, "ACTIVE", false)];
    assert table[0] in table && table[1] in table && table[2] in table;
    assert LetsThrough(Everyone(), table[0], table[1], table[2]);
    NothingRepeatsExactlyWhen(table, Everyone());
  }
}
