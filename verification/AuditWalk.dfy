/**
 A whole walk over the audit pages, from no cursor until no next cursor, while other requests
 insert and delete rows: `tables(k)` is the table the `k`-th page reads.
 */
module AuditWalk {
  import opened Prelude
  import opened StrictSort
  import opened AuditPages

  // ----- The listing a page is cut from -----

  lemma BeforeIsOrder()
    ensures StrictOrder(Before)
  {
  }

  lemma {:induction false} ListingSorted(table: seq<Row>, f: Filters, after: Option<Cursor>)
    requires DistinctIds(table)
    ensures Sorted(Before, Listing(table, f, after))
  {
    if table != [] {
      var rest := Listing(table[1..], f, after);
      ListingSorted(table[1..], f, after);
      forall i | 0 <= i < |rest| ensures Before(table[0], rest[i]) || Before(rest[i], table[0]) {
        ListingHas(table[1..], f, after, rest[i]);
        assert rest[i] in rest;
      }
      BeforeIsOrder();
      InsertSorts(Before, rest, table[0]);
    }
  }

  /** The latest row comes first, and among rows of one microsecond the one with the greatest id. */
  lemma ListedInOrder(table: seq<Row>, f: Filters, after: Option<Cursor>, i: nat, j: nat)
    requires DistinctIds(table) && i < j < |Listing(table, f, after)|
    ensures var a, b := Listing(table, f, after)[i], Listing(table, f, after)[j];
            b.createdAt < a.createdAt || (a.createdAt == b.createdAt && b.id < a.id)
  {
    ListingSorted(table, f, after);
    assert Before(Listing(table, f, after)[i], Listing(table, f, after)[j]);
  }

  // ----- The walk -----

  predicate Positioned(after: Option<Cursor>) {
    after.Some? ==> after.value.id.Some?
  }

  type PageSize = n: nat | 1 <= n witness 1

  /** The pages of a walk whose `k`-th request asks for `limits(k)` rows. It ends whatever is inserted
      meanwhile: each cursor is smaller. */
  ghost function Pages(tables: nat -> seq<Row>, k: nat, f: Filters, after: Option<Cursor>, limits: nat -> PageSize)
    : (pages: seq<seq<Row>>)
    requires Positioned(after)
    ensures |pages| >= 1
    decreases
      after.None?,
      if after.Some? then after.value.createdMs else 0,
      if after.Some? then after.value.id.value else 0
  {
    var page := PageOf(Listing(tables(k), f, after), f, limits(k));
    if page.next.None? then [page.items]
    else
      CursorDescends(tables(k), f, after, limits(k));
      [page.items] + Pages(tables, k + 1, f, page.next, limits)
  }

  lemma CursorDescends(table: seq<Row>, f: Filters, after: Option<Cursor>, limit: nat)
    requires 1 <= limit && Positioned(after) && limit < |Listing(table, f, after)|
    ensures var c := Mint(Listing(table, f, after)[limit - 1], f);
            after.Some? ==> c.createdMs < after.value.createdMs
                            || (c.createdMs == after.value.createdMs && c.id.value < after.value.id.value)
  {
    var last := Listing(table, f, after)[limit - 1];
    ListingHas(table, f, after, last);
    assert last in Listing(table, f, after);
  }

  function Concat(pages: seq<seq<Row>>): seq<Row> {
    if pages == [] then [] else pages[0] + Concat(pages[1..])
  }

  function Last(page: seq<Row>): Row
    requires page != []
  {
    page[|page| - 1]
  }

  predicate DistinctAt(tables: nat -> seq<Row>, k: nat) {
    DistinctIds(tables(k))
  }

  predicate SameRow(x: Row, y: Row) {
    x.id == y.id ==> x == y
  }

  ghost predicate Seen(tables: nat -> seq<Row>, r: Row) {
    exists k: nat :: r in tables(k)
  }

  /** Rows are immutable and identifiers are never reused. */
  ghost predicate RowsStable(tables: nat -> seq<Row>) {
    && (forall k: nat :: DistinctAt(tables, k))
    && (forall x, y {:trigger SameRow(x, y)} :: Seen(tables, x) && Seen(tables, y) ==> SameRow(x, y))
  }

  /** The cursor of a walk that has just listed `last`. */
  function Position(last: Option<Row>, f: Filters): Option<Cursor> {
    if last.None? then None else Some(Mint(last.value, f))
  }

  ghost predicate Walking(tables: nat -> seq<Row>, last: Option<Row>, limits: nat -> PageSize) {
    RowsStable(tables) && (last.Some? ==> Seen(tables, last.value))
  }

  lemma AfterImpliesBefore(c: Row, r: Row, f: Filters)
    requires AfterCursor(Mint(c, f), r)
    ensures Before(c, r)
  {
  }

  lemma AfterTransitive(c: Row, b: Row, r: Row, f: Filters)
    requires AfterCursor(Mint(c, f), b) && AfterCursor(Mint(b, f), r) && r.id != c.id
    ensures AfterCursor(Mint(c, f), r)
  {
  }

  lemma ConcatHas(pages: seq<seq<Row>>, r: Row)
    requires pages != []
    ensures r in Concat(pages) <==> r in pages[0] || r in Concat(pages[1..])
  {
  }

  lemma {:induction false} PageInConcat(pages: seq<seq<Row>>, i: nat, r: Row)
    requires i < |pages| && r in pages[i]
    ensures r in Concat(pages)
  {
    if i > 0 { PageInConcat(pages[1..], i - 1, r); }
  }

  /** One page of a walk: its listing, and the rest of the walk if there is one. */
  lemma FirstPage(tables: nat -> seq<Row>, k: nat, f: Filters, last: Option<Row>, limits: nat -> PageSize)
    returns (listing: seq<Row>, pages: seq<seq<Row>>)
    requires Walking(tables, last, limits)
    ensures listing == Listing(tables(k), f, Position(last, f))
    ensures pages == Pages(tables, k, f, Position(last, f), limits)
    ensures Sorted(Before, listing)
    ensures forall r :: r in listing ==>
      Matches(f, r) && After(Position(last, f), r) && r in tables(k) && Seen(tables, r)
    ensures |listing| <= limits(k) ==> pages == [listing]
    ensures limits(k) < |listing| ==>
      && pages == [listing[..limits(k)]] + Pages(tables, k + 1, f, Position(Some(listing[limits(k) - 1]), f), limits)
      && Walking(tables, Some(listing[limits(k) - 1]), limits)
  {
    listing, pages := Listing(tables(k), f, Position(last, f)), Pages(tables, k, f, Position(last, f), limits);
    assert DistinctAt(tables, k);
    ListingSorted(tables(k), f, Position(last, f));
    forall r | r in listing
      ensures Matches(f, r) && After(Position(last, f), r) && r in tables(k) && Seen(tables, r)
    {
      ListingHas(tables(k), f, Position(last, f), r);
    }
    if limits(k) < |listing| {
      assert listing[limits(k) - 1] in listing;
    }
  }

  /** Everything a walk lists lies after its starting cursor, in the order and in the cursor's own
      sense, and matches the filters. */
  lemma {:induction false} WalkLiesAfter(
    tables: nat -> seq<Row>, k: nat, f: Filters, last: Option<Row>, limits: nat -> PageSize, r: Row)
    requires Walking(tables, last, limits)
    requires r in Concat(Pages(tables, k, f, Position(last, f), limits))
    ensures Seen(tables, r) && Matches(f, r) && After(Position(last, f), r)
    ensures last.Some? ==> Before(last.value, r)
    decreases |Pages(tables, k, f, Position(last, f), limits)|
  {
    var listing, pages := FirstPage(tables, k, f, last, limits);
    ConcatHas(pages, r);
    if r in pages[0] {
      assert r in listing;
    } else {
      var c := listing[limits(k) - 1];
      assert pages[1..] == Pages(tables, k + 1, f, Position(Some(c), f), limits);
      WalkLiesAfter(tables, k + 1, f, Some(c), limits, r);
      assert c in listing;
      if last.Some? {
        AfterImpliesBefore(last.value, c, f);
        assert SameRow(r, last.value);
        AfterTransitive(last.value, c, r, f);
      }
    }
    if last.Some? { AfterImpliesBefore(last.value, r, f); }
  }

  /** A walk lists rows in strictly descending (created_at, id) order, so none twice. */
  lemma {:induction false} WalkIsStrictlyDescending(
    tables: nat -> seq<Row>, k: nat, f: Filters, last: Option<Row>, limits: nat -> PageSize)
    requires Walking(tables, last, limits)
    ensures Sorted(Before, Concat(Pages(tables, k, f, Position(last, f), limits)))
    decreases |Pages(tables, k, f, Position(last, f), limits)|
  {
    var listing, pages := FirstPage(tables, k, f, last, limits);
    if limits(k) < |listing| {
      var c := listing[limits(k) - 1];
      var rest := Concat(Pages(tables, k + 1, f, Position(Some(c), f), limits));
      assert pages[1..] == Pages(tables, k + 1, f, Position(Some(c), f), limits);
      WalkIsStrictlyDescending(tables, k + 1, f, Some(c), limits);
      forall j | 0 <= j < |rest| ensures Before(c, rest[j]) {
        WalkLiesAfter(tables, k + 1, f, Some(c), limits, rest[j]);
      }
      assert Concat(pages) == listing[..limits(k)] + rest;
    } else {
      assert pages[1..] == [];
      assert Concat(pages) == listing;
    }
  }

  // ----- Which rows a walk misses -----

  /** `c` ends a page, `r` comes after it, and the millisecond cursor of `c` excludes `r`. */
  predicate Skips(c: Row, r: Row, f: Filters) {
    Before(c, r) && !AfterCursor(Mint(c, f), r)
  }

  /** Some page other than the last ends in a row that skips `r`. */
  predicate Skipped(pages: seq<seq<Row>>, r: Row, f: Filters) {
    exists i :: 0 <= i < |pages| - 1 && pages[i] != [] && Skips(Last(pages[i]), r, f)
  }

  predicate ListedUnlessSkipped(pages: seq<seq<Row>>, r: Row, f: Filters) {
    r in Concat(pages) <==> !Skipped(pages, r, f)
  }

  ghost predicate Present(tables: nat -> seq<Row>, from: nat, r: Row) {
    forall k: nat :: from <= k ==> r in tables(k)
  }

  lemma SkippedCons(pages: seq<seq<Row>>, r: Row, f: Filters)
    requires |pages| >= 2 && pages[0] != []
    ensures Skipped(pages, r, f) <==> Skips(Last(pages[0]), r, f) || Skipped(pages[1..], r, f)
  {
    if Skipped(pages, r, f) {
      var i :| 0 <= i < |pages| - 1 && pages[i] != [] && Skips(Last(pages[i]), r, f);
      if i > 0 { assert pages[1..][i - 1] == pages[i]; }
    }
    if Skipped(pages[1..], r, f) {
      var i :| 0 <= i < |pages[1..]| - 1 && pages[1..][i] != [] && Skips(Last(pages[1..][i]), r, f);
      assert pages[i + 1] == pages[1..][i];
    }
  }

  lemma SplitAt(listing: seq<Row>, limit: nat, r: Row) returns (page: seq<Row>)
    requires Sorted(Before, listing) && r in listing && 1 <= limit < |listing|
    ensures page == listing[..limit] && page != [] && Last(page) == listing[limit - 1]
    ensures if r in page then r == Last(page) || Before(r, Last(page)) else Before(Last(page), r)
  {
    page := listing[..limit];
    var at :| 0 <= at < |listing| && listing[at] == r;
    assert at < limit ==> page[at] == r;
    if r in page {
      var j :| 0 <= j < limit && listing[j] == r;
    }
  }

  lemma ListedOnLastPage(page: seq<Row>, r: Row, f: Filters)
    requires r in page
    ensures ListedUnlessSkipped([page], r, f)
  {
    ConcatHas([page], r);
  }

  /** A matching row that stays in the table is listed exactly when no page boundary skips it. */
  lemma {:induction false} ListedExactlyWhenNotSkipped(
    tables: nat -> seq<Row>, k: nat, f: Filters, last: Option<Row>, limits: nat -> PageSize, r: Row)
    requires Walking(tables, last, limits)
    requires Present(tables, k, r) && Matches(f, r) && After(Position(last, f), r)
    ensures ListedUnlessSkipped(Pages(tables, k, f, Position(last, f), limits), r, f)
    decreases |Pages(tables, k, f, Position(last, f), limits)|
  {
    var listing, pages := FirstPage(tables, k, f, last, limits);
    if limits(k) < |listing| {
      var c := listing[limits(k) - 1];
      if AfterCursor(Mint(c, f), r) {
        ListedExactlyWhenNotSkipped(tables, k + 1, f, Some(c), limits, r);
      }
      ListedFromHere(tables, k, f, last, limits, r);
    } else {
      ListedAtEnd(tables, k, f, last, limits, r);
    }
  }

  lemma ListedAtEnd(
    tables: nat -> seq<Row>, k: nat, f: Filters, last: Option<Row>, limits: nat -> PageSize, r: Row)
    requires Walking(tables, last, limits) && r in tables(k) && Matches(f, r) && After(Position(last, f), r)
    requires |Listing(tables(k), f, Position(last, f))| <= limits(k)
    ensures ListedUnlessSkipped(Pages(tables, k, f, Position(last, f), limits), r, f)
  {
    var listing, pages := FirstPage(tables, k, f, last, limits);
    ListingHas(tables(k), f, Position(last, f), r);
    ListedOnLastPage(listing, r, f);
  }

  /** One page and the pages after it, given the claim for those. */
  lemma ListedFromHere(
    tables: nat -> seq<Row>, k: nat, f: Filters, last: Option<Row>, limits: nat -> PageSize, r: Row)
    requires Walking(tables, last, limits) && r in tables(k) && Matches(f, r) && After(Position(last, f), r)
    requires limits(k) < |Listing(tables(k), f, Position(last, f))|
    requires var c := Listing(tables(k), f, Position(last, f))[limits(k) - 1];
             AfterCursor(Mint(c, f), r) ==>
               ListedUnlessSkipped(Pages(tables, k + 1, f, Position(Some(c), f), limits), r, f)
    ensures ListedUnlessSkipped(Pages(tables, k, f, Position(last, f), limits), r, f)
  {
    var listing, page := SplitHere(tables, k, f, last, limits, r);
    ListedWithMore(tables, k + 1, f, page, limits, r);
  }

  /** The current page, and on which side of its end the row lies. */
  lemma SplitHere(
    tables: nat -> seq<Row>, k: nat, f: Filters, last: Option<Row>, limits: nat -> PageSize, r: Row)
    returns (listing: seq<Row>, page: seq<Row>)
    requires Walking(tables, last, limits) && r in tables(k) && Matches(f, r) && After(Position(last, f), r)
    requires limits(k) < |Listing(tables(k), f, Position(last, f))|
    ensures listing == Listing(tables(k), f, Position(last, f))
    ensures page != [] && Last(page) == listing[limits(k) - 1] && Walking(tables, Some(Last(page)), limits)
    ensures if r in page then r == Last(page) || Before(r, Last(page)) else Before(Last(page), r)
    ensures Pages(tables, k, f, Position(last, f), limits) ==
            [page] + Pages(tables, k + 1, f, Position(Some(Last(page)), f), limits)
  {
    var pages;
    listing, pages := FirstPage(tables, k, f, last, limits);
    ListingHas(tables(k), f, Position(last, f), r);
    page := SplitAt(listing, limits(k), r);
  }

  /** A page ending in `c` and the pages after it, given the claim for those pages. */
  lemma ListedWithMore(tables: nat -> seq<Row>, k: nat, f: Filters, page: seq<Row>, limits: nat -> PageSize, r: Row)
    requires page != [] && Walking(tables, Some(Last(page)), limits)
    requires if r in page then r == Last(page) || Before(r, Last(page)) else Before(Last(page), r)
    requires AfterCursor(Mint(Last(page), f), r) ==>
               ListedUnlessSkipped(Pages(tables, k, f, Position(Some(Last(page)), f), limits), r, f)
    ensures ListedUnlessSkipped([page] + Pages(tables, k, f, Position(Some(Last(page)), f), limits), r, f)
  {
    var c := Last(page);
    if r in page {
      NotSkippedLater(tables, k, f, c, limits, r);
    } else if !AfterCursor(Mint(c, f), r) {
      NotListedLater(tables, k, f, c, limits, r);
    }
    ListedStep(page, Pages(tables, k, f, Position(Some(c), f), limits), r, f);
  }

  lemma ListedStep(page: seq<Row>, rest: seq<seq<Row>>, r: Row, f: Filters)
    requires page != [] && rest != []
    requires r in page ==> !Skips(Last(page), r, f) && !Skipped(rest, r, f)
    requires r !in page && Skips(Last(page), r, f) ==> r !in Concat(rest)
    requires r !in page && !Skips(Last(page), r, f) ==> ListedUnlessSkipped(rest, r, f)
    ensures ListedUnlessSkipped([page] + rest, r, f)
  {
    var pages := [page] + rest;
    assert pages[1..] == rest;
    ConcatHas(pages, r);
    SkippedCons(pages, r, f);
  }

  lemma NotListedLater(tables: nat -> seq<Row>, k: nat, f: Filters, c: Row, limits: nat -> PageSize, r: Row)
    requires Walking(tables, Some(c), limits) && !AfterCursor(Mint(c, f), r)
    ensures r !in Concat(Pages(tables, k, f, Position(Some(c), f), limits))
  {
    if r in Concat(Pages(tables, k, f, Position(Some(c), f), limits)) {
      WalkLiesAfter(tables, k, f, Some(c), limits, r);
    }
  }

  /** Pages after `c` do not skip a row that comes no later than `c`. */
  lemma NotSkippedLater(tables: nat -> seq<Row>, k: nat, f: Filters, c: Row, limits: nat -> PageSize, r: Row)
    requires Walking(tables, Some(c), limits) && (r == c || Before(r, c))
    ensures !Skipped(Pages(tables, k, f, Position(Some(c), f), limits), r, f)
  {
    var pages := Pages(tables, k, f, Position(Some(c), f), limits);
    forall i | 0 <= i < |pages| && pages[i] != [] ensures !Before(Last(pages[i]), r) {
      assert Last(pages[i]) in pages[i];
      PageInConcat(pages, i, Last(pages[i]));
      WalkLiesAfter(tables, k, f, Some(c), limits, Last(pages[i]));
    }
  }

  // ----- Main theorems -----

  lemma BoundaryIsSeen(tables: nat -> seq<Row>, k: nat, f: Filters, limits: nat -> PageSize, i: nat) returns (c: Row)
    requires RowsStable(tables)
    requires i < |Pages(tables, k, f, None, limits)| && Pages(tables, k, f, None, limits)[i] != []
    ensures c == Last(Pages(tables, k, f, None, limits)[i]) && Seen(tables, c) && Matches(f, c)
  {
    var pages := Pages(tables, k, f, None, limits);
    c := Last(pages[i]);
    assert c in pages[i];
    PageInConcat(pages, i, c);
    WalkLiesAfter(tables, k, f, None, limits, c);
  }

  /** Every two neighbours of the full listing are told apart by a millisecond cursor. */
  predicate NeighboursSeparated(listing: seq<Row>, f: Filters) {
    forall i :: 0 <= i < |listing| - 1 ==> AfterCursor(Mint(listing[i], f), listing[i + 1])
  }

  lemma {:induction false} SeparationSpreads(listing: seq<Row>, f: Filters, i: nat, j: nat)
    requires NeighboursSeparated(listing, f) && i < j < |listing|
    requires forall a, b :: 0 <= a < b < |listing| ==> listing[a].id != listing[b].id
    ensures AfterCursor(Mint(listing[i], f), listing[j])
    decreases j
  {
    if i + 1 < j {
      SeparationSpreads(listing, f, i, j - 1);
      AfterTransitive(listing[i], listing[j - 1], listing[j], f);
    }
  }

  ghost function Unchanging(table: seq<Row>): nat -> seq<Row> {
    (k: nat) => table
  }

  ghost function OneByOne(): nat -> PageSize {
    (k: nat) => 1
  }

  /** The pages of a walk over a table nobody changes. */
  ghost function StaticPages(table: seq<Row>, f: Filters, limits: nat -> PageSize): seq<seq<Row>>
  {
    Pages(Unchanging(table), 0, f, None, limits)
  }

  lemma StaticWalk(table: seq<Row>)
    requires DistinctIds(table)
    ensures RowsStable(Unchanging(table)) && forall x :: x in table ==> Present(Unchanging(table), 0, x)
    ensures forall x :: Seen(Unchanging(table), x) ==> x in table
  {
    var tables := Unchanging(table);
    forall x, y | Seen(tables, x) && Seen(tables, y) && x.id == y.id ensures x == y {
      var i :| 0 <= i < |table| && table[i] == x;
      var j :| 0 <= j < |table| && table[j] == y;
    }
  }

  /** On an unchanging table the walk lists every matching row, for all page sizes, exactly when
      the cursors separate all neighbours. */
  lemma StaticWalkCompleteExactlyWhen(table: seq<Row>, f: Filters)
    requires DistinctIds(table)
    ensures (forall limits: nat -> PageSize, r :: r in table && Matches(f, r) ==>
               r in Concat(StaticPages(table, f, limits)))
            <==> NeighboursSeparated(Listing(table, f, None), f)
  {
    if NeighboursSeparated(Listing(table, f, None), f) {
      forall limits: nat -> PageSize, r | r in table && Matches(f, r)
        ensures r in Concat(StaticPages(table, f, limits))
      {
        SeparatedIsComplete(table, f, limits, r);
      }
    } else if forall r :: r in table && Matches(f, r) ==> r in Concat(StaticPages(table, f, OneByOne())) {
      CompleteIsSeparated(table, f);
    }
  }

  lemma ListingDistinct(table: seq<Row>, f: Filters)
    requires DistinctIds(table)
    ensures var listing := Listing(table, f, None);
            forall a, b :: 0 <= a < b < |listing| ==> listing[a].id != listing[b].id
  {
    var listing := Listing(table, f, None);
    ListingSorted(table, f, None);
    forall a, b | 0 <= a < b < |listing| ensures listing[a].id != listing[b].id {
      ListingHas(table, f, None, listing[a]);
      ListingHas(table, f, None, listing[b]);
      assert Before(listing[a], listing[b]);
    }
  }

  lemma SeparatedNeverSkips(table: seq<Row>, f: Filters, c: Row, r: Row)
    requires DistinctIds(table) && NeighboursSeparated(Listing(table, f, None), f)
    requires c in Listing(table, f, None) && r in Listing(table, f, None)
    ensures !Skips(c, r, f)
  {
    var listing := Listing(table, f, None);
    ListingSorted(table, f, None);
    ListingDistinct(table, f);
    var i :| 0 <= i < |listing| && listing[i] == c;
    var j :| 0 <= j < |listing| && listing[j] == r;
    if i < j { SeparationSpreads(listing, f, i, j); }
  }

  lemma SeparatedIsComplete(table: seq<Row>, f: Filters, limits: nat -> PageSize, r: Row)
    requires DistinctIds(table) && r in table && Matches(f, r)
    requires NeighboursSeparated(Listing(table, f, None), f)
    ensures r in Concat(StaticPages(table, f, limits))
  {
    var tables := Unchanging(table);
    var pages := StaticPages(table, f, limits);
    StaticWalk(table);
    ListedExactlyWhenNotSkipped(tables, 0, f, None, limits, r);
    ListingHas(table, f, None, r);
    forall p | 0 <= p < |pages| && pages[p] != [] ensures !Skips(Last(pages[p]), r, f) {
      var c := BoundaryIsSeen(tables, 0, f, limits, p);
      ListingHas(table, f, None, c);
      SeparatedNeverSkips(table, f, c, r);
    }
  }

  predicate OnePerPage(pages: seq<seq<Row>>) {
    forall i :: 0 <= i < |pages| ==> |pages[i]| <= 1 && (i < |pages| - 1 ==> |pages[i]| == 1)
  }

  lemma {:induction false} SmallPages(tables: nat -> seq<Row>, k: nat, f: Filters, last: Option<Row>)
    requires Walking(tables, last, OneByOne())
    ensures OnePerPage(Pages(tables, k, f, Position(last, f), OneByOne()))
    decreases |Pages(tables, k, f, Position(last, f), OneByOne())|
  {
    var listing, pages := FirstPage(tables, k, f, last, OneByOne());
    if 1 < |listing| { SmallPages(tables, k + 1, f, Some(listing[0])); }
  }

  lemma {:induction false} SmallConcat(pages: seq<seq<Row>>, i: nat)
    requires OnePerPage(pages) && i < |Concat(pages)|
    ensures i < |pages| && pages[i] == [Concat(pages)[i]]
  {
    if i > 0 { SmallConcat(pages[1..], i - 1); }
  }

  lemma CompleteIsSeparated(table: seq<Row>, f: Filters)
    requires DistinctIds(table)
    requires forall r :: r in table && Matches(f, r) ==> r in Concat(StaticPages(table, f, OneByOne()))
    ensures NeighboursSeparated(Listing(table, f, None), f)
  {
    var tables := Unchanging(table);
    var pages := StaticPages(table, f, OneByOne());
    var listing := Listing(table, f, None);
    StaticWalk(table);
    ListingSorted(table, f, None);
    WalkIsStrictlyDescending(tables, 0, f, None, OneByOne());
    forall r ensures r in listing <==> r in Concat(pages) {
      ListingHas(table, f, None, r);
      if r in Concat(pages) { WalkLiesAfter(tables, 0, f, None, OneByOne(), r); }
    }
    BeforeIsOrder();
    SortedUnique(Before, listing, Concat(pages));
    assert Position(None, f) == None;
    SmallPages(tables, 0, f, None);
    forall i | 0 <= i < |listing| - 1 ensures AfterCursor(Mint(listing[i], f), listing[i + 1]) {
      SmallConcat(pages, i);
      SmallConcat(pages, i + 1);
      ListingHas(table, f, None, listing[i + 1]);
      ListedExactlyWhenNotSkipped(tables, 0, f, None, OneByOne(), listing[i + 1]);
      assert !Skips(Last(pages[i]), listing[i + 1], f);
      assert Before(listing[i], listing[i + 1]);
    }
  }

  /** Two rows a microsecond apart, read one per page: one of them is never listed. */
  lemma MicrosecondNeighbourIsMissed() returns (missed: Row)
    ensures var newer := Row(2, 1_000_501, None, None, "user", "created");
            var older := Row(1, 1_000_500, None, None, "user", "created");
            var all := Filters(None, None, None, None, None, None, "");
            missed in [older, newer] && missed !in Concat(StaticPages([older, newer], all, OneByOne()))
  {
    var newer := Row(2, 1_000_501, None, None, "user", "created");
    var older := Row(1, 1_000_500, None, None, "user", "created");
    var all := Filters(None, None, None, None, None, None, "");
    var table := [older, newer];
    NeighboursNotSeparated(newer, older, all);
    if forall r :: r in table && Matches(all, r) ==> r in Concat(StaticPages(table, all, OneByOne())) {
      CompleteIsSeparated(table, all);
      assert false;
    }
    missed :| missed in table && missed !in Concat(StaticPages(table, all, OneByOne()));
  }

  lemma NeighboursNotSeparated(c: Row, r: Row, f: Filters)
    requires Matches(f, c) && Matches(f, r) && Skips(c, r, f)
    ensures !NeighboursSeparated(Listing([r, c], f, None), f)
  {
    assert [r, c][1..] == [c] && [c][1..] == [];
    assert Listing([c], f, None) == Insert(Before, [], c) == [c];
    assert Insert(Before, [c], r) == [c] + Insert(Before, [], r);
    assert Listing([r, c], f, None) == [c, r];
    assert !AfterCursor(Mint([c, r][0], f), [c, r][1]);
  }

  // ----- The exact condition on changing tables -----

  /** All rows that may ever be in the table: identifiers are not reused. */
  ghost predicate Universe(u: iset<Row>) {
    forall x, y {:trigger SameRow(x, y)} :: x in u && y in u ==> SameRow(x, y)
  }

  ghost predicate Within(tables: nat -> seq<Row>, u: iset<Row>) {
    forall x :: Seen(tables, x) ==> x in u
  }

  /** The walk lists every matching row that is in the table throughout. */
  ghost predicate WalkComplete(tables: nat -> seq<Row>, f: Filters, limits: nat -> PageSize)
  {
    forall r :: Present(tables, 0, r) && Matches(f, r) ==> r in Concat(Pages(tables, 0, f, None, limits))
  }

  /** No row's millisecond cursor hides a row that comes after it. */
  ghost predicate NoneSkipped(u: iset<Row>, f: Filters) {
    forall c, r :: c in u && r in u && Matches(f, c) && Matches(f, r) ==> !Skips(c, r, f)
  }

  lemma NoneSkippedIsComplete(u: iset<Row>, tables: nat -> seq<Row>, f: Filters, limits: nat -> PageSize)
    requires NoneSkipped(u, f) && RowsStable(tables) && Within(tables, u)
    ensures WalkComplete(tables, f, limits)
  {
    forall r | Present(tables, 0, r) && Matches(f, r) ensures r in Concat(Pages(tables, 0, f, None, limits)) {
      var pages := Pages(tables, 0, f, None, limits);
      assert r in tables(0);
      assert Seen(tables, r);
      assert Position(None, f) == None;
      ListedExactlyWhenNotSkipped(tables, 0, f, None, limits, r);
      forall i | 0 <= i < |pages| && pages[i] != [] ensures !Skips(Last(pages[i]), r, f) {
        var c := BoundaryIsSeen(tables, 0, f, limits, i);
      }
    }
  }

  /** A skipped pair alone in the table is not listed whole. */
  lemma SkippedPairIsIncomplete(u: iset<Row>, f: Filters, c: Row, r: Row)
    requires Universe(u) && c in u && r in u && Matches(f, c) && Matches(f, r) && Skips(c, r, f)
    ensures var tables := Unchanging([r, c]);
            RowsStable(tables) && Within(tables, u) && !WalkComplete(tables, f, OneByOne())
  {
    var table := [r, c];
    assert SameRow(c, r);
    assert DistinctIds(table);
    StaticWalk(table);
    NeighboursNotSeparated(c, r, f);
    if WalkComplete(Unchanging(table), f, OneByOne()) {
      forall x | x in table && Matches(f, x) ensures x in Concat(StaticPages(table, f, OneByOne())) {
        assert Present(Unchanging(table), 0, x);
      }
      CompleteIsSeparated(table, f);
      assert false;
    }
  }

  /** Over rows from `u`, whatever is inserted and deleted between the pages and for all page sizes,
      every matching row that stays is listed, exactly when no cursor hides a later row of `u`. */
  lemma ChangingWalkCompleteExactlyWhen(u: iset<Row>, f: Filters)
    requires Universe(u)
    ensures (forall tables, limits: nat -> PageSize :: RowsStable(tables) && Within(tables, u) ==>
               WalkComplete(tables, f, limits))
            <==> NoneSkipped(u, f)
  {
    if NoneSkipped(u, f) {
      forall tables, limits: nat -> PageSize | RowsStable(tables) && Within(tables, u)
        ensures WalkComplete(tables, f, limits)
      {
        NoneSkippedIsComplete(u, tables, f, limits);
      }
    } else {
      var c, r :| c in u && r in u && Matches(f, c) && Matches(f, r) && Skips(c, r, f);
      SkippedPairIsIncomplete(u, f, c, r);
    }
  }

  /** A cursor hides a later row exactly within its own millisecond, and then only a row that is not
      created on the millisecond itself with a smaller id. */
  lemma SkipsExactlyWhen(c: Row, r: Row, f: Filters)
    requires c.id != r.id
    ensures Skips(c, r, f) <==>
            Before(c, r) && r.createdAt / 1000 == c.createdAt / 1000 && !(r.createdAt % 1000 == 0 && r.id < c.id)
  {
  }
}
